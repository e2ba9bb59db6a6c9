/** Selection vectors: one ascending list of row numbers, kept as a list, a bitmap or runs. */
module SelectionVectors {
  import opened Bitmap
  import opened ByteScan

  datatype Repr = DENSE | BITMAP | RANGES

  datatype Runs = Run(start: nat, len: nat)

  function Span(start: nat, len: nat): (r: seq<nat>)
    ensures |r| == len && forall i :: 0 <= i < len ==> r[i] == start + i
  {
    seq(len, i => start + i)
  }

  /** The row numbers of the first `n` runs. */
  function RunsTo(rs: seq<Runs>, n: nat): seq<nat>
    requires n <= |rs|
  {
    if n == 0 then [] else RunsTo(rs, n - 1) + Span(rs[n - 1].start, rs[n - 1].len)
  }

  function RunIndices(rs: seq<Runs>): seq<nat> {
    RunsTo(rs, |rs|)
  }

  // ---- bitmaps ----

  /** Visits the set bits from the lowest up, one byte after the other. */
  method VisitBits(bm: Bits) returns (out: seq<nat>)
    ensures out == SetIndices(bm)
  {
    hide ByteBits, SetBits, Shift;
    NoBitsYet(bm);
    out := [];
    var i := 0;
    while i < |bm|
      invariant i <= |bm| && out == SetBits(bm, 8 * i)
    {
      var bits := VisitByte(bm[i], 8 * i);
      NextByte(bm, i, 8);
      out := out + bits;
      i := i + 1;
    }
  }

  /** Takes the lowest bit off until none is left. */
  method VisitByte(byte: bv8, base: nat) returns (out: seq<nat>)
    ensures out == Shift(base, ByteBits(byte, 8))
  {
    hide ByteBits, ByteBit, Ctz;
    out := [];
    var b := byte;
    ghost var done: seq<nat> := [];
    while b != 0
      invariant done + ByteBits(b, 8) == ByteBits(byte, 8) && out == Shift(base, done)
      decreases |ByteBits(b, 8)|
    {
      PopLowest(b, 8);
      var bit := Ctz(b);
      out := out + [base + bit];
      done := done + [bit];
      b := b & (b - 1);
    }
    ZeroBits(8);
    assert done + [] == done;
  }

  /** The lowest `need` bits of a byte. */
  method LowestBits(b: bv8, need: nat) returns (kept: bv8)
    requires need <= |ByteBits(b, 8)|
    ensures ByteBits(kept, 8) == ByteBits(b, 8)[..need]
  {
    hide ByteBits, ByteBit, Ctz;
    kept := 0;
    var taken, cur := 0, b;
    ZeroBits(8);
    ghost var all := ByteBits(b, 8);
    BitsAscend(b, 8);
    while cur != 0 && taken < need
      invariant taken <= need && ByteBits(kept, 8) == all[..taken] && ByteBits(cur, 8) == all[taken..]
      decreases need - taken
    {
      PopLowest(cur, 8);
      var bit := Ctz(cur);
      TakeNext(all, taken);
      SetHighest(kept, bit, 8);
      kept := kept | (1 << bit);
      cur := cur & (cur - 1);
      taken := taken + 1;
    }
  }

  lemma {:induction false} TakeNext(s: seq<nat>, i: nat)
    requires Ascending(s) && i < |s|
    ensures s[i..] == [s[i]] + s[i + 1..] && s[..i + 1] == s[..i] + [s[i]]
    ensures forall j :: 0 <= j < i ==> s[..i][j] < s[i]
  {
  }

  lemma {:induction false} BitsAscend(b: bv8, n: nat)
    requires n <= 8
    ensures Ascending(ByteBits(b, n))
  {
    hide ByteBit;
    if n > 0 {
      BitsAscend(b, n - 1);
    }
  }

  /** Keeps the first `k` set bits and clears the others. */
  method CutBits(bm: Bits, k: nat) returns (out: Bits)
    requires k < |SetIndices(bm)|
    ensures |out| == |bm| && SetIndices(out) == SetIndices(bm)[..k]
  {
    hide SetBits, ByteBits;
    var kept, i := 0, 0;
    NoBitsYet(bm);
    while true
      invariant i <= |bm| && kept == |SetBits(bm, 8 * i)| <= k
      invariant i < |bm|
      decreases |bm| - i
    {
      NextByte(bm, i, 8);
      var pop := |ByteBits(bm[i], 8)|;
      if kept + pop > k {
        break;
      }
      kept := kept + pop;
      i := i + 1;
    }
    var bits := LowestBits(bm[i], k - kept);
    out := bm[..i] + [bits] + Zeros(|bm| - i - 1);
    CutBitsOk(bm, out, i, k - kept);
  }

  lemma {:induction false} NoBitsYet(bm: Bits)
    ensures SetBits(bm, 0) == [] && (|SetIndices(bm)| > 0 ==> |bm| > 0)
  {
  }

  lemma {:induction false} CutBitsOk(bm: Bits, out: Bits, i: nat, need: nat)
    requires i < |bm| == |out| && need <= |ByteBits(bm[i], 8)|
    requires out[..i] == bm[..i] && ByteBits(out[i], 8) == ByteBits(bm[i], 8)[..need]
    requires forall j :: i < j < |out| ==> out[j] == 0
    ensures |SetBits(bm, 8 * i)| + need <= |SetIndices(bm)|
    ensures SetIndices(out) == SetIndices(bm)[..|SetBits(bm, 8 * i)| + need]
  {
    hide SetBits, ByteBits, Bit, Shift;
    NextByte(bm, i, 8);
    NextByte(out, i, 8);
    PrefixBits(bm, out, i);
    TailClear(out, i);
    SetBitsPrefix(bm, 8 * i + 8, 8 * |bm|);
    var a, b := SetBits(bm, 8 * i), ByteBits(bm[i], 8);
    ShiftCut(8 * i, b, need);
    CutInside(SetIndices(bm), a, Shift(8 * i, b), need);
  }

  lemma {:induction false} ShiftCut(base: nat, s: seq<nat>, n: nat)
    requires n <= |s|
    ensures Shift(base, s[..n]) == Shift(base, s)[..n]
  {
  }

  lemma {:induction false} PrefixBits(bm: Bits, out: Bits, i: nat)
    requires i <= |bm| && i <= |out| && out[..i] == bm[..i]
    ensures SetBits(out, 8 * i) == SetBits(bm, 8 * i)
  {
    forall j | 0 <= j < 8 * i
      ensures Bit(out, j) <==> Bit(bm, j)
    {
      assert out[j / 8] == out[..i][j / 8] == bm[..i][j / 8] == bm[j / 8];
    }
    SameBits(out, bm, 8 * i);
  }

  lemma {:induction false} TailClear(out: Bits, i: nat)
    requires i < |out| && forall j :: i < j < |out| ==> out[j] == 0
    ensures SetIndices(out) == SetBits(out, 8 * i + 8)
  {
    forall j | 8 * i + 8 <= j < 8 * |out|
      ensures !Bit(out, j)
    {
      assert i < j / 8 < |out|;
      ZeroByte(j % 8);
      hide ByteBit;
    }
    ClearTail(out, 8 * i + 8, 8 * |out|);
  }

  lemma {:induction false} SetBitsPrefix(bm: Bits, n: nat, m: nat)
    requires n <= m
    ensures SetBits(bm, n) <= SetBits(bm, m)
  {
    hide Bit;
    if n < m {
      SetBitsPrefix(bm, n, m - 1);
    }
  }

  /** Sets the bit of every row number. */
  method IndicesToBitmap(indices: seq<nat>, rowCount: nat) returns (bm: Bits)
    requires forall i :: 0 <= i < |indices| ==> indices[i] < rowCount
    ensures Ascending(indices) ==> SetIndices(bm) == indices
    ensures |bm| == BytesFor(rowCount)
  {
    hide Bit, SetBit, SetBits;
    bm := Zeros(BytesFor(rowCount));
    forall j: nat {
      ZerosAt(BytesFor(rowCount), j);
    }
    var k := 0;
    while k < |indices|
      invariant k <= |indices| && |bm| == BytesFor(rowCount)
      invariant forall j: nat :: Bit(bm, j) <==> j in indices[..k]
    {
      var idx := indices[k];
      assert idx / 8 < |bm|;
      forall j: nat {
        SetBitAt(bm, idx, j);
      }
      assert indices[..k + 1] == indices[..k] + [idx];
      bm := SetBit(bm, idx);
      k := k + 1;
    }
    assert indices[..k] == indices;
    if Ascending(indices) {
      BitmapListsMembers(bm, indices, rowCount);
    }
  }

  lemma {:induction false} BitmapListsMembers(bm: Bits, indices: seq<nat>, rowCount: nat)
    requires Ascending(indices) && (forall i :: 0 <= i < |indices| ==> indices[i] < rowCount) && rowCount <= 8 * |bm|
    requires forall j: nat :: Bit(bm, j) <==> j in indices
    ensures SetIndices(bm) == indices
  {
    hide Bit;
    SetBitsAscend(bm, 8 * |bm|);
    forall x
      ensures x in SetIndices(bm) <==> x in indices
    {
      SetBitsMember(bm, 8 * |bm|, x);
    }
    AscendingUnique(SetIndices(bm), indices);
  }

  // ---- runs ----

  /** Joins consecutive numbers into runs. */
  method IndicesToRanges(indices: seq<nat>) returns (out: seq<Runs>)
    ensures RunIndices(out) == indices
  {
    hide Span;
    out := [];
    if indices == [] {
      return;
    }
    var start, len, i := indices[0], 1, 1;
    SpanOne(start);
    NoRuns(out);
    while i < |indices|
      invariant 1 <= i <= |indices| && len >= 1 && indices[i - 1] == start + len - 1
      invariant RunIndices(out) + Span(start, len) == indices[..i]
    {
      assert indices[..i + 1] == indices[..i] + [indices[i]];
      if indices[i] == indices[i - 1] + 1 {
        SpanGrow(start, len);
        Joined(RunIndices(out), Span(start, len), [indices[i]]);
        len := len + 1;
      } else {
        RunsSnoc(out, Run(start, len));
        SpanOne(indices[i]);
        out := out + [Run(start, len)];
        start, len := indices[i], 1;
      }
      i := i + 1;
    }
    RunsSnoc(out, Run(start, len));
    out := out + [Run(start, len)];
    assert indices[..i] == indices;
  }

  lemma {:induction false} NoRuns(rs: seq<Runs>)
    ensures rs == [] ==> RunIndices(rs) == []
  {
  }

  lemma {:induction false} SpanOne(start: nat)
    ensures Span(start, 1) == [start]
  {
  }

  lemma {:induction false} SpanGrow(start: nat, len: nat)
    ensures Span(start, len + 1) == Span(start, len) + [start + len]
  {
  }

  lemma {:induction false} Joined(a: seq<nat>, b: seq<nat>, c: seq<nat>)
    ensures (a + b) + c == a + (b + c)
  {
  }

  lemma {:induction false} RunsSame(a: seq<Runs>, b: seq<Runs>, n: nat)
    requires n <= |a| && n <= |b| && a[..n] == b[..n]
    ensures RunsTo(a, n) == RunsTo(b, n)
  {
    if n > 0 {
      assert a[..n - 1] == a[..n][..n - 1] == b[..n - 1];
      assert a[n - 1] == a[..n][n - 1] == b[n - 1];
      RunsSame(a, b, n - 1);
    }
  }

  lemma {:induction false} RunsSnoc(rs: seq<Runs>, r: Runs)
    ensures RunIndices(rs + [r]) == RunIndices(rs) + Span(r.start, r.len)
  {
    assert (rs + [r])[..|rs|] == rs[..|rs|];
    RunsSame(rs + [r], rs, |rs|);
  }

  /** The row number at position `k`. */
  method RunAt(rs: seq<Runs>, k: nat) returns (idx: nat)
    requires k < |RunIndices(rs)|
    ensures idx == RunIndices(rs)[k]
  {
    var cumulative, i := 0, 0;
    assert RunsTo(rs, 0) == [];
    while true
      invariant i < |rs| && cumulative == |RunsTo(rs, i)| <= k
      decreases |rs| - i
    {
      RunsNext(rs, i);
      if k < cumulative + rs[i].len {
        return rs[i].start + (k - cumulative);
      }
      cumulative := cumulative + rs[i].len;
      i := i + 1;
    }
  }

  lemma {:induction false} RunsNext(rs: seq<Runs>, i: nat)
    requires i < |rs|
    ensures RunsTo(rs, i + 1) == RunsTo(rs, i) + Span(rs[i].start, rs[i].len)
    ensures RunsTo(rs, i + 1) <= RunIndices(rs)
  {
    RunsPrefix(rs, i + 1, |rs|);
  }

  lemma {:induction false} RunsPrefix(rs: seq<Runs>, i: nat, n: nat)
    requires i <= n <= |rs|
    ensures RunsTo(rs, i) <= RunsTo(rs, n)
  {
    if i < n {
      RunsPrefix(rs, i, n - 1);
    }
  }

  method CutRuns(rs: seq<Runs>, k: nat) returns (out: seq<Runs>)
    requires k < |RunIndices(rs)|
    ensures RunIndices(out) == RunIndices(rs)[..k]
  {
    hide Span;
    var cumulative, i := 0, 0;
    assert RunsTo(rs, 0) == [];
    while true
      invariant i < |rs| && cumulative == |RunsTo(rs, i)| <= k
      decreases |rs| - i
    {
      RunsNext(rs, i);
      if cumulative + rs[i].len > k {
        break;
      }
      cumulative := cumulative + rs[i].len;
      i := i + 1;
    }
    var r := Run(rs[i].start, k - cumulative);
    out := rs[..i] + [r];
    RunsSnoc(rs[..i], r);
    RunsSame(rs[..i], rs, i);
    assert rs[..i][..i] == rs[..i];
    SpanCut(rs[i].start, rs[i].len, k - cumulative);
    CutInside(RunIndices(rs), RunsTo(rs, i), Span(rs[i].start, rs[i].len), k - cumulative);
  }

  lemma {:induction false} SpanCut(start: nat, len: nat, n: nat)
    requires n <= len
    ensures Span(start, n) == Span(start, len)[..n] && Span(start + n, len - n) == Span(start, len)[n..]
  {
  }

  lemma {:induction false} CutInside(a: seq<nat>, b: seq<nat>, c: seq<nat>, n: nat)
    requires b + c <= a && n <= |c|
    ensures a[..|b| + n] == b + c[..n]
  {
    assert a[..|b| + n] == a[..|b + c|][..|b| + n] == (b + c)[..|b| + n];
  }

  /** Passes over whole runs and shortens the one in which the prefix ends. */
  method DropRuns(rs: seq<Runs>, n: nat) returns (out: seq<Runs>)
    requires n <= |RunIndices(rs)|
    ensures RunIndices(out) == RunIndices(rs)[n..]
  {
    hide Span, RunsTo;
    var skip, i := n, 0;
    RunsZero(rs);
    while i < |rs| && rs[i].len <= skip
      invariant i <= |rs| && 0 <= skip <= n && n - skip == |RunsTo(rs, i)|
    {
      RunsNext(rs, i);
      skip := skip - rs[i].len;
      i := i + 1;
    }
    if i < |rs| {
      RunsNext(rs, i);
      var r := Run(rs[i].start + skip, rs[i].len - skip);
      out := [r] + rs[i + 1..];
      SpanCut(rs[i].start, rs[i].len, skip);
      TailRuns(rs, i + 1);
      RunsCons(r, rs[i + 1..]);
      DropInside(RunIndices(rs), RunsTo(rs, i), Span(rs[i].start, rs[i].len), RunIndices(rs[i + 1..]), skip);
    } else {
      out := [];
      RunsZero(out);
    }
  }

  lemma {:induction false} RunsZero(rs: seq<Runs>)
    ensures RunsTo(rs, 0) == []
  {
  }

  lemma {:induction false} RunsCons(r: Runs, rs: seq<Runs>)
    ensures RunIndices([r] + rs) == Span(r.start, r.len) + RunIndices(rs)
  {
    hide Span;
    if rs == [] {
      assert [r] + rs == [] + [r];
      RunsSnoc([], r);
    } else {
      var n := |rs| - 1;
      RunsCons(r, rs[..n]);
      assert [r] + rs == ([r] + rs[..n]) + [rs[n]] && rs == rs[..n] + [rs[n]];
      RunsSnoc([r] + rs[..n], rs[n]);
      RunsSnoc(rs[..n], rs[n]);
      Joined(Span(r.start, r.len), RunIndices(rs[..n]), Span(rs[n].start, rs[n].len));
    }
  }

  lemma {:induction false} TailRuns(rs: seq<Runs>, i: nat)
    requires i <= |rs|
    ensures RunIndices(rs) == RunsTo(rs, i) + RunIndices(rs[i..])
    decreases |rs| - i
  {
    hide Span;
    if i == |rs| {
      assert rs[i..] == [];
    } else {
      TailRuns(rs, i + 1);
      RunsNext(rs, i);
      assert rs[i..] == [rs[i]] + rs[i + 1..];
      RunsCons(rs[i], rs[i + 1..]);
      Joined(RunsTo(rs, i), Span(rs[i].start, rs[i].len), RunIndices(rs[i + 1..]));
    }
  }

  lemma {:induction false} DropInside(a: seq<nat>, b: seq<nat>, c: seq<nat>, d: seq<nat>, n: nat)
    requires a == b + c + d && n <= |c|
    ensures a[|b| + n..] == c[n..] + d
  {
  }

  class SelectionVector {
    var repr: Repr
    var rowCount: nat
    var size: nat
    var dense: seq<nat>
    var bitmap: Bits
    var ranges: seq<Runs>

    /** The selected row numbers, in order. */
    ghost function Indices(): seq<nat>
      reads this
    {
      match repr
      case DENSE => dense
      case BITMAP => SetIndices(bitmap)
      case RANGES => RunIndices(ranges)
    }

    ghost predicate Valid()
      reads this
    {
      size == |Indices()|
    }

    constructor FromDense(indices: seq<nat>, rows: nat)
      ensures Valid() && Indices() == indices && rowCount == rows && repr == DENSE
    {
      repr, rowCount, size := DENSE, rows, |indices|;
      dense, bitmap, ranges := indices, [], [];
    }

    constructor FromBitmap(bm: Bits, rows: nat, n: nat)
      requires n == |SetIndices(bm)|
      ensures Valid() && Indices() == SetIndices(bm) && rowCount == rows && repr == BITMAP
    {
      repr, rowCount, size := BITMAP, rows, n;
      dense, bitmap, ranges := [], bm, [];
    }

    constructor FromRanges(rs: seq<Runs>, rows: nat)
      ensures Valid() && Indices() == RunIndices(rs) && rowCount == rows && repr == RANGES
    {
      var total, i := 0, 0;
      RunsZero(rs);
      while i < |rs|
        invariant i <= |rs| && total == |RunsTo(rs, i)|
      {
        total := total + rs[i].len;
        i := i + 1;
      }
      repr, rowCount, size := RANGES, rows, total;
      dense, bitmap, ranges := [], [], rs;
    }

    /** Calls back for every selected row: the row numbers in the order of the calls. */
    method ForEach() returns (out: seq<nat>)
      ensures out == Indices()
    {
      match repr
      case DENSE => out := dense;
      case BITMAP => out := VisitBits(bitmap);
      case RANGES =>
        out := [];
        var i := 0;
        RunsZero(ranges);
        while i < |ranges|
          invariant i <= |ranges| && out == RunsTo(ranges, i)
        {
          out := out + Span(ranges[i].start, ranges[i].len);
          i := i + 1;
        }
    }

    /** The row number at position `k`; bitmaps are not read by position. */
    method At(k: nat) returns (idx: nat)
      requires Valid() && k < size && repr != BITMAP
      ensures idx == Indices()[k]
    {
      if repr == DENSE {
        idx := dense[k];
      } else {
        idx := RunAt(ranges, k);
      }
    }

    /** Keeps the first `k` rows. */
    method Truncate(k: nat)
      requires Valid()
      modifies this
      ensures Valid() && rowCount == old(rowCount)
      ensures Indices() == if k < |old(Indices())| then old(Indices())[..k] else old(Indices())
    {
      if k >= size {
        return;
      }
      match repr {
        case DENSE => dense := dense[..k];
        case BITMAP => bitmap := CutBits(bitmap, k);
        case RANGES => ranges := CutRuns(ranges, k);
      }
      size := k;
    }

    /** Drops the first `n` rows; a bitmap becomes a list. */
    method DropPrefix(n: nat)
      requires Valid() && n <= size
      modifies this
      ensures Valid() && rowCount == old(rowCount) && Indices() == old(Indices())[n..]
    {
      if n == 0 {
        return;
      }
      match repr {
        case DENSE => dense := dense[n..];
        case BITMAP =>
          var all := VisitBits(bitmap);
          bitmap := [];
          repr := DENSE;
          dense := all[n..];
        case RANGES => ranges := DropRuns(ranges, n);
      }
      size := size - n;
    }

    method ToDense() returns (sv: SelectionVector)
      requires Valid()
      ensures fresh(sv) && sv.Valid() && sv.repr == DENSE && sv.Indices() == Indices() && sv.rowCount == rowCount
    {
      var out := ForEach();
      sv := new SelectionVector.FromDense(out, rowCount);
    }
  }

  class Builder {
    var indices: seq<nat>
    var runCount: nat
    var last: nat

    constructor ()
      ensures indices == []
    {
      indices, runCount, last := [], 0, 0;
    }

    method Append(idx: nat)
      modifies this
      ensures indices == old(indices) + [idx]
    {
      if indices == [] || idx != last + 1 {
        runCount := runCount + 1;
      }
      indices := indices + [idx];
      last := idx;
    }

    /** Picks the form by density and run length; the form does not show. */
    method Finalize(rows: nat, orderMatters: bool) returns (sv: SelectionVector)
      requires forall i :: 0 <= i < |indices| ==> indices[i] < rows
      ensures sv.rowCount == rows && fresh(sv)
      ensures orderMatters || Ascending(indices) ==> sv.Valid() && sv.Indices() == indices
    {
      var n := |indices|;
      if orderMatters || n == 0 {
        sv := new SelectionVector.FromDense(indices, rows);
        return;
      }
      assert indices[0] < rows;
      if n as real / rows as real > 0.9 {
        var bm := IndicesToBitmap(indices, rows);
        sv := new SelectionVector.FromDense([], rows);
        sv.repr, sv.size, sv.bitmap := BITMAP, n, bm;
        return;
      }
      if n as real / (if runCount > 1 then runCount else 1) as real > 32.0 {
        var rs := IndicesToRanges(indices);
        if |rs| * 8 < n * 4 {
          sv := new SelectionVector.FromRanges(rs, rows);
          return;
        }
      }
      sv := new SelectionVector.FromDense(indices, rows);
    }
  }
}
