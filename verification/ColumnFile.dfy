/** A column stored as a file of pages, the last of which is kept in memory. */
module ColumnFiles {
  import opened Options
  import opened Bytes
  import opened Values
  import opened ColumnPages

  /** The kind of column that a file stores. */
  datatype Kind = Kind(typ: byte, nullable: bool, maxLen: nat)

  function CapacityOf(k: Kind): nat {
    PageCapacity(k.typ, k.nullable, k.maxLen)
  }

  /** A value that a column of this kind takes; one whose values do not fit a page takes none. */
  predicate Accepts(k: Kind, v: Value) {
    CapacityOf(k) >= 1 && Fits(k.typ, k.nullable, k.maxLen, v)
  }

  /** A page of a column of this kind. */
  ghost predicate PageOf(k: Kind, p: PageImage) {
    && PageOk(p) && p.typ == k.typ && p.nullable == k.nullable && p.maxLen == k.maxLen
    && p.capacity == CapacityOf(k)
  }

  ghost predicate FullPage(k: Kind, p: PageImage) {
    PageOf(k, p) && p.count == p.capacity
  }

  /** The first `n` pages of the disk are full. */
  ghost predicate FullPages(k: Kind, disk: seq<Option<PageImage>>, n: nat) {
    n <= |disk| && forall i :: 0 <= i < n ==> disk[i].Some? && FullPage(k, disk[i].value)
  }

  ghost function PageRows(disk: seq<Option<PageImage>>, i: nat): seq<Value> {
    if i < |disk| && disk[i].Some? then Contents(disk[i].value) else []
  }

  /** The values on the first `n` pages of the disk. */
  ghost function Stored(disk: seq<Option<PageImage>>, n: nat): seq<Value> {
    if n == 0 then [] else Stored(disk, n - 1) + PageRows(disk, n - 1)
  }

  /** Each of the first `n` pages holds `cap` values. */
  ghost predicate Filled(disk: seq<Option<PageImage>>, n: nat, cap: nat) {
    forall i :: 0 <= i < n ==> |PageRows(disk, i)| == cap
  }

  lemma {:induction false} FullIsFilled(k: Kind, disk: seq<Option<PageImage>>, n: nat)
    requires FullPages(k, disk, n)
    ensures Filled(disk, n, CapacityOf(k))
  {
  }

  lemma {:induction false} StoredLength(disk: seq<Option<PageImage>>, n: nat, cap: nat)
    requires Filled(disk, n, cap)
    ensures |Stored(disk, n)| == Times(n, cap)
  {
    assert Times(0, cap) == 0;
    hide Times, PageRows, Contents;
    if n > 0 {
      StoredLength(disk, n - 1, cap);
      NextMultiple(n, cap);
    }
  }

  lemma {:induction false} NextMultiple(n: nat, c: nat)
    requires n > 0
    ensures Times(n, c) == Times(n - 1, c) + c
  {
  }

  /** Row `i` is in slot `i % capacity` of page `i / capacity`. */
  lemma {:induction false} StoredAt(disk: seq<Option<PageImage>>, n: nat, cap: nat, num: nat, slot: nat)
    requires Filled(disk, n, cap) && num < n && slot < cap
    ensures Times(num, cap) + slot < |Stored(disk, n)|
    ensures Stored(disk, n)[Times(num, cap) + slot] == PageRows(disk, num)[slot]
  {
    hide Times, PageRows, Contents;
    StoredLength(disk, n, cap);
    StoredLength(disk, n - 1, cap);
    NextMultiple(n, cap);
    if num < n - 1 {
      StoredAt(disk, n - 1, cap, num, slot);
    }
  }

  lemma {:induction false} StoredPrefix(disk: seq<Option<PageImage>>, n: nat, m: nat)
    requires m <= n
    ensures |Stored(disk, m)| <= |Stored(disk, n)|
    ensures Stored(disk, m) == Stored(disk, n)[..|Stored(disk, m)|]
  {
    hide PageRows;
    if m < n {
      StoredPrefix(disk, n - 1, m);
      var a, b, c := Stored(disk, n - 1), PageRows(disk, n - 1), |Stored(disk, m)|;
      assert (a + b)[..c] == a[..c];
    } else {
      assert Stored(disk, n)[..|Stored(disk, n)|] == Stored(disk, n);
    }
  }

  lemma {:induction false} StoredSame(d: seq<Option<PageImage>>, e: seq<Option<PageImage>>, n: nat)
    requires n <= |d| && n <= |e| && d[..n] == e[..n]
    ensures Stored(e, n) == Stored(d, n)
  {
    if n > 0 {
      assert d[..n - 1] == d[..n][..n - 1] == e[..n - 1];
      assert d[n - 1] == d[..n][n - 1] == e[n - 1];
      StoredSame(d, e, n - 1);
    }
  }

  /** The position, from `i` on, of the first value that the column does not take. */
  function FirstRefused(k: Kind, vs: seq<Value>, i: nat): (r: nat)
    requires i <= |vs|
    ensures i <= r <= |vs|
    ensures forall j :: i <= j < r ==> Accepts(k, vs[j])
    ensures r < |vs| ==> !Accepts(k, vs[r])
    decreases |vs| - i
  {
    if i < |vs| && Accepts(k, vs[i]) then FirstRefused(k, vs, i + 1) else i
  }

  lemma {:induction false} DivMod(a: nat, c: nat)
    requires c > 0
    ensures a == Times(Quotient(a, c), c) + Remainder(a, c)
  {
  }

  lemma {:induction false} MultipleOrder(a: nat, b: nat, c: nat)
    requires a < b
    ensures Times(a, c) + c <= Times(b, c)
  {
    assert (a + 1) * c <= b * c;
    assert (a + 1) * c == a * c + c;
  }

  /** Where a row is. */
  lemma {:induction false} RowPlace(k: Kind, disk: seq<Option<PageImage>>, last: PageImage, n: nat, row: nat)
    requires CapacityOf(k) >= 1 && FullPages(k, disk, n) && PageOf(k, last)
    ensures var q, s, rows := Quotient(row, CapacityOf(k)), Remainder(row, CapacityOf(k)), Stored(disk, n) + Contents(last);
            && (q < n ==> row < |rows| && rows[row] == SlotValue(disk[q].value, s))
            && (q == n ==> (row < |rows| <==> s < last.count) && (row < |rows| ==> rows[row] == SlotValue(last, s)))
            && (q > n ==> row >= |rows|)
  {
    var c := CapacityOf(k);
    var q, s := Quotient(row, c), Remainder(row, c);
    DivMod(row, c);
    hide Times, Quotient, Remainder, CapacityOf, Stored;
    FullIsFilled(k, disk, n);
    StoredLength(disk, n, c);
    if q < n {
      StoredAt(disk, n, c, q, s);
      hide Stored;
    } else if q > n {
      MultipleOrder(n, q, c);
    }
  }

  class ColumnFile {
    const kind: Kind
    const page: ColumnPage
    var disk: seq<Option<PageImage>>
    var currentId: nat
    var dirty: bool

    ghost predicate Valid()
      reads this, page
    {
      && CapacityOf(kind) >= 1
      && |disk| == currentId + 1
      && FullPages(kind, disk, currentId)
      && PageOf(kind, page.img)
      && (!dirty ==> disk[currentId] == Some(page.img))
    }

    /** The rows of the column. */
    ghost function Rows(): seq<Value>
      requires Valid()
      reads this, page
    {
      Stored(disk, currentId) + Contents(page.img)
    }

    constructor Create(k: Kind)
      requires CapacityOf(k) >= 1
      ensures Valid() && kind == k && Rows() == [] && fresh(page) && !dirty
    {
      kind := k;
      var p := new ColumnPage(k.typ, k.nullable, k.maxLen);
      page := p;
      disk, currentId, dirty := [Some(p.img)], 0, false;
    }

    /** Opens a file: the last page on the disk becomes the current one. */
    constructor Open(k: Kind, onDisk: seq<Option<PageImage>>)
      requires CapacityOf(k) >= 1 && onDisk != []
      requires FullPages(k, onDisk, |onDisk| - 1)
      requires onDisk[|onDisk| - 1].Some? && PageOf(k, onDisk[|onDisk| - 1].value)
      ensures Valid() && kind == k && !dirty && disk == onDisk && fresh(page)
      ensures Rows() == Stored(onDisk, |onDisk| - 1) + Contents(onDisk[|onDisk| - 1].value)
    {
      kind := k;
      var p := new ColumnPage(k.typ, k.nullable, k.maxLen);
      page := p;
      disk, currentId, dirty := onDisk, |onDisk| - 1, false;
      new;
      p.img := onDisk[|onDisk| - 1].value;
    }

    method RowCount() returns (n: nat)
      requires Valid()
      ensures n == |Rows()|
    {
      FullIsFilled(kind, disk, currentId);
      StoredLength(disk, currentId, CapacityOf(kind));
      n := Times(currentId, CapacityOf(kind)) + page.img.count;
    }

    /** Writes the full page out and starts the next one. */
    method RotatePage()
      requires Valid() && page.img.count == page.img.capacity
      modifies this`disk, this`currentId, this`dirty, page
      ensures Valid() && Rows() == old(Rows()) && page.img.count == 0
    {
      hide Contents, Stored, PageCapacity, Bounded, NullsIn, IsNull;
      ghost var d, n := disk, currentId;
      if dirty {
        disk := disk[currentId := Some(page.img)];
        dirty := false;
      }
      StoredSame(d, disk, n);
      ghost var e := disk;
      currentId := |disk|;
      disk := disk + [None];
      assert FullPages(kind, disk, currentId);
      StoredSame(e, disk, n);
      NextPage(disk, n);
      page.Init(kind.typ, kind.nullable, kind.maxLen);
      dirty := true;
    }

    method EnsureRoom()
      requires Valid()
      modifies this`disk, this`currentId, this`dirty, page
      ensures Valid() && Rows() == old(Rows()) && page.img.count < page.img.capacity
    {
      if page.img.count >= page.img.capacity {
        RotatePage();
      }
    }

    /** Appends one value. */
    method Append(v: Value) returns (ok: bool)
      requires Valid()
      modifies this`disk, this`currentId, this`dirty, page
      ensures Valid() && (ok <==> Accepts(kind, v))
      ensures Rows() == if ok then old(Rows()) + [v] else old(Rows())
    {
      hide Contents, Stored, FullPages, CapacityOf, Bounded, NullsIn, IsNull;
      EnsureRoom();
      Joined(Stored(disk, currentId), Contents(page.img), [v]);
      if v.Null? {
        ok := page.AppendNull();
      } else {
        ok := page.AppendTyped(v);
      }
      if ok {
        dirty := true;
      }
    }

    /** Appends values up to the first one that the column does not take. */
    method AppendBulk(values: seq<Value>) returns (ok: bool)
      requires Valid()
      modifies this`disk, this`currentId, this`dirty, page
      ensures Valid() && Rows() == old(Rows()) + values[..FirstRefused(kind, values, 0)]
      ensures ok <==> forall i :: 0 <= i < |values| ==> Accepts(kind, values[i])
    {
      hide FullPages, PageOf, Stored, Contents, CapacityOf, Accepts;
      ghost var start := Rows();
      var i := 0;
      while i < |values|
        invariant i <= |values| && Valid()
        invariant Rows() == start + values[..i]
        invariant FirstRefused(kind, values, 0) == FirstRefused(kind, values, i)
      {
        Joined(start, values[..i], [values[i]]);
        assert values[..i + 1] == values[..i] + [values[i]];
        ok := Append(values[i]);
        if !ok {
          return;
        }
        i := i + 1;
      }
      ok := true;
    }

    /** The image of a page: the current one from memory, the others from the disk. */
    method ReadPage(id: nat) returns (p: Option<PageImage>)
      requires Valid()
      ensures p.Some? <==> id <= currentId
      ensures p.Some? ==> PageOf(kind, p.value) && p == PageAt(id)
    {
      if id == currentId {
        return Some(page.img);
      }
      if id >= |disk| {
        return None;
      }
      return disk[id];
    }

    ghost function PageAt(id: nat): Option<PageImage>
      requires Valid()
      reads this, page
    {
      if id == currentId then Some(page.img) else if id < currentId then disk[id] else None
    }

    /** The value of a row; none if there is no such row or it is NULL. */
    method Get(row: nat) returns (v: Option<Value>)
      requires Valid()
      ensures v == if row < |Rows()| && !Rows()[row].Null? then Some(Rows()[row]) else None
    {
      var cap := CapacityOf(kind);
      var num, slot := Quotient(row, cap), Remainder(row, cap);
      RowPlace(kind, disk, page.img, currentId, row);
      hide Contents, Stored, FullPages, CapacityOf, Bounded, NullsIn, IsNull;
      var p := ReadPage(num);
      if p.None? {
        return None;
      }
      var value := SlotValue(p.value, slot);
      v := if value.Null? then None else Some(value);
    }

    /** Drops all rows after the first `target` of a flushed file. */
    method Truncate(target: nat)
      requires Valid() && !dirty && target <= |Rows()|
      modifies this`disk, this`currentId, this`dirty, page
      ensures Valid() && !dirty && Rows() == old(Rows())[..target]
    {
      hide CapacityOf, PagesToKeep, ValuesToKeep, Contents, Stored;
      var keep, needed := PagesToKeep(target, CapacityOf(kind)), ValuesToKeep(target, CapacityOf(kind));
      FullIsFilled(kind, disk, currentId);
      assert PageRows(disk, currentId) == Contents(page.img);
      NextPage(disk, currentId);
      CutPlace(disk, currentId, CapacityOf(kind), target);
      hide Stored, Contents, CapacityOf, PagesToKeep, ValuesToKeep, PageOk, PageRows;
      KeepPages(keep);
      CutPage(needed);
      dirty := false;
    }

    method KeepPages(keep: nat)
      requires Valid() && !dirty && 1 <= keep <= |disk|
      modifies this`disk, this`currentId, page
      ensures Valid() && !dirty && currentId == keep - 1
      ensures Contents(page.img) == PageRows(old(disk), keep - 1)
      ensures Stored(disk, keep - 1) == Stored(old(disk), keep - 1)
    {
      hide Stored, Contents, CapacityOf, PageOk;
      ghost var d := disk;
      disk := disk[..keep];
      page.img := disk[keep - 1].value;
      currentId := keep - 1;
      FewerFull(kind, d, keep);
      StoredSame(d, disk, keep - 1);
    }

    method CutPage(needed: nat)
      requires Valid() && !dirty && needed <= page.img.count
      modifies this`disk, page
      ensures Valid() && !dirty
      ensures Stored(disk, currentId) == old(Stored(disk, currentId))
      ensures Contents(page.img) == old(Contents(page.img))[..needed]
    {
      hide Stored, CapacityOf, Contents, NullsIn, Bounded;
      ghost var d, whole := disk, Contents(page.img);
      assert whole[..|whole|] == whole;
      if page.img.count != needed {
        page.TruncateTo(needed);
        disk := disk[currentId := Some(page.img)];
      }
      StoredSame(d, disk, currentId);
    }

    method Flush()
      requires Valid()
      modifies this`disk, this`dirty
      ensures Valid() && !dirty && Rows() == old(Rows())
    {
      if !dirty {
        return;
      }
      ghost var d := disk;
      disk := disk[currentId := Some(page.img)];
      StoredSame(d, disk, currentId);
      dirty := false;
    }
  }

  /** The pages to keep for `target` rows, and the values to keep on the last of them. */
  function PagesToKeep(target: nat, cap: nat): (n: nat)
    requires cap > 0
    ensures n >= 1
  {
    var full := Quotient(target, cap);
    if Remainder(target, cap) == 0 && target > 0 then (if full > 1 then full else 1) else full + 1
  }

  function ValuesToKeep(target: nat, cap: nat): nat
    requires cap > 0
  {
    if Remainder(target, cap) == 0 && target > 0 then cap else Remainder(target, cap)
  }

  /** A cut at `target` rows keeps the rows before it. */
  lemma {:induction false} CutPlace(disk: seq<Option<PageImage>>, n: nat, cap: nat, target: nat)
    requires cap > 0 && Filled(disk, n, cap) && |PageRows(disk, n)| <= cap && target <= |Stored(disk, n + 1)|
    ensures var keep, needed := PagesToKeep(target, cap), ValuesToKeep(target, cap);
            && keep <= n + 1 && needed <= |PageRows(disk, keep - 1)|
            && Stored(disk, n + 1)[..target] == Stored(disk, keep - 1) + PageRows(disk, keep - 1)[..needed]
  {
    hide Quotient, Remainder, Times, Stored, PageRows, Contents;
    var keep, needed := PagesToKeep(target, cap), ValuesToKeep(target, cap);
    if Remainder(target, cap) == 0 && target > 0 {
      WholeCut(disk, n, cap, target);
    } else {
      PartCut(disk, n, cap, target);
    }
    hide PagesToKeep, ValuesToKeep, Stored, PageRows, Filled;
    NextPage(disk, keep - 1);
    StoredPrefix(disk, n + 1, keep);
    PrefixOfPrefix(Stored(disk, n + 1), Stored(disk, keep - 1), PageRows(disk, keep - 1), needed);
  }

  lemma {:induction false} NextPage(disk: seq<Option<PageImage>>, n: nat)
    ensures Stored(disk, n + 1) == Stored(disk, n) + PageRows(disk, n)
  {
  }

  /** Which page `full` whole pages end on, of `n` full pages and one with `len` values. */
  lemma {:induction false} WholeBound(n: nat, full: nat, cap: nat, len: nat)
    requires 0 < cap && len <= cap && 0 < Times(full, cap) <= Times(n, cap) + len
    ensures 1 <= full <= n + 1 && (full == n + 1 ==> len == cap)
  {
    assert full == 0 ==> Times(full, cap) == 0;
    hide Times;
    NextMultiple(n + 1, cap);
    if n + 1 < full {
      MultipleOrder(n + 1, full, cap);
    }
  }

  lemma {:induction false} PartBound(n: nat, full: nat, rest: nat, cap: nat, len: nat)
    requires len <= cap && rest < cap && Times(full, cap) + rest <= Times(n, cap) + len && (rest > 0 || full == 0)
    ensures full <= n && (full == n ==> rest <= len)
  {
    hide Times;
    if n < full {
      MultipleOrder(n, full, cap);
    }
  }

  /** A cut at the end of a page. */
  lemma {:induction false} WholeCut(disk: seq<Option<PageImage>>, n: nat, cap: nat, target: nat)
    requires cap > 0 && Filled(disk, n, cap) && |PageRows(disk, n)| <= cap && target <= |Stored(disk, n + 1)|
    requires Remainder(target, cap) == 0 && target > 0
    ensures var keep, needed := PagesToKeep(target, cap), ValuesToKeep(target, cap);
            && keep <= n + 1 && needed == |PageRows(disk, keep - 1)|
            && |Stored(disk, keep - 1)| + needed == target
  {
    var full := Quotient(target, cap);
    DivMod(target, cap);
    hide Quotient, Remainder, Times, Stored, PageRows, Contents;
    StoredLength(disk, n, cap);
    NextPage(disk, n);
    WholeBound(n, full, cap, |PageRows(disk, n)|);
    StoredLength(disk, full - 1, cap);
    NextMultiple(full, cap);
  }

  lemma {:induction false} ZeroPages(cap: nat)
    requires cap > 0
    ensures Quotient(0, cap) == 0
  {
  }

  /** A cut inside a page. */
  lemma {:induction false} PartCut(disk: seq<Option<PageImage>>, n: nat, cap: nat, target: nat)
    requires cap > 0 && Filled(disk, n, cap) && |PageRows(disk, n)| <= cap && target <= |Stored(disk, n + 1)|
    requires Remainder(target, cap) != 0 || target == 0
    ensures var keep, needed := PagesToKeep(target, cap), ValuesToKeep(target, cap);
            && keep <= n + 1 && needed <= |PageRows(disk, keep - 1)|
            && |Stored(disk, keep - 1)| + needed == target
  {
    var full, rest := Quotient(target, cap), Remainder(target, cap);
    DivMod(target, cap);
    ZeroPages(cap);
    hide Quotient, Remainder, Times, Stored, PageRows, Contents;
    StoredLength(disk, n, cap);
    NextPage(disk, n);
    PartBound(n, full, rest, cap, |PageRows(disk, n)|);
    StoredLength(disk, full, cap);
  }

  /** If `b + c` starts `a`, a cut inside `c` cuts `a` there. */
  lemma {:induction false} PrefixOfPrefix(a: seq<Value>, b: seq<Value>, c: seq<Value>, r: nat)
    requires |b + c| <= |a| && a[..|b + c|] == b + c && r <= |c|
    ensures a[..|b| + r] == b + c[..r]
  {
    assert a[..|b| + r] == a[..|b + c|][..|b| + r] == (b + c)[..|b| + r];
  }

  lemma {:induction false} FewerFull(k: Kind, d: seq<Option<PageImage>>, keep: nat)
    requires 1 <= keep <= |d| && FullPages(k, d, |d| - 1)
    ensures FullPages(k, d, keep - 1) && FullPages(k, d[..keep], keep - 1)
  {
  }

  lemma {:induction false} Joined(a: seq<Value>, b: seq<Value>, c: seq<Value>)
    ensures (a + b) + c == a + (b + c)
  {
  }
}
