/** A page of one column: header counts, minimum and maximum, NULL bitmap and value slots. */
module ColumnPages {
  import opened Bytes
  import opened Values
  import opened Bitmap

  const PAGE_PAYLOAD_SIZE := 8168
  const COL_PAGE_HEADER_SIZE := 32

  /** The bytes that a value slot takes; 0 for a type that cannot be stored. */
  function TypeSize(t: byte, maxLen: nat): nat {
    if t == INT32 || t == DATE then 4
    else if t == INT64 || t == DOUBLE || t == TIMESTAMP then 8
    else if t == VARCHAR then if maxLen > 0 then maxLen + 2 else 0
    else if t == BOOL then 1
    else 0
  }

  function Quotient(a: nat, d: nat): nat
    requires d > 0
  {
    a / d
  }

  function Times(a: nat, b: nat): nat {
    a * b
  }

  function Remainder(a: nat, d: nat): (r: nat)
    requires d > 0
    ensures r < d
  {
    a % d
  }

  function PageCapacity(t: byte, nullable: bool, maxLen: nat): nat {
    var elem := TypeSize(t, maxLen);
    var budget := PAGE_PAYLOAD_SIZE - COL_PAGE_HEADER_SIZE;
    if elem == 0 then 0 else if nullable then Quotient(budget * 8, elem * 8 + 1) else Quotient(budget, elem)
  }

  /** The header, the NULL bitmap and the slots of `n` values. */
  function PageBytes(t: byte, nullable: bool, maxLen: nat, n: nat): nat {
    COL_PAGE_HEADER_SIZE + (if nullable then BytesFor(n) else 0) + n * TypeSize(t, maxLen)
  }

  /** The capacity is exactly the largest number of values that fits a page. */
  lemma {:induction false} CapacityExact(t: byte, nullable: bool, maxLen: nat, n: nat)
    requires TypeSize(t, maxLen) > 0
    ensures PageBytes(t, nullable, maxLen, n) <= PAGE_PAYLOAD_SIZE <==> n <= PageCapacity(t, nullable, maxLen)
    ensures PageCapacity(t, nullable, maxLen) < TWO_16
  {
    var e, budget := TypeSize(t, maxLen), PAGE_PAYLOAD_SIZE - COL_PAGE_HEADER_SIZE;
    hide TypeSize;
    if nullable {
      SlotsWithBits(e, budget, n);
    } else {
      FloorDiv(budget, e, n);
      QuotientBound(budget, e);
    }
  }

  lemma {:induction false} SlotsWithBits(e: nat, budget: nat, n: nat)
    requires e > 0
    ensures BytesFor(n) + n * e <= budget <==> n <= budget * 8 / (e * 8 + 1)
    ensures budget * 8 / (e * 8 + 1) <= budget
  {
    var p, d := n * e, e * 8 + 1;
    FloorDiv(budget * 8, d, n);
    FloorDiv(budget * 8, d, budget + 1);
    SlotBits(n, e);
    ProductGrows(budget + 1, 8, d);
  }

  lemma {:induction false} SlotBits(n: nat, e: nat)
    ensures n * (e * 8 + 1) == 8 * (n * e) + n
  {
  }

  lemma {:induction false} ProductGrows(a: nat, k: nat, d: nat)
    requires k <= d
    ensures a * k <= a * d
  {
  }

  lemma {:induction false} QuotientBound(a: nat, d: nat)
    requires d > 0
    ensures a / d <= a
  {
    FloorDiv(a, d, a + 1);
    ProductGrows(a + 1, 1, d);
  }

  lemma {:induction false} FloorDiv(a: nat, d: nat, n: nat)
    requires d > 0
    ensures n * d <= a <==> n <= a / d
  {
    var q := a / d;
    assert a == q * d + a % d;
    if n <= q {
      assert n * d <= q * d;
    } else {
      assert (q + 1) * d <= n * d;
      assert (q + 1) * d == q * d + d;
    }
  }

  // ---- what a page holds ----

  datatype PageImage = PageImage(
    typ: byte, nullable: bool, maxLen: nat, capacity: nat,
    count: nat, nullCount: nat, hasNulls: bool, lo: int, hi: int,
    bitmap: Bits, slots: seq<Value>)

  /** Types whose minimum and maximum are kept here, as integers. */
  predicate Ranked(t: byte) {
    t == INT32 || t == INT64 || t == DATE || t == TIMESTAMP
  }

  predicate IsNull(p: PageImage, slot: nat) {
    |p.bitmap| > 0 && slot < p.count && Bit(p.bitmap, slot)
  }

  /** A value that a column of this type takes. */
  predicate Fits(typ: byte, nullable: bool, maxLen: nat, v: Value) {
    if v.Null? then nullable
    else TypeOf(v) == typ && (v.Str? ==> |v.s| <= maxLen)
  }

  /** What a getter finds in a slot; NULL if it is past the end. */
  function SlotValue(p: PageImage, slot: nat): Value {
    if slot >= p.count || slot >= |p.slots| || IsNull(p, slot) then Null else p.slots[slot]
  }

  function Contents(p: PageImage): (s: seq<Value>)
    ensures |s| == p.count
    ensures forall i :: 0 <= i < p.count ==> s[i] == SlotValue(p, i)
  {
    seq(p.count, i requires 0 <= i < p.count => SlotValue(p, i))
  }

  function NullsIn(s: seq<Value>): (n: nat)
    ensures n <= |s|
  {
    if s == [] then 0 else NullsIn(s[..|s| - 1]) + if s[|s| - 1].Null? then 1 else 0
  }

  ghost predicate Shaped(p: PageImage) {
    && 1 <= p.capacity && p.count <= p.capacity == |p.slots|
    && |p.bitmap| == if p.nullable then BytesFor(p.capacity) else 0
  }

  /** Every value that is not NULL lies between the recorded minimum and maximum. */
  ghost predicate Bounded(p: PageImage) {
    Ranked(p.typ) ==> forall i :: 0 <= i < p.count ==> InBounds(Contents(p)[i], p.lo, p.hi)
  }

  /** The bounds are just wide enough for `v` too; those of a page without values are `v` alone. */
  ghost predicate Widened(p: PageImage, q: PageImage, v: int) {
    if p.count == p.nullCount then q.lo == v == q.hi
    else q.lo == (if v < p.lo then v else p.lo) && q.hi == (if v > p.hi then v else p.hi)
  }

  predicate InBounds(v: Value, lo: int, hi: int) {
    (v.Int32? || v.Int64? || v.Date? || v.Timestamp?) ==> lo <= v.n <= hi
  }

  ghost predicate PageOk(p: PageImage) {
    && Shaped(p)
    && p.nullCount == NullsIn(Contents(p))
    && (p.hasNulls <==> p.nullCount > 0)
    && (forall i :: 0 <= i < p.count ==> Fits(p.typ, p.nullable, p.maxLen, Contents(p)[i]))
    && (forall i :: 0 <= i < p.count ==> (IsNull(p, i) <==> Contents(p)[i].Null?))
    && Bounded(p)
  }

  function EmptyPage(typ: byte, nullable: bool, maxLen: nat, capacity: nat): (p: PageImage)
    ensures capacity >= 1 ==> PageOk(p) && Contents(p) == []
  {
    PageImage(typ, nullable, maxLen, capacity, 0, 0, false, 0, 0,
              if nullable then Zeros(BytesFor(capacity)) else [], seq(capacity, _ => Null))
  }

  lemma {:induction false} AllNull(s: seq<Value>, i: nat)
    requires NullsIn(s) == |s| && i < |s|
    ensures s[i].Null?
  {
    if i < |s| - 1 {
      AllNull(s[..|s| - 1], i);
    }
  }

  lemma {:induction false} NullsSnoc(s: seq<Value>, v: Value)
    ensures NullsIn(s + [v]) == NullsIn(s) + if v.Null? then 1 else 0
  {
    assert (s + [v])[..|s|] == s;
  }

  /** A page with one more value in its next slot. */
  function WithValue(p: PageImage, v: Value): PageImage
    requires p.count < |p.slots| && (|p.bitmap| > 0 ==> p.count / 8 < |p.bitmap|)
  {
    p.(slots := p.slots[p.count := v],
       bitmap := if |p.bitmap| > 0 then ClearBit(p.bitmap, p.count) else [],
       count := p.count + 1)
  }

  function WithNull(p: PageImage): PageImage
    requires p.count / 8 < |p.bitmap|
  {
    p.(bitmap := SetBit(p.bitmap, p.count), nullCount := p.nullCount + 1, hasNulls := true, count := p.count + 1)
  }

  lemma {:induction false} ValueAdded(p: PageImage, v: Value)
    requires Shaped(p) && p.count < p.capacity && !v.Null?
    ensures p.nullable ==> p.count / 8 < |p.bitmap|
    ensures Shaped(WithValue(p, v)) && Contents(WithValue(p, v)) == Contents(p) + [v]
    ensures forall i :: 0 <= i <= p.count ==> (IsNull(WithValue(p, v), i) <==> IsNull(p, i))
  {
    var q := WithValue(p, v);
    forall i | 0 <= i < q.count
      ensures Contents(q)[i] == (Contents(p) + [v])[i]
      ensures IsNull(q, i) <==> IsNull(p, i)
    {
      if |p.bitmap| > 0 {
        ClearBitAt(p.bitmap, p.count, i);
      }
    }
  }

  lemma {:induction false} NullAdded(p: PageImage)
    requires Shaped(p) && p.count < p.capacity && p.nullable
    ensures p.count / 8 < |p.bitmap|
    ensures Shaped(WithNull(p)) && Contents(WithNull(p)) == Contents(p) + [Null]
    ensures forall i :: 0 <= i < p.count ==> (IsNull(WithNull(p), i) <==> IsNull(p, i))
    ensures IsNull(WithNull(p), p.count)
  {
    var q := WithNull(p);
    forall i | 0 <= i < q.count
      ensures Contents(q)[i] == (Contents(p) + [Null])[i]
      ensures IsNull(q, i) <==> i == p.count || IsNull(p, i)
    {
      SetBitAt(p.bitmap, p.count, i);
    }
  }

  /** A page that has grown by one acceptable value is in order. */
  lemma {:induction false} GrownOk(p: PageImage, q: PageImage, v: Value)
    requires PageOk(p) && Shaped(q) && SameColumn(p, q) && q.lo == p.lo && q.hi == p.hi
    requires q.count == p.count + 1 && Contents(q) == Contents(p) + [v]
    requires q.nullCount == p.nullCount + (if v.Null? then 1 else 0) && (q.hasNulls <==> p.hasNulls || v.Null?)
    requires Fits(p.typ, p.nullable, p.maxLen, v) && InBounds(v, p.lo, p.hi)
    requires forall i :: 0 <= i < p.count ==> (IsNull(q, i) <==> IsNull(p, i))
    requires IsNull(q, p.count) <==> v.Null?
    ensures PageOk(q)
  {
    NullsSnoc(Contents(p), v);
    hide Contents, NullsIn, IsNull, BytesFor, Fits, InBounds, Ranked;
    forall i | 0 <= i < q.count
      ensures Fits(q.typ, q.nullable, q.maxLen, Contents(q)[i])
      ensures IsNull(q, i) <==> Contents(q)[i].Null?
      ensures Ranked(p.typ) ==> InBounds(Contents(q)[i], q.lo, q.hi)
    {
      if i < p.count {
        assert Contents(q)[i] == Contents(p)[i];
      }
    }
  }

  lemma {:induction false} ValueOk(p: PageImage, v: Value)
    requires PageOk(p) && p.count < p.capacity && !v.Null? && Fits(p.typ, p.nullable, p.maxLen, v)
    requires InBounds(v, p.lo, p.hi)
    ensures |p.bitmap| > 0 ==> p.count / 8 < |p.bitmap|
    ensures PageOk(WithValue(p, v)) && Contents(WithValue(p, v)) == Contents(p) + [v]
  {
    ValueAdded(p, v);
    hide Contents, NullsIn, Bit, ClearBit, PageOk, Bounded;
    GrownOk(p, WithValue(p, v), v);
  }

  lemma {:induction false} NullOk(p: PageImage)
    requires PageOk(p) && p.count < p.capacity && p.nullable
    ensures p.count / 8 < |p.bitmap|
    ensures PageOk(WithNull(p)) && Contents(WithNull(p)) == Contents(p) + [Null]
  {
    NullAdded(p);
    hide Contents, NullsIn, Bit, SetBit, PageOk, Bounded;
    GrownOk(p, WithNull(p), Null);
  }

  /** The first `n` values of a page, with their NULLs counted. */
  lemma {:induction false} CutOk(p: PageImage, n: nat, nc: nat)
    requires PageOk(p) && n < p.count && nc == NullsIn(Contents(p)[..n])
    ensures var q := p.(count := n, nullCount := nc, hasNulls := nc > 0 && p.hasNulls);
            PageOk(q) && Contents(q) == Contents(p)[..n]
  {
    var q := p.(count := n, nullCount := nc, hasNulls := nc > 0 && p.hasNulls);
    assert Contents(q) == Contents(p)[..n];
    NullsPrefix(Contents(p), n);
    hide Contents, NullsIn;
    assert forall i :: 0 <= i < n ==> Contents(q)[i] == Contents(p)[i];
  }

  class ColumnPage {
    var img: PageImage

    constructor (typ: byte, nullable: bool, maxLen: nat)
      requires PageCapacity(typ, nullable, maxLen) >= 1
      ensures PageOk(img) && Contents(img) == []
      ensures img.typ == typ && img.nullable == nullable && img.maxLen == maxLen
      ensures img.capacity == PageCapacity(typ, nullable, maxLen)
    {
      img := EmptyPage(typ, nullable, maxLen, PageCapacity(typ, nullable, maxLen));
    }

    /** Clears the page for reuse. */
    method Init(typ: byte, nullable: bool, maxLen: nat)
      requires PageCapacity(typ, nullable, maxLen) >= 1
      modifies this
      ensures img == EmptyPage(typ, nullable, maxLen, PageCapacity(typ, nullable, maxLen))
      ensures PageOk(img)
    {
      img := EmptyPage(typ, nullable, maxLen, PageCapacity(typ, nullable, maxLen));
    }

    /** Widens the recorded bounds, or starts them at the first value. */
    method UpdateMinMax(v: int)
      requires PageOk(img)
      modifies this
      ensures img == old(img).(lo := img.lo, hi := img.hi)
      ensures PageOk(img) && img.lo <= v <= img.hi && Contents(img) == Contents(old(img))
      ensures Widened(old(img), img, v)
    {
      ghost var was := Contents(img);
      if img.count - img.nullCount == 0 {
        forall i | 0 <= i < img.count
          ensures was[i].Null?
        {
          AllNull(was, i);
        }
        img := img.(lo := v, hi := v);
      } else {
        if v < img.lo {
          img := img.(lo := v);
        }
        if img.hi < v {
          img := img.(hi := v);
        }
      }
      assert Contents(img) == was;
    }

    /** Appends a value that is not NULL. */
    method AppendTyped(v: Value) returns (ok: bool)
      requires PageOk(img) && !v.Null?
      modifies this
      ensures ok <==> Fits(img.typ, img.nullable, img.maxLen, v) && old(img).count < old(img).capacity
      ensures ok ==> PageOk(img) && Contents(img) == Contents(old(img)) + [v] && SameColumn(old(img), img)
      ensures ok && (v.Int32? || v.Int64? || v.Date? || v.Timestamp?) ==> Widened(old(img), img, v.n)
      ensures !ok ==> img == old(img)
    {
      if TypeOf(v) != img.typ || (v.Str? && |v.s| > img.maxLen) || img.count >= img.capacity {
        return false;
      }
      ghost var was := Contents(img);
      if v.Int32? || v.Int64? || v.Date? || v.Timestamp? {
        UpdateMinMax(v.n);
      }
      ValueOk(img, v);
      img := WithValue(img, v);
      ok := true;
    }

    method AppendNull() returns (ok: bool)
      requires PageOk(img)
      modifies this
      ensures ok <==> old(img).nullable && old(img).count < old(img).capacity
      ensures ok ==> PageOk(img) && Contents(img) == Contents(old(img)) + [Null] && SameColumn(old(img), img)
      ensures !ok ==> img == old(img)
    {
      if |img.bitmap| == 0 || img.count >= img.capacity {
        return false;
      }
      NullOk(img);
      img := WithNull(img);
      ok := true;
    }

    /** Keeps the first `n` values, counting their NULLs again. */
    method TruncateTo(n: nat)
      requires PageOk(img)
      modifies this
      ensures PageOk(img) && SameColumn(old(img), img)
      ensures Contents(img) == if n < old(img).count then Contents(old(img))[..n] else Contents(old(img))
    {
      if n >= img.count {
        return;
      }
      ghost var p := img;
      if img.nullable {
        var nc := CountNulls(n);
        CutOk(p, n, nc);
        img := img.(nullCount := nc);
        if nc == 0 {
          img := img.(hasNulls := false);
        }
      } else {
        NoNulls(Contents(p));
        NoNulls(Contents(p)[..n]);
        CutOk(p, n, 0);
      }
      img := img.(count := n);
      assert img == p.(count := n, nullCount := img.nullCount, hasNulls := img.nullCount > 0 && p.hasNulls);
    }

    method CountNulls(n: nat) returns (nc: nat)
      requires PageOk(img) && n < img.count && img.nullable
      ensures nc == NullsIn(Contents(img)[..n])
    {
      hide Bit;
      ghost var was := Contents(img);
      nc := 0;
      var i := 0;
      while i < n
        invariant i <= n && nc == NullsIn(was[..i])
      {
        NullsSnoc(was[..i], was[i]);
        assert was[..i + 1] == was[..i] + [was[i]];
        if Bit(img.bitmap, i) {
          nc := nc + 1;
        }
        i := i + 1;
      }
    }

    /** The value in a slot; none if the slot is out of range or NULL. */
    method Get(slot: nat) returns (v: Value)
      requires PageOk(img)
      ensures v == if slot < img.count then Contents(img)[slot] else Null
    {
      v := SlotValue(img, slot);
    }
  }

  /** Nothing about the column itself has changed. */
  predicate SameColumn(a: PageImage, b: PageImage) {
    a.typ == b.typ && a.nullable == b.nullable && a.maxLen == b.maxLen && a.capacity == b.capacity
  }

  lemma {:induction false} NullsPrefix(s: seq<Value>, n: nat)
    requires n <= |s|
    ensures NullsIn(s[..n]) <= NullsIn(s)
  {
    if n < |s| {
      NullsPrefix(s[..|s| - 1], n);
      assert s[..|s| - 1][..n] == s[..n];
    } else {
      assert s[..n] == s;
    }
  }

  lemma {:induction false} NoNulls(s: seq<Value>)
    requires forall i :: 0 <= i < |s| ==> !s[i].Null?
    ensures NullsIn(s) == 0
  {
    if s != [] {
      NoNulls(s[..|s| - 1]);
    }
  }
}
