/** Range partitions: which one a value belongs to, and which ones a predicate can reach. */
module Pruning {
  import opened Bytes
  import opened Values
  import K = IndexKeys

  /** A partition holds the values below its upper bound that no earlier partition holds. */
  datatype Partition = Partition(isMax: bool, upper: Value)

  datatype Op = EQ | NE | LT | LE | GT | GE | OTHER

  const TWO_63 := 0x8000_0000_0000_0000
  const INFINITY := 0x7FF0_0000_0000_0000

  predicate IsNaN(bits: nat) {
    bits % TWO_63 > INFINITY
  }

  /** Orders the doubles that are numbers as their bits are ordered, sign and magnitude. */
  function DoubleKey(bits: nat): int {
    if bits / TWO_63 % 2 == 1 then -(bits % TWO_63) else bits % TWO_63
  }

  /** Compares two values of one column type; one that is not a number is neither less nor greater. */
  function CompareValues(a: Value, b: Value): int {
    match (a, b)
    case (Double(x), Double(y)) => if IsNaN(x) || IsNaN(y) then 0 else K.Sign(DoubleKey(x), DoubleKey(y))
    case (Int32(x), Int32(y)) => K.Sign(x, y)
    case (Int64(x), Int64(y)) => K.Sign(x, y)
    case (Date(x), Date(y)) => K.Sign(x, y)
    case (Timestamp(x), Timestamp(y)) => K.Sign(x, y)
    case (Bool(x), Bool(y)) => K.Sign(if x then 1 else 0, if y then 1 else 0)
    case (Str(x), Str(y)) => K.CompareStr(x, y)
    case _ => 0
  }

  /** Values of the partition column that can be compared. */
  predicate OfType(t: byte, v: Value) {
    !v.Null? && (v.Double? ==> !IsNaN(v.bits)) && TypeOf(v) == t
  }

  lemma {:induction false} CompareOrder(t: byte, a: Value, b: Value, c: Value)
    requires OfType(t, a) && OfType(t, b) && OfType(t, c)
    ensures CompareValues(a, b) < 0 <==> CompareValues(b, a) > 0
    ensures CompareValues(a, b) <= 0 && CompareValues(b, c) <= 0 ==> CompareValues(a, c) <= 0
    ensures CompareValues(a, b) < 0 && CompareValues(b, c) <= 0 ==> CompareValues(a, c) < 0
    ensures CompareValues(a, b) <= 0 && CompareValues(b, c) < 0 ==> CompareValues(a, c) < 0
  {
    if a.Str? {
      K.StrOrder(a.s, b.s, c.s);
      K.StrOrder(b.s, c.s, a.s);
      K.StrOrder(a.s, c.s, b.s);
      K.StrOrder(c.s, a.s, b.s);
      K.StrOrder(b.s, a.s, c.s);
    }
  }

  // ---- what the order is ----

  function TwoTo(n: nat): nat {
    if n == 0 then 1 else 2 * TwoTo(n - 1)
  }

  /**
   * The number that the bits of a positive double stand for, in units of the least such number:
   * eleven bits of exponent over fifty-two bits of fraction (IEEE 754, binary64).
   */
  function Magnitude(m: nat): nat {
    var exp, frac := m / TWO_52, m % TWO_52;
    if exp == 0 then frac else (TWO_52 + frac) * TwoTo(exp - 1)
  }

  const TWO_52 := 0x10_0000_0000_0000

  function Number(bits: nat): int {
    if bits / TWO_63 % 2 == 1 then 0 - Magnitude(bits % TWO_63) else Magnitude(bits % TWO_63)
  }

  /** The smaller of two values of one type: by number, false before true, strings by their bytes. */
  ghost predicate Below(a: Value, b: Value) {
    match (a, b)
    case (Int32(x), Int32(y)) => x < y
    case (Int64(x), Int64(y)) => x < y
    case (Date(x), Date(y)) => x < y
    case (Timestamp(x), Timestamp(y)) => x < y
    case (Bool(x), Bool(y)) => !x && y
    case (Str(x), Str(y)) => K.StrBelow(x, y)
    case (Double(x), Double(y)) => Number(x) < Number(y)
    case _ => false
  }

  lemma PowPositive(n: nat)
    ensures TwoTo(n) >= 1
  {
  }

  lemma {:induction false} MagnitudeNext(m: nat)
    ensures Magnitude(m) < Magnitude(m + 1)
  {
    var exp, frac := m / TWO_52, m % TWO_52;
    if frac + 1 < TWO_52 {
      SameExponent(m);
      if exp > 0 {
        PowPositive(exp - 1);
        Scaled(TWO_52 + frac, TWO_52 + frac + 1, TwoTo(exp - 1));
      }
    } else {
      NextExponent(m);
      if exp > 0 {
        PowPositive(exp - 1);
        assert TwoTo(exp) == 2 * TwoTo(exp - 1);
        Scaled(2 * TWO_52 - 1, 2 * TWO_52, TwoTo(exp - 1));
        Doubled(TWO_52, TwoTo(exp - 1));
      }
    }
  }

  lemma SameExponent(m: nat)
    requires m % TWO_52 + 1 < TWO_52
    ensures (m + 1) / TWO_52 == m / TWO_52 && (m + 1) % TWO_52 == m % TWO_52 + 1
  {
  }

  lemma NextExponent(m: nat)
    requires m % TWO_52 + 1 == TWO_52
    ensures (m + 1) / TWO_52 == m / TWO_52 + 1 && (m + 1) % TWO_52 == 0
  {
  }

  lemma Scaled(a: nat, b: nat, d: nat)
    requires a < b && d >= 1
    ensures a * d < b * d
  {
  }

  lemma Doubled(a: nat, d: nat)
    ensures a * (2 * d) == 2 * a * d
  {
  }

  lemma {:induction false} MagnitudeRises(m: nat, n: nat)
    requires m <= n
    ensures Magnitude(m) <= Magnitude(n) && (m < n ==> Magnitude(m) < Magnitude(n))
    decreases n - m
  {
    hide Magnitude;
    if m < n {
      MagnitudeRises(m, n - 1);
      MagnitudeNext(n - 1);
    }
  }

  lemma {:induction false} NoMagnitude()
    ensures Magnitude(0) == 0
  {
  }

  /** Doubles that are numbers are ordered as the numbers they stand for; the two zeros are one. */
  lemma {:induction false} DoubleMeans(x: nat, y: nat)
    ensures DoubleKey(x) < DoubleKey(y) <==> Number(x) < Number(y)
  {
    var m, n := x % TWO_63, y % TWO_63;
    NoMagnitude();
    MagnitudeRises(0, m);
    MagnitudeRises(0, n);
    if m <= n {
      MagnitudeRises(m, n);
    } else {
      MagnitudeRises(n, m);
    }
    hide Magnitude;
  }

  /** The comparison gives the order of the values, both ways. */
  lemma {:induction false} CompareMeans(t: byte, a: Value, b: Value)
    requires OfType(t, a) && OfType(t, b)
    ensures CompareValues(a, b) < 0 <==> Below(a, b)
    ensures CompareValues(a, b) > 0 <==> Below(b, a)
  {
    if a.Str? {
      K.StrMeans(a.s, b.s);
      K.StrMeans(b.s, a.s);
      K.StrOrder(b.s, a.s, b.s);
      hide K.CompareStr, K.StrBelow;
    } else if a.Double? {
      DoubleMeans(a.bits, b.bits);
      DoubleMeans(b.bits, a.bits);
      hide DoubleKey, Number;
    }
  }

  /** Bounds of the type of the column, in any order. */
  ghost predicate Bounded(t: byte, parts: seq<Partition>) {
    parts != [] && forall i :: 0 <= i < |parts| && !parts[i].isMax ==> OfType(t, parts[i].upper)
  }

  /** Bounds ascend strictly; MAXVALUE can only be the last. */
  ghost predicate Ordered(t: byte, parts: seq<Partition>) {
    && Bounded(t, parts)
    && (forall i :: 0 <= i < |parts| - 1 ==> !parts[i].isMax)
    && (forall i, j :: 0 <= i < j < |parts| && !parts[j].isMax ==> CompareValues(parts[i].upper, parts[j].upper) < 0)
  }

  predicate Takes(p: Partition, v: Value) {
    p.isMax || (!v.Null? && CompareValues(v, p.upper) < 0)
  }

  /** The first partition that has no bound or one above the value; the last if there is none. */
  ghost predicate FirstAbove(parts: seq<Partition>, v: Value, r: nat) {
    && r < |parts| && (parts[r].isMax || Below(v, parts[r].upper) || r == |parts| - 1)
    && forall j :: 0 <= j < r ==> !parts[j].isMax && !Below(v, parts[j].upper)
  }

  lemma {:induction false} TakesMeans(t: byte, parts: seq<Partition>, v: Value)
    requires Bounded(t, parts) && OfType(t, v)
    ensures forall j :: 0 <= j < |parts| ==> (Takes(parts[j], v) <==> parts[j].isMax || Below(v, parts[j].upper))
  {
    hide Below, CompareValues;
    forall j | 0 <= j < |parts|
      ensures Takes(parts[j], v) <==> parts[j].isMax || Below(v, parts[j].upper)
    {
      if !parts[j].isMax {
        CompareMeans(t, v, parts[j].upper);
      }
    }
  }

  /** The partition of a value: the first that takes it, else the last. */
  method ShardForValue(parts: seq<Partition>, v: Value) returns (r: nat)
    requires parts != []
    ensures r < |parts| && (Takes(parts[r], v) || r == |parts| - 1)
    ensures forall j :: 0 <= j < r ==> !Takes(parts[j], v)
    ensures !v.Null? && Bounded(TypeOf(v), parts) && OfType(TypeOf(v), v) ==> FirstAbove(parts, v, r)
    ensures v.Null? ==> forall j :: 0 <= j < |parts| && parts[j].isMax ==> r <= j
  {
    if !v.Null? && Bounded(TypeOf(v), parts) && OfType(TypeOf(v), v) {
      TakesMeans(TypeOf(v), parts, v);
    }
    for i := 0 to |parts|
      invariant forall j :: 0 <= j < i ==> !Takes(parts[j], v)
    {
      if parts[i].isMax {
        return i;
      }
      if !v.Null? {
        if CompareValues(v, parts[i].upper) < 0 {
          return i;
        }
      }
    }
    r := |parts| - 1;
  }

  /** No partition before `i` takes everything. */
  predicate Reached(parts: seq<Partition>, i: nat)
    requires i <= |parts|
  {
    forall j :: 0 <= j < i ==> !parts[j].isMax
  }

  /** Whether the pruning loop, which ends at a MAXVALUE partition, keeps partition `i`. */
  predicate Keeps(parts: seq<Partition>, op: Op, lit: Value, i: nat)
    requires i < |parts|
  {
    && Reached(parts, i)
    && (parts[i].isMax ||
        match op
        case EQ => (i == 0 || CompareValues(parts[i - 1].upper, lit) <= 0) && CompareValues(lit, parts[i].upper) < 0
        case LT => i == 0 || CompareValues(parts[i - 1].upper, lit) < 0
        case LE => i == 0 || CompareValues(parts[i - 1].upper, lit) < 0
        case GT => CompareValues(parts[i].upper, lit) > 0
        case GE => CompareValues(parts[i].upper, lit) > 0
        case NE => true
        case OTHER => true)
  }

  /** Nothing kept means that everything is searched. */
  ghost predicate Searched(parts: seq<Partition>, op: Op, lit: Value, i: nat)
    requires i < |parts|
  {
    Keeps(parts, op, lit, i) || forall j :: 0 <= j < |parts| ==> !Keeps(parts, op, lit, j)
  }

  function AllParts(n: nat): (r: seq<nat>)
    ensures forall i :: i in r <==> 0 <= i < n
  {
    if n == 0 then [] else AllParts(n - 1) + [n - 1]
  }

  method PrunePartitions(parts: seq<Partition>, sameColumn: bool, op: Op, lit: Value) returns (out: seq<nat>)
    ensures forall i :: i in out ==> i < |parts|
    ensures forall i :: 0 <= i < |parts| ==> (i in out <==> !sameColumn || Searched(parts, op, lit, i))
  {
    hide CompareValues;
    var all := AllParts(|parts|);
    if !sameColumn {
      return all;
    }
    out := [];
    var havePrev, prev := false, Null;
    var i := 0;
    while i < |parts|
      invariant i <= |parts| && (havePrev <==> i > 0) && (i > 0 ==> prev == parts[i - 1].upper) && Reached(parts, i)
      invariant forall j :: j in out ==> j < i
      invariant forall j :: 0 <= j < i ==> (j in out <==> Keeps(parts, op, lit, j))
    {
      var p := parts[i];
      if p.isMax {
        out := out + [i];
        i := i + 1;
        break;
      }
      match op {
        case EQ =>
          if (!havePrev || CompareValues(prev, lit) <= 0) && CompareValues(lit, p.upper) < 0 {
            out := out + [i];
          }
        case LT =>
          if !havePrev || CompareValues(prev, lit) < 0 {
            out := out + [i];
          }
        case LE =>
          if !havePrev || CompareValues(prev, lit) < 0 {
            out := out + [i];
          }
        case GT =>
          if CompareValues(p.upper, lit) > 0 {
            out := out + [i];
          }
        case GE =>
          if CompareValues(p.upper, lit) > 0 {
            out := out + [i];
          }
        case _ => out := out + [i];
      }
      havePrev, prev := true, p.upper;
      i := i + 1;
    }
    assert forall j :: i <= j < |parts| ==> parts[i - 1].isMax && !Keeps(parts, op, lit, j);
    KeptOrAll(parts, op, lit, out);
    if out == [] {
      out := all;
    }
  }

  lemma {:induction false} KeptOrAll(parts: seq<Partition>, op: Op, lit: Value, out: seq<nat>)
    requires forall j :: j in out ==> j < |parts|
    requires forall j :: 0 <= j < |parts| ==> (j in out <==> Keeps(parts, op, lit, j))
    ensures forall j :: 0 <= j < |parts| ==> (Searched(parts, op, lit, j) <==> out == [] || j in out)
  {
    hide Keeps;
    if out != [] {
      assert out[0] in out;
    }
  }

  /** The same on the values: which partitions are searched for `column op lit`. */
  ghost predicate MayHold(parts: seq<Partition>, op: Op, lit: Value, i: nat)
    requires i < |parts|
  {
    && (forall j :: 0 <= j < i ==> !parts[j].isMax)
    && (parts[i].isMax ||
        match op
        case EQ => (i == 0 || !Below(lit, parts[i - 1].upper)) && Below(lit, parts[i].upper)
        case LT => i == 0 || Below(parts[i - 1].upper, lit)
        case LE => i == 0 || Below(parts[i - 1].upper, lit)
        case GT => Below(lit, parts[i].upper)
        case GE => Below(lit, parts[i].upper)
        case NE => true
        case OTHER => true)
  }

  /** What the loop keeps, said on the values themselves. */
  lemma {:induction false} KeepsMeans(t: byte, parts: seq<Partition>, op: Op, lit: Value, i: nat)
    requires Bounded(t, parts) && OfType(t, lit) && i < |parts|
    ensures Keeps(parts, op, lit, i) <==> MayHold(parts, op, lit, i)
  {
    hide Below, CompareValues;
    if Reached(parts, i) && !parts[i].isMax {
      CompareMeans(t, lit, parts[i].upper);
      CompareMeans(t, parts[i].upper, lit);
      if i > 0 {
        CompareMeans(t, parts[i - 1].upper, lit);
        CompareMeans(t, lit, parts[i - 1].upper);
      }
    }
  }

  // ---- pruning loses nothing ----

  predicate Satisfies(v: Value, op: Op, lit: Value) {
    match op
    case EQ => CompareValues(v, lit) == 0
    case NE => CompareValues(v, lit) != 0
    case LT => CompareValues(v, lit) < 0
    case LE => CompareValues(v, lit) <= 0
    case GT => CompareValues(v, lit) > 0
    case GE => CompareValues(v, lit) >= 0
    case OTHER => true
  }

  /** What a row must satisfy, said on the values themselves. */
  lemma {:induction false} SatisfiesMeans(t: byte, v: Value, op: Op, lit: Value)
    requires OfType(t, v) && OfType(t, lit)
    ensures Satisfies(v, op, lit) <==>
            match op
            case EQ => !Below(v, lit) && !Below(lit, v)
            case NE => Below(v, lit) || Below(lit, v)
            case LT => Below(v, lit)
            case LE => !Below(lit, v)
            case GT => Below(lit, v)
            case GE => !Below(v, lit)
            case OTHER => true
  {
    hide Below, CompareValues;
    CompareMeans(t, v, lit);
  }

  /** Neither below the other only if they are the same value, but for the sign of a zero. */
  lemma {:induction false} EqualMeans(t: byte, v: Value, w: Value)
    requires OfType(t, v) && OfType(t, w) && !Below(v, w) && !Below(w, v)
    ensures v == w || (v.Double? && w.Double? && Number(v.bits) == Number(w.bits))
  {
    if v.Str? {
      K.StrMeans(v.s, w.s);
      K.StrMeans(w.s, v.s);
      K.StrOrder(v.s, w.s, v.s);
      K.StrOrder(w.s, v.s, w.s);
      hide K.StrBelow, K.CompareStr;
    }
  }

  /** `r` is the partition of `v`. */
  ghost predicate RoutedTo(parts: seq<Partition>, v: Value, r: nat) {
    && r < |parts| && (Takes(parts[r], v) || r == |parts| - 1)
    && forall j :: 0 <= j < r ==> !Takes(parts[j], v)
  }

  /** The bound before the partition of a value is not above the value. */
  lemma {:induction false} PrevBelow(t: byte, parts: seq<Partition>, v: Value, r: nat)
    requires Bounded(t, parts) && OfType(t, v) && RoutedTo(parts, v, r) && r > 0
    ensures CompareValues(parts[r - 1].upper, v) <= 0 && OfType(t, parts[r - 1].upper)
  {
    assert !Takes(parts[r - 1], v);
    CompareOrder(t, parts[r - 1].upper, v, v);
    CompareOrder(t, v, parts[r - 1].upper, v);
  }

  /** A value that no partition takes lies above all bounds. */
  lemma {:induction false} AboveAll(t: byte, parts: seq<Partition>, v: Value, r: nat, i: nat)
    requires Bounded(t, parts) && OfType(t, v) && RoutedTo(parts, v, r) && !Takes(parts[r], v) && i < |parts|
    ensures !parts[i].isMax && OfType(t, parts[i].upper) && CompareValues(parts[i].upper, v) <= 0
  {
    assert !Takes(parts[i], v);
    CompareOrder(t, v, parts[i].upper, v);
    CompareOrder(t, parts[i].upper, v, v);
  }

  lemma {:induction false} RoutedReached(parts: seq<Partition>, v: Value, r: nat)
    requires RoutedTo(parts, v, r)
    ensures Reached(parts, r)
  {
    forall j | 0 <= j < r
      ensures !parts[j].isMax
    {
      assert !Takes(parts[j], v);
    }
  }

  lemma {:induction false} LessKept(t: byte, parts: seq<Partition>, v: Value, lit: Value, r: nat)
    requires Bounded(t, parts) && OfType(t, v) && OfType(t, lit) && RoutedTo(parts, v, r) && CompareValues(v, lit) < 0
    ensures Keeps(parts, LT, lit, r) && Keeps(parts, LE, lit, r)
  {
    RoutedReached(parts, v, r);
    if r > 0 {
      PrevBelow(t, parts, v, r);
      CompareOrder(t, parts[r - 1].upper, v, lit);
    }
  }

  /** The last partition, to which all values above the bounds go, has a bound that `>` discards while it keeps another. */
  ghost predicate LastDropped(parts: seq<Partition>, lit: Value) {
    && parts != [] && Reached(parts, |parts|) && CompareValues(parts[|parts| - 1].upper, lit) <= 0
    && exists j :: 0 <= j < |parts| && CompareValues(parts[j].upper, lit) > 0
  }

  lemma {:induction false} GreaterSearched(t: byte, parts: seq<Partition>, v: Value, lit: Value, r: nat, op: Op)
    requires Bounded(t, parts) && OfType(t, v) && OfType(t, lit) && RoutedTo(parts, v, r)
    requires CompareValues(v, lit) >= 0 && (op == GT || op == GE) && !LastDropped(parts, lit)
    ensures Searched(parts, op, lit, r)
  {
    RoutedReached(parts, v, r);
    CompareOrder(t, v, lit, v);
    CompareOrder(t, lit, v, v);
    if Takes(parts[r], v) {
      if !parts[r].isMax {
        CompareOrder(t, lit, v, parts[r].upper);
        CompareOrder(t, lit, parts[r].upper, lit);
      }
    } else {
      forall j | 0 <= j < |parts|
        ensures Keeps(parts, op, lit, j) ==> Keeps(parts, op, lit, r)
      {
        AboveAll(t, parts, v, r, j);
        AboveAll(t, parts, v, r, r);
        assert Reached(parts, |parts|);
      }
    }
  }

  /** The index of a greatest bound. */
  lemma {:induction false} Greatest(t: byte, parts: seq<Partition>, n: nat) returns (m: nat)
    requires Bounded(t, parts) && Reached(parts, |parts|) && 0 < n <= |parts|
    ensures m < |parts| && forall j :: 0 <= j < n ==> CompareValues(parts[j].upper, parts[m].upper) <= 0
  {
    m := 0;
    CompareOrder(t, parts[n - 1].upper, parts[n - 1].upper, parts[n - 1].upper);
    if n > 1 {
      m := Greatest(t, parts, n - 1);
      var last := n - 1;
      CompareOrder(t, parts[m].upper, parts[last].upper, parts[m].upper);
      if CompareValues(parts[m].upper, parts[last].upper) < 0 {
        forall j | 0 <= j < n
          ensures CompareValues(parts[j].upper, parts[last].upper) <= 0
        {
          if j < last {
            CompareOrder(t, parts[j].upper, parts[m].upper, parts[last].upper);
          }
        }
        m := last;
      } else {
        CompareOrder(t, parts[last].upper, parts[m].upper, parts[last].upper);
      }
    }
  }

  lemma {:induction false} LastDroppedLost(t: byte, parts: seq<Partition>, lit: Value, op: Op)
    requires Bounded(t, parts) && OfType(t, lit) && LastDropped(parts, lit) && (op == GT || op == GE)
    ensures !LosesNothing(t, parts, op, lit)
  {
    var m := Greatest(t, parts, |parts|);
    var v, r := parts[m].upper, |parts| - 1;
    var k :| 0 <= k < |parts| && CompareValues(parts[k].upper, lit) > 0;
    CompareOrder(t, lit, parts[k].upper, v);
    CompareOrder(t, lit, parts[k].upper, lit);
    CompareOrder(t, lit, v, lit);
    forall j | 0 <= j < |parts|
      ensures !Takes(parts[j], v)
    {
      CompareOrder(t, v, parts[j].upper, v);
    }
    assert RoutedTo(parts, v, r) && Satisfies(v, op, lit);
    assert Reached(parts, k);
    assert Keeps(parts, op, lit, k) && !Keeps(parts, op, lit, r);
    assert !Searched(parts, op, lit, r);
  }

  lemma {:induction false} EqualSearched(t: byte, parts: seq<Partition>, v: Value, lit: Value, r: nat)
    requires Bounded(t, parts) && OfType(t, v) && OfType(t, lit) && RoutedTo(parts, v, r) && CompareValues(v, lit) == 0
    ensures Searched(parts, EQ, lit, r)
  {
    RoutedReached(parts, v, r);
    CompareOrder(t, v, lit, v);
    CompareOrder(t, lit, v, v);
    if Takes(parts[r], v) {
      if !parts[r].isMax {
        CompareOrder(t, lit, v, parts[r].upper);
        if r > 0 {
          PrevBelow(t, parts, v, r);
          CompareOrder(t, parts[r - 1].upper, v, lit);
        }
      }
    } else {
      forall j | 0 <= j < |parts|
        ensures !Keeps(parts, EQ, lit, j)
      {
        AboveAll(t, parts, v, r, j);
        CompareOrder(t, parts[j].upper, v, lit);
        CompareOrder(t, lit, parts[j].upper, lit);
        CompareOrder(t, parts[j].upper, lit, lit);
      }
    }
  }

  /** The literal's own partition has a bound and begins at the literal. */
  ghost predicate BeginsAt(parts: seq<Partition>, lit: Value) {
    exists r :: RoutedTo(parts, lit, r) && StartsAt(parts, lit, r)
  }

  ghost predicate StartsAt(parts: seq<Partition>, lit: Value, r: nat)
    requires r < |parts|
  {
    r > 0 && !parts[r].isMax && CompareValues(parts[r - 1].upper, lit) == 0
  }

  /** Every value that satisfies the predicate is in a partition that is searched. */
  ghost predicate LosesNothing(t: byte, parts: seq<Partition>, op: Op, lit: Value) {
    forall v, r :: OfType(t, v) && Satisfies(v, op, lit) && RoutedTo(parts, v, r) ==> Searched(parts, op, lit, r)
  }

  /** Equal values go to the same partition. */
  lemma {:induction false} SameRoute(t: byte, parts: seq<Partition>, v: Value, w: Value, r: nat)
    requires Bounded(t, parts) && OfType(t, v) && OfType(t, w) && RoutedTo(parts, v, r) && CompareValues(v, w) == 0
    ensures RoutedTo(parts, w, r)
  {
    CompareOrder(t, v, w, v);
    CompareOrder(t, w, v, w);
    forall j | 0 <= j < |parts|
      ensures Takes(parts[j], v) <==> Takes(parts[j], w)
    {
      if !parts[j].isMax {
        CompareOrder(t, v, w, parts[j].upper);
        CompareOrder(t, w, v, parts[j].upper);
      }
    }
  }

  lemma {:induction false} EqualToLiteral(t: byte, parts: seq<Partition>, v: Value, lit: Value, r: nat)
    requires Bounded(t, parts) && OfType(t, v) && OfType(t, lit) && RoutedTo(parts, v, r) && CompareValues(v, lit) == 0
    requires !BeginsAt(parts, lit)
    ensures Keeps(parts, LE, lit, r)
  {
    RoutedReached(parts, v, r);
    SameRoute(t, parts, v, lit, r);
    if r > 0 && !parts[r].isMax {
      PrevBelow(t, parts, lit, r);
      assert !StartsAt(parts, lit, r);
    }
  }

  lemma {:induction false} BeginsAtLost(t: byte, parts: seq<Partition>, lit: Value)
    requires Bounded(t, parts) && OfType(t, lit) && BeginsAt(parts, lit)
    ensures !LosesNothing(t, parts, LE, lit)
  {
    var r :| RoutedTo(parts, lit, r) && StartsAt(parts, lit, r);
    CompareOrder(t, lit, lit, lit);
    assert Satisfies(lit, LE, lit);
    assert Keeps(parts, LE, lit, 0);
    assert !Searched(parts, LE, lit, r);
  }

  /**
   * Pruning is safe for bounds in any order, except that `<=` loses the literal itself when its
   * partition begins there, and `>` and `>=` lose the values above all bounds when the last
   * bound is not the greatest and the literal lies between.
   */
  lemma {:induction false} PruningExact(t: byte, parts: seq<Partition>, op: Op, lit: Value)
    requires Bounded(t, parts) && OfType(t, lit)
    ensures LosesNothing(t, parts, op, lit)
       <==> !(op == LE && BeginsAt(parts, lit)) && !((op == GT || op == GE) && LastDropped(parts, lit))
  {
    if op == LE && BeginsAt(parts, lit) {
      BeginsAtLost(t, parts, lit);
    } else if (op == GT || op == GE) && LastDropped(parts, lit) {
      LastDroppedLost(t, parts, lit, op);
    } else {
      forall v, r | OfType(t, v) && Satisfies(v, op, lit) && RoutedTo(parts, v, r)
        ensures Searched(parts, op, lit, r)
      {
        match op
        case EQ => EqualSearched(t, parts, v, lit, r);
        case LT => LessKept(t, parts, v, lit, r);
        case LE =>
          if CompareValues(v, lit) < 0 {
            LessKept(t, parts, v, lit, r);
          } else {
            EqualToLiteral(t, parts, v, lit, r);
          }
        case GT => GreaterSearched(t, parts, v, lit, r, GT);
        case GE => GreaterSearched(t, parts, v, lit, r, GE);
        case _ => RoutedReached(parts, v, r);
      }
    }
  }

  // ---- ordered bounds ----

  /** The literal is the bound of a partition that another bounded one follows. */
  ghost predicate OnInnerBound(parts: seq<Partition>, lit: Value) {
    exists r :: 0 < r < |parts| && StartsAt(parts, lit, r) && !parts[r - 1].isMax
  }

  lemma {:induction false} InnerBoundBegins(t: byte, parts: seq<Partition>, lit: Value, i: nat)
    requires Ordered(t, parts) && OfType(t, lit) && i < |parts| - 1 && !parts[i + 1].isMax
    requires CompareValues(parts[i].upper, lit) == 0
    ensures RoutedTo(parts, lit, i + 1)
  {
    var r := i + 1;
    var u := parts[i].upper;
    CompareOrder(t, u, lit, u);
    CompareOrder(t, lit, u, lit);
    CompareOrder(t, lit, u, parts[r].upper);
    forall j | 0 <= j < r
      ensures !Takes(parts[j], lit)
    {
      if j < i {
        CompareOrder(t, parts[j].upper, u, lit);
        CompareOrder(t, lit, parts[j].upper, lit);
        CompareOrder(t, parts[j].upper, lit, lit);
      }
    }
  }

  lemma {:induction false} LastIsGreatest(t: byte, parts: seq<Partition>, lit: Value, j: nat)
    requires Ordered(t, parts) && OfType(t, lit) && Reached(parts, |parts|) && j < |parts|
    requires CompareValues(parts[j].upper, lit) > 0
    ensures CompareValues(parts[|parts| - 1].upper, lit) > 0
  {
    var last := |parts| - 1;
    if j < last {
      CompareOrder(t, lit, parts[j].upper, parts[last].upper);
      CompareOrder(t, lit, parts[last].upper, lit);
    }
  }

  lemma {:induction false} BeginsInner(t: byte, parts: seq<Partition>, lit: Value)
    requires Ordered(t, parts) && OfType(t, lit)
    ensures BeginsAt(parts, lit) <==> OnInnerBound(parts, lit)
  {
    hide CompareValues;
    if OnInnerBound(parts, lit) {
      var r :| 0 < r < |parts| && StartsAt(parts, lit, r) && !parts[r - 1].isMax;
      InnerBoundBegins(t, parts, lit, r - 1);
    }
    if BeginsAt(parts, lit) {
      var r :| RoutedTo(parts, lit, r) && StartsAt(parts, lit, r);
      RoutedReached(parts, lit, r);
    }
  }

  /** With ordered bounds only `<=` on an inner bound loses anything. */
  lemma {:induction false} OrderedExact(t: byte, parts: seq<Partition>, op: Op, lit: Value)
    requires Ordered(t, parts) && OfType(t, lit)
    ensures LosesNothing(t, parts, op, lit) <==> !(op == LE && OnInnerBound(parts, lit))
  {
    PruningExact(t, parts, op, lit);
    BeginsInner(t, parts, lit);
    hide LosesNothing, BeginsAt, OnInnerBound, CompareValues, Ordered;
    forall j | Reached(parts, |parts|) && 0 <= j < |parts| && CompareValues(parts[j].upper, lit) > 0
      ensures CompareValues(parts[|parts| - 1].upper, lit) > 0
    {
      LastIsGreatest(t, parts, lit, j);
    }
  }

  /** Bounds 20 and 10: a search for values above 15 does not look where 25 is stored. */
  lemma {:induction false} UnorderedLoses()
    ensures var parts := [Partition(false, Int32(20)), Partition(false, Int32(10))];
            RoutedTo(parts, Int32(25), 1) && Satisfies(Int32(25), GT, Int32(15)) && !Searched(parts, GT, Int32(15), 1)
  {
    var parts := [Partition(false, Int32(20)), Partition(false, Int32(10))];
    assert Keeps(parts, GT, Int32(15), 0);
    assert !Keeps(parts, GT, Int32(15), 1);
  }
}
