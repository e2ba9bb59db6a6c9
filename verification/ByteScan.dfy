/** Walking the set bits of a byte and of a bitmap from the lowest up. */
module ByteScan {
  import opened Bitmap

  /** The index of the lowest set bit. */
  function Ctz(b: bv8): (t: nat)
    requires b != 0
    ensures t < 8
  {
    if b & 1 != 0 then 0 else if b & 2 != 0 then 1 else if b & 4 != 0 then 2 else if b & 8 != 0 then 3
    else if b & 16 != 0 then 4 else if b & 32 != 0 then 5 else if b & 64 != 0 then 6 else 7
  }

  /** `b & (b - 1)` clears the lowest set bit. */
  lemma ClearLowest(b: bv8)
    requires b != 0
    ensures b & (b - 1) == b & !(1 << Ctz(b))
  {
    if b & 1 != 0 {
    } else if b & 2 != 0 {
    } else if b & 4 != 0 {
    } else if b & 8 != 0 {
    } else if b & 16 != 0 {
    } else if b & 32 != 0 {
    } else if b & 64 != 0 {
    } else {
    }
  }

  lemma CtzIsSet(b: bv8)
    requires b != 0
    ensures ByteBit(b, Ctz(b))
  {
  }

  lemma CtzIsLowest(b: bv8, j: nat)
    requires b != 0 && j < Ctz(b)
    ensures !ByteBit(b, j)
  {
  }

  lemma SomeBit(b: bv8)
    requires forall j :: 0 <= j < 8 ==> !ByteBit(b, j)
    ensures b == 0
  {
    assert !ByteBit(b, 0) && !ByteBit(b, 1) && !ByteBit(b, 2) && !ByteBit(b, 3);
    assert !ByteBit(b, 4) && !ByteBit(b, 5) && !ByteBit(b, 6) && !ByteBit(b, 7);
  }

  /** The set bits of a byte below `n`, ascending. */
  function ByteBits(b: bv8, n: nat): (r: seq<nat>)
    requires n <= 8
    ensures |r| <= n && forall i :: 0 <= i < |r| ==> r[i] < n && ByteBit(b, r[i])
  {
    if n == 0 then [] else ByteBits(b, n - 1) + if ByteBit(b, n - 1) then [n - 1] else []
  }

  lemma {:induction false} NoBitsBelow(b: bv8, n: nat)
    requires n <= 8 && forall j :: 0 <= j < n ==> !ByteBit(b, j)
    ensures ByteBits(b, n) == []
  {
    hide ByteBit;
    if n > 0 {
      NoBitsBelow(b, n - 1);
    }
  }

  /** The lowest bit first, then the rest. */
  lemma {:induction false} PopLowest(b: bv8, n: nat)
    requires b != 0 && Ctz(b) < n <= 8
    ensures ByteBits(b, n) == [Ctz(b)] + ByteBits(b & (b - 1), n)
  {
    hide ByteBit, Ctz;
    var t, rest := Ctz(b), b & (b - 1);
    RestBit(b, n - 1);
    if n - 1 == t {
      CtzIsSet(b);
      forall j | 0 <= j < t
        ensures !ByteBit(b, j) && !ByteBit(rest, j)
      {
        CtzIsLowest(b, j);
        RestBit(b, j);
      }
      NoBitsBelow(b, t);
      NoBitsBelow(rest, t);
    } else {
      PopLowest(b, n - 1);
    }
  }

  /** What is left after the lowest bit has been cleared. */
  lemma {:induction false} RestBit(b: bv8, j: nat)
    requires b != 0 && j < 8
    ensures ByteBit(b & (b - 1), j) <==> ByteBit(b, j) && j != Ctz(b)
  {
    ClearLowest(b);
    ClearByteBit(b, Ctz(b), j);
    hide ByteBit, Ctz;
  }

  lemma {:induction false} ZeroBits(n: nat)
    requires n <= 8
    ensures ByteBits(0, n) == []
  {
    if n > 0 {
      ZeroBits(n - 1);
      ZeroByte(n - 1);
    }
  }

  /** A bit above all set ones is appended. */
  lemma {:induction false} SetHighest(b: bv8, t: nat, n: nat)
    requires t < n <= 8 && forall i :: 0 <= i < |ByteBits(b, 8)| ==> ByteBits(b, 8)[i] < t
    ensures ByteBits(b | (1 << t), n) == ByteBits(b, n) + [t]
  {
    var c := b | (1 << t);
    SetByteBit(b, t, n - 1);
    HighClear(b, t, n - 1);
    hide ByteBit;
    if n - 1 == t {
      SameBelow(b, c, t, t);
    } else {
      SetHighest(b, t, n - 1);
    }
  }

  lemma {:induction false} HighClear(b: bv8, t: nat, j: nat)
    requires t <= j < 8 && forall i :: 0 <= i < |ByteBits(b, 8)| ==> ByteBits(b, 8)[i] < t
    ensures !ByteBit(b, j)
  {
    hide ByteBit;
    if ByteBit(b, j) {
      BitListed(b, j, 8);
    }
  }

  lemma {:induction false} BitListed(b: bv8, j: nat, n: nat)
    requires j < n <= 8
    ensures ByteBit(b, j) <==> j in ByteBits(b, n)
  {
    hide ByteBit;
    if j < n - 1 {
      BitListed(b, j, n - 1);
    }
  }

  lemma {:induction false} SameBelow(b: bv8, c: bv8, t: nat, n: nat)
    requires n <= t < 8 && c == b | (1 << t)
    ensures ByteBits(c, n) == ByteBits(b, n)
  {
    if n > 0 {
      SetByteBit(b, t, n - 1);
      hide ByteBit;
      SameBelow(b, c, t, n - 1);
    }
  }

  // ---- bitmaps ----

  function Shift(base: nat, s: seq<nat>): (r: seq<nat>)
    ensures |r| == |s| && forall i :: 0 <= i < |s| ==> r[i] == base + s[i]
  {
    seq(|s|, i requires 0 <= i < |s| => base + s[i])
  }

  /** The set bits of a bitmap below `n`, ascending. */
  function SetBits(bm: Bits, n: nat): seq<nat> {
    if n == 0 then [] else SetBits(bm, n - 1) + if Bit(bm, n - 1) then [n - 1] else []
  }

  function SetIndices(bm: Bits): seq<nat> {
    SetBits(bm, 8 * |bm|)
  }

  /** The next byte adds its bits. */
  lemma {:induction false} NextByte(bm: Bits, i: nat, k: nat)
    requires i < |bm| && k <= 8
    ensures SetBits(bm, 8 * i + k) == SetBits(bm, 8 * i) + Shift(8 * i, ByteBits(bm[i], k))
  {
    hide Bit, ByteBit;
    if k > 0 {
      NextByte(bm, i, k - 1);
      BitOfByte(bm, i, k - 1);
    }
  }

  lemma {:induction false} BitOfByte(bm: Bits, i: nat, k: nat)
    requires i < |bm| && k < 8
    ensures Bit(bm, 8 * i + k) <==> ByteBit(bm[i], k)
  {
    hide ByteBit;
    assert (8 * i + k) / 8 == i && (8 * i + k) % 8 == k;
  }

  lemma {:induction false} SetBitsMember(bm: Bits, n: nat, j: nat)
    ensures j in SetBits(bm, n) <==> j < n && Bit(bm, j)
  {
    hide Bit;
    if n > 0 {
      SetBitsMember(bm, n - 1, j);
    }
  }

  ghost predicate Ascending(s: seq<nat>) {
    forall i, j :: 0 <= i < j < |s| ==> s[i] < s[j]
  }

  lemma {:induction false} SetBitsAscend(bm: Bits, n: nat)
    ensures Ascending(SetBits(bm, n)) && forall i :: 0 <= i < |SetBits(bm, n)| ==> SetBits(bm, n)[i] < n
  {
    hide Bit;
    if n > 0 {
      SetBitsAscend(bm, n - 1);
    }
  }

  /** An ascending sequence is determined by its members. */
  lemma {:induction false} AscendingUnique(a: seq<nat>, b: seq<nat>)
    requires Ascending(a) && Ascending(b) && forall x :: x in a <==> x in b
    ensures a == b
  {
    if a == [] {
      HasMember(b);
    } else {
      var m, n := |a| - 1, |b| - 1;
      assert a[m] in a;
      assert b != [];
      assert b[n] in b;
      LastIsMost(a, b[n]);
      LastIsMost(b, a[m]);
      forall x
        ensures x in a[..m] <==> x in b[..n]
      {
        InFront(a, x);
        InFront(b, x);
      }
      AscendingUnique(a[..m], b[..n]);
    }
  }

  lemma {:induction false} HasMember(s: seq<nat>)
    ensures s != [] ==> exists x :: x in s
  {
    if s != [] {
      assert s[0] in s;
    }
  }

  lemma {:induction false} LastIsMost(s: seq<nat>, x: nat)
    requires Ascending(s) && x in s
    ensures x <= s[|s| - 1]
  {
  }

  lemma {:induction false} InFront(s: seq<nat>, x: nat)
    requires Ascending(s) && s != []
    ensures x in s[..|s| - 1] <==> x in s && x != s[|s| - 1]
  {
    var n := |s| - 1;
    if x in s && x != s[n] {
      var i :| 0 <= i < |s| && s[i] == x;
      assert s[..n][i] == x;
    }
  }

  /** Clear bytes at the end hold no bits. */
  lemma {:induction false} ClearTail(bm: Bits, n: nat, m: nat)
    requires n <= m && forall i :: n <= i < m ==> !Bit(bm, i)
    ensures SetBits(bm, m) == SetBits(bm, n)
  {
    hide Bit;
    if n < m {
      ClearTail(bm, n, m - 1);
    }
  }

  lemma {:induction false} SameBits(a: Bits, b: Bits, n: nat)
    requires forall i :: 0 <= i < n ==> (Bit(a, i) <==> Bit(b, i))
    ensures SetBits(a, n) == SetBits(b, n)
  {
    hide Bit;
    if n > 0 {
      SameBits(a, b, n - 1);
    }
  }
}
