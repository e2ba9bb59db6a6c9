/** Bitmaps: bit `i` is bit `i % 8` of byte `i / 8`; bits past the end read as clear. */
module Bitmap {

  type Bits = seq<bv8>

  predicate Bit(bm: Bits, i: nat) {
    i / 8 < |bm| && ByteBit(bm[i / 8], i % 8)
  }

  predicate ByteBit(b: bv8, k: nat)
    requires k < 8
  {
    (b >> k) & 1 == 1
  }

  /** The number of bytes that `n` bits need. */
  function BytesFor(n: nat): (b: nat)
    ensures n <= 8 * b < n + 8
  {
    (n + 7) / 8
  }

  function Zeros(n: nat): (bm: Bits)
    ensures |bm| == n && forall i :: 0 <= i < n ==> bm[i] == 0
  {
    seq(n, _ => 0)
  }

  /** Lengthens a bitmap with clear bytes. */
  function Widen(bm: Bits, bytes: nat): (r: Bits)
    ensures |r| == if |bm| < bytes then bytes else |bm|
  {
    if |bm| < bytes then bm + Zeros(bytes - |bm|) else bm
  }

  function SetBit(bm: Bits, i: nat): (r: Bits)
    requires i / 8 < |bm|
    ensures |r| == |bm|
  {
    bm[i / 8 := bm[i / 8] | (1 << (i % 8))]
  }

  function ClearBit(bm: Bits, i: nat): (r: Bits)
    requires i / 8 < |bm|
    ensures |r| == |bm|
  {
    bm[i / 8 := bm[i / 8] & !(1 << (i % 8))]
  }

  lemma SetByteBit(b: bv8, i: nat, j: nat)
    requires i < 8 && j < 8
    ensures ByteBit(b | (1 << i), j) <==> i == j || ByteBit(b, j)
  {
  }

  lemma ClearByteBit(b: bv8, i: nat, j: nat)
    requires i < 8 && j < 8
    ensures ByteBit(b & !(1 << i), j) <==> i != j && ByteBit(b, j)
  {
  }

  lemma {:induction false} SetBitAt(bm: Bits, i: nat, j: nat)
    requires i / 8 < |bm|
    ensures Bit(SetBit(bm, i), j) <==> i == j || Bit(bm, j)
  {
    hide ByteBit;
    if i / 8 == j / 8 {
      SetByteBit(bm[i / 8], i % 8, j % 8);
    }
  }

  lemma {:induction false} ClearBitAt(bm: Bits, i: nat, j: nat)
    requires i / 8 < |bm|
    ensures Bit(ClearBit(bm, i), j) <==> i != j && Bit(bm, j)
  {
    hide ByteBit;
    if i / 8 == j / 8 {
      ClearByteBit(bm[i / 8], i % 8, j % 8);
    }
  }

  lemma ZeroByte(k: nat)
    requires k < 8
    ensures !ByteBit(0, k)
  {
  }

  lemma {:induction false} WidenAt(bm: Bits, bytes: nat, i: nat)
    ensures Bit(Widen(bm, bytes), i) <==> Bit(bm, i)
  {
    hide ByteBit;
    ZeroByte(i % 8);
  }

  lemma {:induction false} ZerosAt(n: nat, i: nat)
    ensures !Bit(Zeros(n), i)
  {
    hide ByteBit;
    ZeroByte(i % 8);
  }
}
