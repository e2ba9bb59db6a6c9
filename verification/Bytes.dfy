/** Bytes and the little-endian integers that the log and the state files are made of. */
module Bytes {

  type byte = n: int | 0 <= n < 256

  /** A `std::string` of the source: bytes, not characters. */
  type Name = seq<byte>

  const TWO_16: nat := 0x1_0000
  const TWO_32: nat := 0x1_0000_0000
  const TWO_64: nat := 0x1_0000_0000_0000_0000

  function Pow256(width: nat): (p: nat)
    ensures p >= 1
  {
    if width == 0 then 1 else 256 * Pow256(width - 1)
  }

  /** The low `width` bytes of `v`, least significant first: higher bytes are dropped, as the casts of the source do. */
  function PutLe(v: nat, width: nat): (b: seq<byte>)
    ensures |b| == width
  {
    if width == 0 then [] else [v % 256] + PutLe(v / 256, width - 1)
  }

  function ReadLe(b: seq<byte>): (v: nat) {
    if |b| == 0 then 0 else b[0] + 256 * ReadLe(b[1..])
  }

  /** What is read back is the value cut to its width; in particular a value that fits is read back unchanged. */
  lemma {:induction false} ReadPutLe(v: nat, width: nat)
    ensures ReadLe(PutLe(v, width)) == v % Pow256(width)
    ensures v < Pow256(width) ==> ReadLe(PutLe(v, width)) == v
  {
    if width == 0 {
    } else {
      var p := Pow256(width - 1);
      ReadPutLe(v / 256, width - 1);
      assert PutLe(v, width)[1..] == PutLe(v / 256, width - 1);
      SplitMod(v, p);
    }
  }

  lemma SplitMod(v: nat, p: nat)
    requires p >= 1
    ensures v % (256 * p) == v % 256 + 256 * ((v / 256) % p)
    ensures v < 256 * p ==> v / 256 < p && v % (256 * p) == v
  {
    var q, r := (v / 256) / p, (v / 256) % p;
    assert v / 256 == q * p + r;
    var low := v % 256 + 256 * r;
    assert v == q * (256 * p) + low by {
      assert v == 256 * (v / 256) + v % 256;
      assert 256 * (q * p) == q * (256 * p);
    }
    assert 0 <= low < 256 * p;
    ModUnique(v, 256 * p, q, low);
  }

  lemma ModUnique(v: nat, d: nat, q: nat, r: nat)
    requires d > 0 && r < d && v == q * d + r
    ensures v % d == r
  {
    SmallMultiple(v / d - q, d, r - v % d);
  }

  lemma SmallMultiple(k: int, d: int, x: int)
    requires -d < x < d && k * d == x
    ensures x == 0
  {
    Multiple(k, d);
  }

  lemma Multiple(k: int, d: int)
    requires d > 0
    ensures k >= 1 ==> k * d >= d
    ensures k <= -1 ==> k * d <= -d
  {
  }

  lemma LowByte(x: nat, rest: nat)
    requires x < 256
    ensures (x + 256 * rest) % 256 == x && (x + 256 * rest) / 256 == rest
  {
  }

  /** Reading and writing are inverse both ways, so a byte string of known width and its number determine each other. */
  lemma {:induction false} PutReadLe(b: seq<byte>)
    ensures ReadLe(b) < Pow256(|b|)
    ensures PutLe(ReadLe(b), |b|) == b
  {
    if |b| > 0 {
      PutReadLe(b[1..]);
      var rest := ReadLe(b[1..]);
      assert rest + 1 <= Pow256(|b| - 1);
      LowByte(b[0], rest);
    }
  }

  /** Only the value cut to the width is written. */
  lemma {:induction false} PutLeCut(v: nat, width: nat)
    ensures PutLe(v % Pow256(width), width) == PutLe(v, width)
  {
    ReadPutLe(v, width);
    PutReadLe(PutLe(v, width));
  }

  lemma Widths()
    ensures Pow256(2) == TWO_16 && Pow256(4) == TWO_32 && Pow256(8) == TWO_64
  {
    assert Pow256(4) == 256 * 256 * Pow256(2);
    assert Pow256(6) == 256 * 256 * Pow256(4);
    assert Pow256(8) == 256 * 256 * Pow256(6);
  }

  /** A number below 256 is its low byte and zeros. */
  lemma {:induction false} SmallLe(v: nat)
    requires v < 256
    ensures PutLe(v, 2) == [v, 0] && PutLe(v, 4) == [v, 0, 0, 0] && PutLe(v, 8) == [v, 0, 0, 0, 0, 0, 0, 0]
  {
    assert v % 256 == v && v / 256 == 0;
    assert PutLe(0, 1) == [0];
    assert PutLe(0, 2) == [0] + PutLe(0, 1);
    assert PutLe(0, 3) == [0] + PutLe(0, 2);
    assert PutLe(0, 4) == [0] + PutLe(0, 3);
    assert PutLe(0, 5) == [0] + PutLe(0, 4);
    assert PutLe(0, 6) == [0] + PutLe(0, 5);
    assert PutLe(0, 7) == [0] + PutLe(0, 6);
  }

  // ---------------------------------------------------------------- signed integers

  function Half(w: nat): nat {
    Pow256(w) / 2
  }

  /** Two's complement, least significant byte first. */
  function PutSigned(n: int, w: nat): seq<byte> {
    PutLe(if n >= 0 then n else if n + Pow256(w) >= 0 then n + Pow256(w) else 0, w)
  }

  function ReadSigned(b: seq<byte>): int {
    var v := ReadLe(b);
    if v >= Half(|b|) then v - Pow256(|b|) else v
  }

  lemma {:induction false} PowEven(w: nat)
    requires w > 0
    ensures Pow256(w) == 2 * Half(w) && Half(w) >= 1
  {
    var p := Pow256(w - 1);
    assert Pow256(w) == 2 * (128 * p);
  }

  lemma {:induction false} SignedRoundTrip(n: int, w: nat)
    requires w > 0 && 0 - Half(w) <= n < Half(w)
    ensures |PutSigned(n, w)| == w && ReadSigned(PutSigned(n, w)) == n
  {
    PowEven(w);
    ReadPutLe(if n >= 0 then n else n + Pow256(w), w);
  }
}
