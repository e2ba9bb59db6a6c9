/** Damaged logs: what is read of a log whose bytes were changed after they were written. */
module WalDamage {
  import opened Bytes
  import opened Values
  import opened WalCodec
  import opened WalRoundTrip
  import opened WalTail

  lemma {:induction false} Behind(a: seq<byte>, b: seq<byte>, c: seq<byte>)
    ensures (a + b + c)[|a|..] == b + c && (a + b + c)[|a| + |b|..] == c
  {
  }

  /** Whatever follows whole records, they are read first, at their offsets. */
  lemma {:induction false} ReadThrough(hash: Hash, rs: seq<Record>, file: seq<byte>, pos: nat, more: seq<byte>)
    requires Loggable(rs) && pos <= |file| && file[pos..] == EncodeAll(hash, rs) + more
    ensures pos + |EncodeAll(hash, rs)| <= |file|
    ensures ReadFrom(hash, file, pos) == Placed(hash, rs, pos) + ReadFrom(hash, file, pos + |EncodeAll(hash, rs)|)
    decreases |rs|
  {
    hide PRecord, Encode, RecordOk, DefaultsNonNull, ReadFrom;
    if rs != [] {
      var e, rest := Encode(hash, rs[0]), EncodeAll(hash, rs[1..]);
      Assoc(e, rest, more);
      ReadOne(hash, file, pos, rs[0], rest + more);
      assert file[pos + |e|..] == file[pos..][|e|..];
      Behind([], e, rest + more);
      ReadThrough(hash, rs[1..], file, pos + |e|, more);
      var tail := ReadFrom(hash, file, pos + |EncodeAll(hash, rs)|);
      assert [(pos, rs[0])] + (Placed(hash, rs[1..], pos + |e|) + tail) == Placed(hash, rs, pos) + tail;
    } else {
      assert Placed(hash, rs, pos) + ReadFrom(hash, file, pos) == ReadFrom(hash, file, pos);
    }
  }

  /** No bytes from `pos` on are followed by their checksum. */
  ghost predicate Unsealed(hash: Hash, file: seq<byte>, pos: nat) {
    forall n :: !Sealed(hash, file, pos, n)
  }

  /** Where no bytes are followed by their checksum, nothing is read. */
  lemma {:induction false} UnsealedUnread(hash: Hash, file: seq<byte>, pos: nat)
    requires pos <= |file| && Unsealed(hash, file, pos)
    ensures ReadFrom(hash, file, pos) == []
  {
    hide PRecord, Sealed;
    if PRecord(hash, file[pos..]).Done? {
      var n := RecordSealed(hash, file, pos);
      assert false;
    }
  }

  /** Of a log with any bytes after some whole records these are read, and nothing else unless a checksum fits. */
  lemma {:induction false} DamageFound(hash: Hash, rs: seq<Record>, file: seq<byte>, damage: seq<byte>)
    requires Loggable(rs) && file == HEADER + EncodeAll(hash, rs) + damage
    requires Unsealed(hash, file, 6 + |EncodeAll(hash, rs)|)
    ensures ReadFrom(hash, file, 6) == Placed(hash, rs, 6)
  {
    hide Sealed, ReadFrom, Placed, EncodeAll, Loggable;
    assert file[6..] == EncodeAll(hash, rs) + damage;
    ReadThrough(hash, rs, file, 6, damage);
    UnsealedUnread(hash, file, 6 + |EncodeAll(hash, rs)|);
    assert Placed(hash, rs, 6) + [] == Placed(hash, rs, 6);
  }

  /** Bytes that parse to their old length are not read with a checksum that is not theirs. */
  lemma {:induction false} WrongSum(hash: Hash, file: seq<byte>, pos: nat, d: seq<byte>, h: nat, more: seq<byte>)
    requires pos <= |file| && file[pos..] == d + (PutLe(h, 8) + more) && hash(d) % TWO_64 != h % TWO_64
    requires var tail := PutLe(h, 8) + more; PPayload(d + tail).Done? ==> PPayload(d + tail).rest == tail
    ensures ReadFrom(hash, file, pos) == []
  {
    hide PRecord, PPayload;
    var tail := PutLe(h, 8) + more;
    if PRecord(hash, file[pos..]).Done? {
      var n := RecordSealed(hash, file, pos);
      assert n == |d|;
      assert file[pos..pos + n] == file[pos..][..n] == d;
      assert file[pos + n..pos + n + 8] == file[pos..][n..n + 8] == PutLe(h, 8);
      ReadPutLe(h, 8);
      ReadPutLe(hash(d), 8);
      Widths();
      assert false;
    }
  }

  /**
   * The payload of record `i` was overwritten by bytes of the same length that have another
   * checksum and, if they parse at all, parse to that length: exactly the records before it
   * are read.
   */
  lemma {:induction false} DamagedPayload(hash: Hash, rs: seq<Record>, i: nat, d: seq<byte>, file: seq<byte>)
    requires Loggable(rs) && i < |rs| && |d| == |Payload(rs[i])| && hash(d) % TWO_64 != hash(Payload(rs[i])) % TWO_64
    requires var tail := PutLe(hash(Payload(rs[i])), 8) + EncodeAll(hash, rs[i + 1..]);
             && file == HEADER + EncodeAll(hash, rs[..i]) + (d + tail)
             && (PPayload(d + tail).Done? ==> PPayload(d + tail).rest == tail)
    ensures |file| == |HEADER + EncodeAll(hash, rs)| && ReadFrom(hash, file, 6) == Placed(hash, rs[..i], 6)
  {
    Overwritten(hash, rs, i);
    Prefixed(rs, i);
    var h, more := hash(Payload(rs[i])), EncodeAll(hash, rs[i + 1..]);
    assert |PutLe(h, 8)| == 8;
    hide *;
    DamagedAfter(hash, rs[..i], d, h, more, file);
  }

  lemma {:induction false} DamagedAfter(hash: Hash, rs: seq<Record>, d: seq<byte>, h: nat, more: seq<byte>, file: seq<byte>)
    requires Loggable(rs) && hash(d) % TWO_64 != h % TWO_64
    requires var tail := PutLe(h, 8) + more;
             && file == HEADER + EncodeAll(hash, rs) + (d + tail)
             && (PPayload(d + tail).Done? ==> PPayload(d + tail).rest == tail)
    ensures ReadFrom(hash, file, 6) == Placed(hash, rs, 6)
  {
    var rest, at := d + (PutLe(h, 8) + more), 6 + |EncodeAll(hash, rs)|;
    Behind(HEADER, EncodeAll(hash, rs), rest);
    hide *;
    ReadThrough(hash, rs, file, 6, rest);
    WrongSum(hash, file, at, d, h, more);
    assert Placed(hash, rs, 6) + [] == Placed(hash, rs, 6);
  }

  /** So it is when the bytes are those of another record, as after a value in it was changed. */
  lemma {:induction false} ChangedRecord(hash: Hash, rs: seq<Record>, i: nat, r: Record, file: seq<byte>)
    requires Loggable(rs) && i < |rs| && RecordOk(r) && DefaultsNonNull(r)
    requires |Payload(r)| == |Payload(rs[i])| && hash(Payload(r)) % TWO_64 != hash(Payload(rs[i])) % TWO_64
    requires file == HEADER + EncodeAll(hash, rs[..i]) +
                     (Payload(r) + (PutLe(hash(Payload(rs[i])), 8) + EncodeAll(hash, rs[i + 1..])))
    ensures ReadFrom(hash, file, 6) == Placed(hash, rs[..i], 6)
  {
    hide *;
    PayloadReads(r, PutLe(hash(Payload(rs[i])), 8) + EncodeAll(hash, rs[i + 1..]));
    DamagedPayload(hash, rs, i, Payload(r), file);
  }

  lemma {:induction false} Prefixed(rs: seq<Record>, i: nat)
    requires Loggable(rs) && i <= |rs|
    ensures Loggable(rs[..i])
  {
    hide RecordOk, DefaultsNonNull;
  }

  lemma {:induction false} Overwritten(hash: Hash, rs: seq<Record>, i: nat)
    requires i < |rs|
    ensures |EncodeAll(hash, rs)| == |EncodeAll(hash, rs[..i])| + |Payload(rs[i])| + 8 + |EncodeAll(hash, rs[i + 1..])|
    decreases i
  {
    hide Payload;
    if i > 0 {
      Overwritten(hash, rs[1..], i - 1);
      assert rs[1..][..i - 1] == rs[..i][1..] && rs[1..][i..] == rs[i + 1..];
    } else {
      assert rs[..0] == [];
    }
  }
}
