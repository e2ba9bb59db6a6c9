/** Torn tails: a parser that has read something reads the same when more bytes follow, so no cut record parses. */
module WalTail {
  import opened Bytes
  import opened Values
  import opened WalCodec
  import opened WalRoundTrip

  lemma {:induction false} TakeStable(n: nat, b: seq<byte>, q: seq<byte>)
    requires Take(n, b).Done?
    ensures Take(n, b + q) == Done(Take(n, b).v, Take(n, b).rest + q)
  {
    assert (b + q)[..n] == b[..n] && (b + q)[n..] == b[n..] + q;
  }

  lemma {:induction false} NatStable(w: nat, b: seq<byte>, q: seq<byte>)
    requires PNat(w, b).Done?
    ensures PNat(w, b + q) == Done(PNat(w, b).v, PNat(w, b).rest + q)
  {
    TakeStable(w, b, q);
  }

  lemma {:induction false} SignedStable(w: nat, b: seq<byte>, q: seq<byte>)
    requires PSigned(w, b).Done?
    ensures PSigned(w, b + q) == Done(PSigned(w, b).v, PSigned(w, b).rest + q)
  {
    TakeStable(w, b, q);
  }

  lemma {:induction false} ByteStable(b: seq<byte>, q: seq<byte>)
    requires PByte(b).Done?
    ensures PByte(b + q) == Done(PByte(b).v, PByte(b).rest + q)
  {
  }

  lemma {:induction false} NameStable(b: seq<byte>, q: seq<byte>)
    requires PName(b).Done?
    ensures PName(b + q) == Done(PName(b).v, PName(b).rest + q)
  {
    NatStable(2, b, q);
    TakeStable(PNat(2, b).v, PNat(2, b).rest, q);
  }

  lemma {:induction false} ManyStable<T>(p: Parser<T>, n: nat, b: seq<byte>, q: seq<byte>)
    requires Stable(p) && PMany(p, n, b).Done?
    ensures PMany(p, n, b + q) == Done(PMany(p, n, b).v, PMany(p, n, b).rest + q)
  {
    if n > 0 {
      assert p(b + q) == Done(p(b).v, p(b).rest + q);
      ManyStable(p, n - 1, p(b).rest, q);
    }
  }

  lemma {:induction false} PlainStable(code: byte, b: seq<byte>, q: seq<byte>)
    requires PPlain(code, b).Done?
    ensures PPlain(code, b + q) == Done(PPlain(code, b).v, PPlain(code, b).rest + q)
  {
    hide PSigned, PNat, PByte, PName;
    if code == INT32 || code == DATE {
      SignedStable(4, b, q);
    } else if code == INT64 || code == TIMESTAMP {
      SignedStable(8, b, q);
    } else if code == DOUBLE {
      NatStable(8, b, q);
    } else if code == BOOL {
      ByteStable(b, q);
    } else {
      NameStable(b, q);
    }
  }

  lemma {:induction false} ValueStable(code: byte, b: seq<byte>, q: seq<byte>)
    requires PValue(code, b).Done?
    ensures PValue(code, b + q) == Done(PValue(code, b).v, PValue(code, b).rest + q)
  {
    hide PPlain;
    ByteStable(b, q);
    if PByte(b).v == 0 {
      PlainStable(code, PByte(b).rest, q);
    }
  }

  lemma {:induction false} RowStable(cols: seq<ColType>, b: seq<byte>, q: seq<byte>)
    requires PRow(cols, b).Done?
    ensures PRow(cols, b + q) == Done(PRow(cols, b).v, PRow(cols, b).rest + q)
  {
    hide PValue;
    if cols != [] {
      ValueStable(cols[0].code, b, q);
      RowStable(cols[1..], PValue(cols[0].code, b).rest, q);
    }
  }

  lemma {:induction false} ColStable()
    ensures Stable(PCol)
  {
    forall b, q | PCol(b).Done?
      ensures PCol(b + q) == Done(PCol(b).v, PCol(b).rest + q)
    {
      ByteStable(b, q);
      NatStable(2, PByte(b).rest, q);
    }
  }

  lemma {:induction false} IdStable()
    ensures Stable(PId)
  {
    forall b, q | PId(b).Done?
      ensures PId(b + q) == Done(PId(b).v, PId(b).rest + q)
    {
      NatStable(8, b, q);
    }
  }

  lemma {:induction false} IdsStable(b: seq<byte>, q: seq<byte>)
    requires PIds(b).Done?
    ensures PIds(b + q) == Done(PIds(b).v, PIds(b).rest + q)
  {
    hide PNat, PMany, PId;
    NatStable(8, b, q);
    IdStable();
    ManyStable(PId, PNat(8, b).v, PNat(8, b).rest, q);
  }

  lemma {:induction false} RowsStable(b: seq<byte>, q: seq<byte>)
    requires PRows(b).Done?
    ensures PRows(b + q) == Done(PRows(b).v, PRows(b).rest + q)
  {
    hide PNat, PMany, PCol, PRow;
    NatStable(4, b, q);
    var b1 := PNat(4, b).rest;
    NatStable(2, b1, q);
    var nCols, b2 := PNat(2, b1).v, PNat(2, b1).rest;
    ColStable();
    ManyStable(PCol, nCols, b2, q);
    var cols, b3 := PMany(PCol, nCols, b2).v, PMany(PCol, nCols, b2).rest;
    var p := x => PRow(cols, x);
    forall x, y | p(x).Done?
      ensures p(x + y) == Done(p(x).v, p(x).rest + y)
    {
      RowStable(cols, x, y);
    }
    ManyStable(p, PNat(4, b).v, b3, q);
  }

  lemma {:induction false} DefaultStable(b: seq<byte>, q: seq<byte>)
    requires PDefault(b).Done?
    ensures PDefault(b + q) == Done(PDefault(b).v, PDefault(b).rest + q)
  {
    hide PPlain;
    ByteStable(b, q);
    var b1 := PByte(b).rest;
    if PByte(b).v != 0 {
      ByteStable(b1, q);
      PlainStable(PByte(b1).v, PByte(b1).rest, q);
    }
  }

  lemma {:induction false} ColumnStableAt(b: seq<byte>, q: seq<byte>)
    requires PColumn(b).Done?
    ensures PColumn(b + q) == Done(PColumn(b).v, PColumn(b).rest + q)
  {
    hide PByte, PNat, PName, PDefault;
    ByteStable(b, q);
    var b1 := PByte(b).rest;
    ByteStable(b1, q);
    var b2 := PByte(b1).rest;
    NatStable(2, b2, q);
    var b3 := PNat(2, b2).rest;
    NameStable(b3, q);
    var b4 := PName(b3).rest;
    DefaultStable(b4, q);
  }

  lemma {:induction false} ColumnStable()
    ensures Stable(PColumn)
  {
    hide PColumn;
    forall b, q | PColumn(b).Done?
      ensures PColumn(b + q) == Done(PColumn(b).v, PColumn(b).rest + q)
    {
      ColumnStableAt(b, q);
    }
  }

  lemma {:induction false} BodyStable(tag: byte, table: Name, b: seq<byte>, q: seq<byte>)
    requires PBody(tag, table, b).Done?
    ensures PBody(tag, table, b + q) == Done(PBody(tag, table, b).v, PBody(tag, table, b).rest + q)
  {
    hide PNat, PMany, PIds, PRows, PColumn;
    if tag == TYPE_CREATE {
      NatStable(2, b, q);
      ColumnStable();
      ManyStable(PColumn, PNat(2, b).v, PNat(2, b).rest, q);
    } else if tag == TYPE_DELETE {
      IdsStable(b, q);
    } else if tag == TYPE_UPDATE {
      IdsStable(b, q);
      RowsStable(PIds(b).rest, q);
    } else if tag == TYPE_SEGMENT_FLUSH {
      NatStable(8, b, q);
    } else {
      RowsStable(b, q);
    }
  }

  lemma {:induction false} PayloadStable(b: seq<byte>, q: seq<byte>)
    requires PPayload(b).Done?
    ensures PPayload(b + q) == Done(PPayload(b).v, PPayload(b).rest + q)
  {
    hide PByte, PName, PBody;
    ByteStable(b, q);
    var b1 := PByte(b).rest;
    NameStable(b1, q);
    BodyStable(PByte(b).v, PName(b1).v, PName(b1).rest, q);
  }

  lemma {:induction false} RecordStable(hash: Hash, b: seq<byte>, q: seq<byte>)
    requires PRecord(hash, b).Done?
    ensures PRecord(hash, b + q) == Done(PRecord(hash, b).v, PRecord(hash, b).rest + q)
  {
    hide PPayload, PNat;
    PayloadStable(b, q);
    var b1 := PPayload(b).rest;
    NatStable(8, b1, q);
    assert (b + q)[..|b + q| - |b1 + q|] == b[..|b| - |b1|];
  }

  /** No proper prefix of a record parses as a record. */
  lemma {:induction false} CutRecordFails(hash: Hash, r: Record, cut: nat)
    requires RecordOk(r) && DefaultsNonNull(r) && cut < |Encode(hash, r)|
    ensures PRecord(hash, Encode(hash, r)[..cut]).Fail?
  {
    hide PRecord, Encode, RecordOk, DefaultsNonNull;
    var e := Encode(hash, r);
    var b, q := e[..cut], e[cut..];
    if PRecord(hash, b).Done? {
      RecordStable(hash, b, q);
      assert b + q == e && e + [] == e;
      RecordReads(hash, r, []);
    }
  }

  // ---------------------------------------------------------------- whole files

  ghost predicate Loggable(rs: seq<Record>) {
    forall i :: 0 <= i < |rs| ==> RecordOk(rs[i]) && DefaultsNonNull(rs[i])
  }

  /** The records with the offsets at which they lie when the first is written at `at`. */
  ghost function Placed(hash: Hash, rs: seq<Record>, at: nat): seq<(nat, Record)> {
    if rs == [] then [] else [(at, rs[0])] + Placed(hash, rs[1..], at + |Encode(hash, rs[0])|)
  }

  /** The number of records, written from `at` on, that end no later than `cut`. */
  ghost function Whole(hash: Hash, rs: seq<Record>, at: nat, cut: nat): (n: nat)
    ensures n <= |rs|
  {
    if rs == [] || at + |Encode(hash, rs[0])| > cut then 0
    else 1 + Whole(hash, rs[1..], at + |Encode(hash, rs[0])|, cut)
  }

  /** The first `n` records end before the cut and the next one does not. */
  lemma {:induction false} WholeExact(hash: Hash, rs: seq<Record>, at: nat, cut: nat)
    requires at <= cut
    ensures var n := Whole(hash, rs, at, cut);
            && at + |EncodeAll(hash, rs[..n])| <= cut
            && (n < |rs| ==> at + |EncodeAll(hash, rs[..n + 1])| > cut)
  {
    hide Encode;
    var n := Whole(hash, rs, at, cut);
    if rs == [] {
    } else if at + |Encode(hash, rs[0])| > cut {
      assert rs[..1][1..] == [];
      assert EncodeAll(hash, rs[..1]) == Encode(hash, rs[0]) + EncodeAll(hash, []);
    } else {
      WholeExact(hash, rs[1..], at + |Encode(hash, rs[0])|, cut);
      assert rs[..n][1..] == rs[1..][..n - 1];
      assert n < |rs| ==> rs[..n + 1][1..] == rs[1..][..n];
    }
  }

  lemma {:induction false} ReadOne(hash: Hash, file: seq<byte>, pos: nat, r: Record, rest: seq<byte>)
    requires pos <= |file| && file[pos..] == Encode(hash, r) + rest && RecordOk(r) && DefaultsNonNull(r)
    ensures pos + |Encode(hash, r)| <= |file|
    ensures ReadFrom(hash, file, pos) == [(pos, r)] + ReadFrom(hash, file, pos + |Encode(hash, r)|)
  {
    hide PRecord, Encode, RecordOk, DefaultsNonNull;
    RecordReads(hash, r, rest);
    assert |file| - |rest| == pos + |Encode(hash, r)|;
  }

  /** From the cut log, exactly the records before the cut are read, at their offsets. */
  lemma {:induction false} ReadCut(hash: Hash, rs: seq<Record>, file: seq<byte>, pos: nat)
    requires Loggable(rs) && pos <= |file| && file[pos..] <= EncodeAll(hash, rs)
    ensures ReadFrom(hash, file, pos) == Placed(hash, rs[..Whole(hash, rs, pos, |file|)], pos)
    decreases |rs|
  {
    hide PRecord, Encode, RecordOk, DefaultsNonNull;
    var b := file[pos..];
    if rs == [] {
      NothingToRead(hash, file, pos);
    } else {
      var e, more := Encode(hash, rs[0]), EncodeAll(hash, rs[1..]);
      assert EncodeAll(hash, rs) == e + more;
      if |b| < |e| {
        ShortPrefix(b, e, more);
        CutRecordFails(hash, rs[0], |b|);
      } else {
        SplitPrefix(b, e, more);
        ReadOne(hash, file, pos, rs[0], b[|e|..]);
        assert file[pos + |e|..] == b[|e|..];
        ReadCut(hash, rs[1..], file, pos + |e|);
        var n := Whole(hash, rs, pos, |file|);
        assert rs[..n][1..] == rs[1..][..n - 1] && rs[..n][0] == rs[0];
      }
    }
  }

  lemma SplitPrefix(b: seq<byte>, e: seq<byte>, more: seq<byte>)
    requires b <= e + more && |b| >= |e|
    ensures b == e + b[|e|..] && b[|e|..] <= more
  {
    assert b[..|e|] == (e + more)[..|e|] == e;
    assert b == b[..|e|] + b[|e|..];
  }

  lemma ShortPrefix(b: seq<byte>, e: seq<byte>, more: seq<byte>)
    requires b <= e + more && |b| < |e|
    ensures b == e[..|b|]
  {
  }

  lemma {:induction false} NothingToRead(hash: Hash, file: seq<byte>, pos: nat)
    requires pos <= |file| && file[pos..] == []
    ensures ReadFrom(hash, file, pos) == []
  {
  }

  /** Cutting the log anywhere after its header loses exactly the records that the cut reaches. */
  lemma {:induction false} TornTail(hash: Hash, rs: seq<Record>, cut: nat)
    requires Loggable(rs) && 6 <= cut <= |HEADER + EncodeAll(hash, rs)|
    ensures var file := (HEADER + EncodeAll(hash, rs))[..cut];
            && |file| >= 6 && file[..4] == MAGIC
            && ReadFrom(hash, file, 6) == Placed(hash, rs[..Whole(hash, rs, 6, cut)], 6)
  {
    hide ReadFrom, Placed, EncodeAll, Loggable;
    var file := (HEADER + EncodeAll(hash, rs))[..cut];
    assert file[6..] == EncodeAll(hash, rs)[..cut - 6];
    ReadCut(hash, rs, file, 6);
  }

  // ---------------------------------------------------------------- NULL defaults

  lemma {:induction false} SchemaNeverNull(n: nat, b: seq<byte>)
    ensures PMany(PColumn, n, b).Done? ==> forall i :: 0 <= i < |PMany(PColumn, n, b).v| ==> NonNullDefault(PMany(PColumn, n, b).v[i])
  {
    hide PColumn, NonNullDefault;
    if n > 0 && PColumn(b).Done? {
      ColumnNeverNull(b);
      SchemaNeverNull(n - 1, PColumn(b).rest);
    }
  }

  lemma {:induction false} ColumnNeverNull(b: seq<byte>)
    ensures PColumn(b).Done? ==> NonNullDefault(PColumn(b).v)
  {
    hide PNat, PName, PByte, PSigned;
  }

  /** Whatever the bytes, the reader never returns a schema with a NULL default. */
  lemma {:induction false} RecordNeverNull(hash: Hash, b: seq<byte>)
    ensures PRecord(hash, b).Done? ==> DefaultsNonNull(PRecord(hash, b).v)
  {
    hide PNat, PName, PColumn, PMany, PRows, PIds, NonNullDefault;
    var p := PByte(b);
    if p.Done? && p.v == TYPE_CREATE {
      var name := PName(p.rest);
      if name.Done? && PNat(2, name.rest).Done? {
        SchemaNeverNull(PNat(2, name.rest).v, PNat(2, name.rest).rest);
      }
    }
  }

  /** Within the widths of the format, a record is read back exactly when it has no NULL default: the writer gives
      such a default the type INT32 and no bytes. */
  lemma {:induction false} ReadBackIff(hash: Hash, r: Record)
    requires RecordOk(r)
    ensures DefaultsNonNull(r) <==> PRecord(hash, Encode(hash, r)) == Done(r, [])
  {
    hide PRecord, Encode, RecordOk, DefaultsNonNull;
    if DefaultsNonNull(r) {
      RecordReads(hash, r, []);
      assert Encode(hash, r) + [] == Encode(hash, r);
    } else {
      RecordNeverNull(hash, Encode(hash, r));
    }
  }
}
