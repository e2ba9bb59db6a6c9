/** Vacuum: rewrites the sealed segments of a table without their dead rows. */
module Vacuuming {
  import opened Values
  import opened Bitmap
  import opened ColumnPages
  import opened ColumnFiles
  import opened RowStore
  import opened Tables
  import opened FileImages
  import opened SegmentMerging

  /** How the vacuum reads a bit: only an empty bitmap is guarded. */
  predicate Gone(bm: Bits, r: nat)
    requires bm != [] ==> r / 8 < |bm|
  {
    bm != [] && ByteBit(bm[r / 8], r % 8)
  }

  /** The first `n` values without those whose bit is set. */
  function Kept(vs: seq<Value>, bm: Bits, n: nat): seq<Value>
    requires n <= |vs|
  {
    if n == 0 then [] else Kept(vs, bm, n - 1) + if Bit(bm, n - 1) then [] else [vs[n - 1]]
  }

  function DeadBits(bm: Bits, n: nat): (d: nat)
    ensures d <= n
  {
    if n == 0 then 0 else DeadBits(bm, n - 1) + if Bit(bm, n - 1) then 1 else 0
  }

  /** The rows of a segment that have no tombstone, in order. */
  function LiveRows(cols: Columns, bm: Bits, n: nat): (rows: seq<Row>)
    ensures |rows| == n - DeadBits(bm, n)
  {
    if n == 0 then [] else LiveRows(cols, bm, n - 1) + if Bit(bm, n - 1) then [] else [RowAt(cols, n - 1)]
  }

  function LiveIn(segs: seq<Segment>, n: nat): (rows: seq<Row>)
    requires n <= |segs|
    ensures |rows| == Ends(segs, n) - DeadTo(segs, n)
  {
    if n == 0 then []
    else LiveIn(segs, n - 1) + LiveRows(segs[n - 1].columns, segs[n - 1].deleted, segs[n - 1].count)
  }

  function DeadTo(segs: seq<Segment>, n: nat): (d: nat)
    requires n <= |segs|
    ensures d <= Ends(segs, n)
  {
    if n == 0 then 0 else DeadTo(segs, n - 1) + DeadBits(segs[n - 1].deleted, segs[n - 1].count)
  }

  lemma {:induction false} GoneIsBit(bm: Bits, n: nat, r: nat)
    requires Covers(bm, n) && r < n
    ensures bm != [] ==> r / 8 < |bm|
    ensures Gone(bm, r) <==> Bit(bm, r)
  {
  }

  method CountDead(s: Segment) returns (dead: nat)
    requires Covers(s.deleted, s.count)
    ensures dead == DeadBits(s.deleted, s.count)
  {
    hide Bit, Gone;
    dead := 0;
    for r := 0 to s.count
      invariant dead == DeadBits(s.deleted, r)
    {
      GoneIsBit(s.deleted, s.count, r);
      if Gone(s.deleted, r) {
        dead := dead + 1;
      }
    }
  }

  /** Appends the live values among the first rows of a column file to another. */
  method CopyColumnFiltered(src: ColumnFile, dst: ColumnFile, bm: Bits)
    requires src.Valid() && dst.Valid() && src != dst && src.page != dst.page && src.kind == dst.kind
    requires Covers(bm, |src.Rows()|)
    modifies dst`disk, dst`currentId, dst`dirty, dst.page
    ensures dst.Valid() && dst.Rows() == old(dst.Rows()) + Kept(src.Rows(), bm, |src.Rows()|)
  {
    hide PageOf, Contents, ColumnFile.Valid, ColumnFile.Rows, PagesTo, Kept;
    ghost var start, rows := dst.Rows(), src.Rows();
    var id, row := 0, 0;
    PagesNone(src);
    KeptNone(rows, bm);
    while id <= src.currentId
      invariant id <= src.currentId + 1 && src.Valid() && dst.Valid() && src.Rows() == rows
      invariant row == |PagesTo(src, id)| <= |rows|
      invariant dst.Rows() == start + Kept(rows, bm, row)
    {
      var p := src.ReadPage(id);
      PagesNext(src, id);
      PagesPrefix(src, id + 1);
      row := CopyPageFiltered(dst, p.value, bm, row, start, rows, PagesTo(src, id));
      id := id + 1;
    }
    PagesAll(src);
  }

  method CopyPageFiltered(dst: ColumnFile, p: PageImage, bm: Bits, row: nat,
                          ghost start: seq<Value>, ghost rows: seq<Value>, ghost done: seq<Value>)
    returns (row': nat)
    requires dst.Valid() && PageOf(dst.kind, p) && Covers(bm, |rows|)
    requires row == |done| && done + Contents(p) <= rows && dst.Rows() == start + Kept(rows, bm, row)
    modifies dst`disk, dst`currentId, dst`dirty, dst.page
    ensures dst.Valid() && row' == row + p.count <= |rows| && dst.Rows() == start + Kept(rows, bm, row')
  {
    hide PageOf, ColumnFile.Valid, ColumnFile.Rows, Accepts, SlotValue, Bit, Gone;
    row' := row;
    var i := 0;
    while i < p.count
      invariant i <= p.count && row' == row + i && dst.Valid()
      invariant dst.Rows() == start + Kept(rows, bm, row')
    {
      assert rows[row'] == (done + Contents(p))[row'] == Contents(p)[i];
      GoneIsBit(bm, |rows|, row');
      if !Gone(bm, row') {
        PageAccepted(dst.kind, p, i);
        Joined(start, Kept(rows, bm, row'), [SlotValue(p, i)]);
        var ok := dst.Append(SlotValue(p, i));
      }
      row' := row' + 1;
      i := i + 1;
    }
  }

  lemma {:induction false} KeptNone(vs: seq<Value>, bm: Bits)
    ensures Kept(vs, bm, 0) == []
  {
  }

  lemma {:induction false} PagesPrefix(f: ColumnFile, id: nat)
    requires f.Valid() && id <= f.currentId + 1
    ensures PagesTo(f, id) <= f.Rows()
  {
    if id <= f.currentId {
      StoredPrefix(f.disk, f.currentId, id);
    }
  }

  // ---- the table ----

  /** The segments that a vacuum can take: row-aligned, with bitmaps it can read. */
  ghost predicate Readable(schema: Schema, segs: seq<Segment>) {
    forall i :: 0 <= i < |segs| ==> ReadableOne(schema, segs[i])
  }

  ghost predicate ReadableOne(schema: Schema, s: Segment) {
    Aligned(s.columns, |schema|, s.count) && Covers(s.deleted, s.count)
  }

  /** The live values of column `c` of the first `n` segments. */
  ghost function KeptIn(segs: seq<Segment>, n: nat, c: nat): seq<Value>
    requires n <= |segs|
  {
    if n == 0 then [] else KeptIn(segs, n - 1, c) + KeptOf(segs[n - 1], c)
  }

  ghost function KeptOf(s: Segment, c: nat): seq<Value> {
    if c < |s.columns| && s.count <= |s.columns[c]| then Kept(s.columns[c], s.deleted, s.count) else []
  }

  ghost function KeptColumns(segs: seq<Segment>, n: nat, width: nat): (cols: Columns)
    requires n <= |segs|
    ensures |cols| == width && forall c :: 0 <= c < width ==> cols[c] == KeptIn(segs, n, c)
  {
    seq(width, c requires 0 <= c < width => KeptIn(segs, n, c))
  }

  /** Opens a file and appends its live values to another. */
  method AppendLive(img: FileImage, dst: ColumnFile, bm: Bits, ghost vs: seq<Value>)
    requires dst.Valid() && Holds(dst.kind, img, vs) && Covers(bm, |vs|)
    modifies dst`disk, dst`currentId, dst`dirty, dst.page
    ensures dst.Valid() && dst.Rows() == old(dst.Rows()) + Kept(vs, bm, |vs|)
  {
    hide ImageOk, CapacityOf, ColumnFile.Valid, ColumnFile.Rows, PageValues, Covers, Kept;
    var src := OpenImage(img);
    CopyColumnFiltered(src, dst, bm);
  }

  lemma {:induction false} NoneKeptIn(segs: seq<Segment>, c: nat)
    ensures KeptIn(segs, 0, c) == []
  {
  }

  lemma {:induction false} KeptInNext(schema: Schema, segs: seq<Segment>, n: nat, c: nat)
    requires Readable(schema, segs) && n < |segs| && c < |schema|
    ensures c < |segs[n].columns| && Covers(segs[n].deleted, |segs[n].columns[c]|)
    ensures var vs := segs[n].columns[c]; KeptIn(segs, n + 1, c) == KeptIn(segs, n, c) + Kept(vs, segs[n].deleted, |vs|)
  {
    assert ReadableOne(schema, segs[n]);
    hide Kept, Covers;
  }

  method AppendSegment(schema: Schema, files: seq<seq<FileImage>>, snaps: seq<Segment>, ci: nat, i: nat, dst: ColumnFile)
    requires Readable(schema, snaps) && BackedAll(schema, files, snaps) && ci < |schema| && i < |snaps|
    requires dst.Valid() && dst.kind == schema[ci] && dst.Rows() == KeptIn(snaps, i, ci)
    modifies dst`disk, dst`currentId, dst`dirty, dst.page
    ensures dst.Valid() && dst.Rows() == KeptIn(snaps, i + 1, ci)
  {
    BackedColumn(schema, files, snaps, i, ci);
    KeptInNext(schema, snaps, i, ci);
    hide *;
    AppendLive(files[i][ci], dst, snaps[i].deleted, snaps[i].columns[ci]);
  }

  /** Appends the live values of one column: the files of the segments, one after the other. */
  method AppendSegments(schema: Schema, files: seq<seq<FileImage>>, snaps: seq<Segment>, ci: nat, dst: ColumnFile)
    requires Readable(schema, snaps) && BackedAll(schema, files, snaps) && ci < |schema|
    requires dst.Valid() && dst.kind == schema[ci] && dst.Rows() == []
    modifies dst`disk, dst`currentId, dst`dirty, dst.page
    ensures dst.Valid() && dst.Rows() == KeptIn(snaps, |snaps|, ci)
  {
    NoneKeptIn(snaps, ci);
    hide *;
    for i := 0 to |snaps|
      invariant dst.Valid() && dst.Rows() == KeptIn(snaps, i, ci)
    {
      AppendSegment(schema, files, snaps, ci, i, dst);
    }
  }

  /** Writes one column without its dead rows into a new file. */
  method FilterColumn(schema: Schema, files: seq<seq<FileImage>>, snaps: seq<Segment>, ci: nat) returns (img: FileImage)
    requires Readable(schema, snaps) && BackedAll(schema, files, snaps) && snaps != [] && ci < |schema|
    ensures Holds(schema[ci], img, KeptIn(snaps, |snaps|, ci))
  {
    BackedColumn(schema, files, snaps, 0, ci);
    hide *;
    var dst := new ColumnFile.Create(schema[ci]);
    AppendSegments(schema, files, snaps, ci, dst);
    img := ScanPages(dst);
  }

  method FilterColumns(schema: Schema, files: seq<seq<FileImage>>, snaps: seq<Segment>) returns (out: seq<FileImage>)
    requires Readable(schema, snaps) && BackedAll(schema, files, snaps) && snaps != []
    ensures Backed(schema, out, KeptColumns(snaps, |snaps|, |schema|))
    ensures ValuesOf(out) == KeptColumns(snaps, |snaps|, |schema|)
  {
    hide ImageOk, CapacityOf, KeptIn, PageValues, BackedAll, Readable;
    out := [];
    var ci := 0;
    while ci < |schema|
      invariant ci == |out| <= |schema|
      invariant forall c :: 0 <= c < ci ==> Holds(schema[c], out[c], KeptIn(snaps, |snaps|, c))
    {
      var img := FilterColumn(schema, files, snaps, ci);
      out := out + [img];
      ci := ci + 1;
    }
  }

  /** All columns of a segment lose the same rows. */
  lemma {:induction false} KeptLength(vs: seq<Value>, bm: Bits, n: nat)
    requires n <= |vs|
    ensures |Kept(vs, bm, n)| == n - DeadBits(bm, n)
  {
    hide Bit;
    if n > 0 {
      KeptLength(vs, bm, n - 1);
    }
  }

  ghost function KeptCols(cols: Columns, bm: Bits, n: nat): (r: Columns)
    requires forall c :: 0 <= c < |cols| ==> n <= |cols[c]|
    ensures |r| == |cols| && forall c :: 0 <= c < |cols| ==> r[c] == Kept(cols[c], bm, n)
  {
    seq(|cols|, c requires 0 <= c < |cols| => Kept(cols[c], bm, n))
  }

  lemma {:induction false} KeptRows(cols: Columns, bm: Bits, n: nat)
    requires forall c :: 0 <= c < |cols| ==> n <= |cols[c]|
    ensures RowsOf(KeptCols(cols, bm, n), n - DeadBits(bm, n)) == LiveRows(cols, bm, n)
  {
    hide Bit;
    if n > 0 {
      KeptRows(cols, bm, n - 1);
      var a, b := KeptCols(cols, bm, n - 1), KeptCols(cols, bm, n);
      var m := n - 1 - DeadBits(bm, n - 1);
      forall c | 0 <= c < |cols|
        ensures |a[c]| == m
      {
        KeptLength(cols[c], bm, n - 1);
      }
      if Bit(bm, n - 1) {
        assert forall c :: 0 <= c < |cols| ==> b[c] == a[c];
        assert a == b;
      } else {
        KeptRowAdded(cols, a, b, m, n - 1);
      }
    }
  }

  lemma {:induction false} KeptRowAdded(cols: Columns, a: Columns, b: Columns, m: nat, i: nat)
    requires |a| == |b| == |cols| && forall c :: 0 <= c < |cols| ==> |a[c]| == m && i < |cols[c]| && b[c] == a[c] + [cols[c][i]]
    ensures RowsOf(b, m + 1) == RowsOf(a, m) + [RowAt(cols, i)]
  {
    forall k | 0 <= k < m + 1
      ensures RowAt(b, k) == (RowsOf(a, m) + [RowAt(cols, i)])[k]
    {
      if k < m {
        assert RowAt(b, k) == RowAt(a, k);
      } else {
        assert RowAt(b, k) == RowAt(cols, i);
      }
    }
  }

  /** The rewritten columns are aligned and hold the live rows. */
  lemma {:induction false} KeptColumnsOk(schema: Schema, segs: seq<Segment>, n: nat)
    requires Readable(schema, segs) && n <= |segs|
    ensures HoldsRows(|schema|, KeptColumns(segs, n, |schema|), LiveIn(segs, n))
  {
    if n > 0 {
      var s := segs[n - 1];
      assert ReadableOne(schema, s);
      var a, b := KeptColumns(segs, n - 1, |schema|), KeptCols(s.columns, s.deleted, s.count);
      hide *;
      KeptColumnsOk(schema, segs, n - 1);
      KeptOne(schema, s);
      KeptNext(schema, segs, n);
      RowsJoined(|schema|, a, b, KeptColumns(segs, n, |schema|), LiveIn(segs, n - 1), LiveRows(s.columns, s.deleted, s.count));
    } else {
      NoneKept(segs, |schema|);
    }
  }

  lemma {:induction false} NoneKept(segs: seq<Segment>, width: nat)
    ensures HoldsRows(width, KeptColumns(segs, 0, width), LiveIn(segs, 0))
  {
  }

  lemma {:induction false} KeptOne(schema: Schema, s: Segment)
    requires ReadableOne(schema, s)
    ensures var b := KeptCols(s.columns, s.deleted, s.count);
            HoldsRows(|schema|, b, LiveRows(s.columns, s.deleted, s.count))
  {
    KeptRows(s.columns, s.deleted, s.count);
    hide Kept, LiveRows, DeadBits, RowsOf;
    var b := KeptCols(s.columns, s.deleted, s.count);
    forall c | 0 <= c < |schema|
      ensures |b[c]| == s.count - DeadBits(s.deleted, s.count)
    {
      KeptLength(s.columns[c], s.deleted, s.count);
    }
  }

  lemma {:induction false} KeptNext(schema: Schema, segs: seq<Segment>, n: nat)
    requires 0 < n <= |segs| && ReadableOne(schema, segs[n - 1])
    ensures var s := segs[n - 1];
            var a, b, ab := KeptColumns(segs, n - 1, |schema|), KeptCols(s.columns, s.deleted, s.count), KeptColumns(segs, n, |schema|);
            Pasted(|schema|, a, b, ab)
    ensures LiveIn(segs, n) == LiveIn(segs, n - 1) + LiveRows(segs[n - 1].columns, segs[n - 1].deleted, segs[n - 1].count)
  {
    hide Kept;
  }

  /** Aligned columns that hold the given rows. */
  ghost predicate HoldsRows(width: nat, cols: Columns, rows: seq<Row>) {
    Aligned(cols, width, |rows|) && RowsOf(cols, |rows|) == rows
  }

  /** Each column of `ab` is that of `a` followed by that of `b`. */
  ghost predicate Pasted(width: nat, a: Columns, b: Columns, ab: Columns) {
    |a| == |b| == |ab| == width && forall c :: 0 <= c < width ==> ab[c] == a[c] + b[c]
  }

  lemma {:induction false} RowsJoined(width: nat, a: Columns, b: Columns, ab: Columns, la: seq<Row>, lb: seq<Row>)
    requires HoldsRows(width, a, la) && HoldsRows(width, b, lb) && Pasted(width, a, b, ab)
    ensures HoldsRows(width, ab, la + lb)
  {
    var m, n := |la|, |lb|;
    forall i | 0 <= i < m + n
      ensures RowAt(ab, i) == (RowsOf(a, m) + RowsOf(b, n))[i]
    {
      if i < m {
        assert RowAt(ab, i) == RowAt(a, i);
      } else {
        assert RowAt(ab, i) == RowAt(b, i - m);
      }
    }
  }

  lemma {:induction false} AllLive(cols: Columns, n: nat)
    ensures LiveRows(cols, [], n) == RowsOf(cols, n) && DeadBits([], n) == 0
  {
    if n > 0 {
      AllLive(cols, n - 1);
    }
  }

  /** Of a table in order, what a vacuum can read are the segments whose bitmaps cover them. */
  lemma {:induction false} ReadableIff(t: Table)
    requires t.Valid()
    ensures Readable(t.schema, t.segments) <==> AllCover(t.segments)
  {
    forall i | 0 <= i < |t.segments|
      ensures Aligned(t.segments[i].columns, |t.schema|, t.segments[i].count)
    {
      SegBounds(t.schema, t.segments, i);
    }
    hide Covers, Aligned, Contiguous;
    if Readable(t.schema, t.segments) {
      forall i | 0 <= i < |t.segments|
        ensures Covers(t.segments[i].deleted, t.segments[i].count)
      {
        assert ReadableOne(t.schema, t.segments[i]);
      }
    }
  }

  /**
   * Eight rows, a tombstone, and the ninth row that seals the segment: its bitmap has one byte
   * for nine rows, and a vacuum would read past its end.
   */
  method ShortBitmap(k: Kind, v: Value) returns (t: Table)
    requires Accepts(k, v)
    ensures t.Valid() && |t.View().rows| == 9 && !AllCover(t.segments)
  {
    t := new Table([k], 9);
    var rows := seq(8, _ => [v]);
    OneColumn(k, rows);
    OneColumn(k, [[v]]);
    RowCounts(t);
    hide RowsFit, Table.Valid, ViewOf, Accepts, AllCover;
    var ok := t.InsertMany(rows);
    RowCounts(t);
    t.MarkDeleted([0]);
    RowCounts(t);
    assert 0 in [0];
    ok := t.InsertMany([[v]]);
    RowCounts(t);
  }

  lemma {:induction false} OneColumn(k: Kind, rows: seq<Row>)
    requires forall r :: 0 <= r < |rows| ==> |rows[r]| == 1 && Accepts(k, rows[r][0])
    ensures RowsFit([k], rows)
  {
    hide Accepts;
  }

  /**
   * Rewrites all sealed segments as one without dead rows and returns how many there were.
   * The live sealed rows and their order stay, and the write buffer is not touched.
   */
  method VacuumTable(t: Table, files: seq<seq<FileImage>>) returns (dead: nat, files': seq<seq<FileImage>>)
    requires t.Valid() && AllCover(t.segments) && BackedAll(t.schema, files, t.segments)
    modifies t`segments, t`nextId
    ensures dead == DeadTo(old(t.segments), |old(t.segments)|)
    ensures LiveIn(t.segments, |t.segments|) == LiveIn(old(t.segments), |old(t.segments)|)
    ensures Readable(t.schema, t.segments) && BackedAll(t.schema, files', t.segments)
    ensures dead == 0 ==> t.segments == old(t.segments)
    ensures dead > 0 ==> |t.segments| == 1 && t.segments[0].deleted == [] && t.segments[0].base == old(t.segments)[0].base
    ensures DeadTo(t.segments, |t.segments|) == 0
  {
    ReadableIff(t);
    if t.segments == [] {
      return 0, files;
    }
    hide *;
    var snaps, live := t.segments, 0;
    dead, live := CountRows(t.schema, snaps);
    if dead == 0 {
      return dead, files;
    }
    var out := FilterColumns(t.schema, files, snaps);
    ghost var seg := Segment(t.nextId, snaps[0].base, live, ValuesOf(out), []);
    Rewritten(t.schema, snaps, seg);
    BackedReplaced(t.schema, files, snaps, |snaps|, out, seg);
    NoneLeft(t.schema, files, snaps, out);
    t.ReplaceSegments(|snaps|, snaps[0].base, live, ValuesOf(out), []);
    files' := [out];
  }

  lemma {:induction false} NoneLeft(schema: Schema, files: seq<seq<FileImage>>, segs: seq<Segment>, out: seq<FileImage>)
    requires BackedAll(schema, files, segs)
    ensures |files| == |segs| && [out] + files[|segs|..] == [out]
  {
  }

  method CountRows(schema: Schema, snaps: seq<Segment>) returns (dead: nat, live: nat)
    requires Readable(schema, snaps)
    ensures dead == DeadTo(snaps, |snaps|) && live == |LiveIn(snaps, |snaps|)|
  {
    hide LiveRows, DeadBits, Covers, Aligned, Bit;
    dead, live := 0, 0;
    for i := 0 to |snaps|
      invariant dead == DeadTo(snaps, i) && live == |LiveIn(snaps, i)|
    {
      assert ReadableOne(schema, snaps[i]);
      var d := CountDead(snaps[i]);
      dead := dead + d;
      live := live + (snaps[i].count - d);
    }
  }

  lemma {:induction false} Rewritten(schema: Schema, segs: seq<Segment>, seg: Segment)
    requires Readable(schema, segs) && seg.columns == KeptColumns(segs, |segs|, |schema|)
    requires seg.count == |LiveIn(segs, |segs|)| && seg.deleted == []
    ensures LiveIn([seg], 1) == LiveIn(segs, |segs|) && DeadTo([seg], 1) == 0
    ensures Readable(schema, [seg]) && [seg] + segs[|segs|..] == [seg]
  {
    KeptColumnsOk(schema, segs, |segs|);
    AllLive(seg.columns, seg.count);
    OneSegment([seg]);
    hide LiveIn, DeadTo, KeptColumns, RowsOf, LiveRows, DeadBits, Aligned;
    assert ReadableOne(schema, seg);
  }

  lemma {:induction false} OneSegment(segs: seq<Segment>)
    requires |segs| == 1
    ensures LiveIn(segs, 1) == LiveRows(segs[0].columns, segs[0].deleted, segs[0].count)
    ensures DeadTo(segs, 1) == DeadBits(segs[0].deleted, segs[0].count)
  {
    assert LiveIn(segs, 0) == [];
  }
}
