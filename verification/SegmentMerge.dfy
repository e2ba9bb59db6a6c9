/** Merging the oldest segments of a table into one. */
module SegmentMerging {
  import opened Values
  import opened Bitmap
  import opened ColumnPages
  import opened ColumnFiles
  import opened RowStore
  import opened Tables
  import opened FileImages

  /** Appends every value of one column file to another. */
  method CopyColumn(src: ColumnFile, dst: ColumnFile)
    requires src.Valid() && dst.Valid() && src != dst && src.page != dst.page && src.kind == dst.kind
    modifies dst`disk, dst`currentId, dst`dirty, dst.page
    ensures dst.Valid() && dst.Rows() == old(dst.Rows()) + src.Rows()
    ensures src.Valid() && src.Rows() == old(src.Rows())
  {
    hide PageOf, Contents, ColumnFile.Valid, ColumnFile.Rows, PagesTo;
    ghost var start := dst.Rows();
    var id := 0;
    PagesNone(src);
    while id <= src.currentId
      invariant id <= src.currentId + 1 && src.Valid() && dst.Valid() && src.Rows() == old(src.Rows())
      invariant dst.Rows() == start + PagesTo(src, id)
    {
      var p := src.ReadPage(id);
      PagesNext(src, id);
      CopyPage(dst, p.value);
      Joined(start, PagesTo(src, id), Contents(p.value));
      id := id + 1;
    }
    PagesAll(src);
  }

  /** The rows on the first pages of a file, the current page included. */
  ghost function PagesTo(f: ColumnFile, id: nat): seq<Value>
    requires f.Valid() && id <= f.currentId + 1
    reads f, f.page
  {
    if id <= f.currentId then Stored(f.disk, id) else f.Rows()
  }

  lemma {:induction false} PagesNext(f: ColumnFile, id: nat)
    requires f.Valid() && id <= f.currentId
    ensures f.PageAt(id).Some? && PagesTo(f, id + 1) == PagesTo(f, id) + Contents(f.PageAt(id).value)
  {
    hide Contents, PageOk;
  }

  lemma {:induction false} PagesNone(f: ColumnFile)
    requires f.Valid()
    ensures PagesTo(f, 0) == []
  {
  }

  lemma {:induction false} PagesAll(f: ColumnFile)
    requires f.Valid()
    ensures PagesTo(f, f.currentId + 1) == f.Rows()
  {
  }

  lemma {:induction false} PageAccepted(k: Kind, p: PageImage, i: nat)
    requires PageOf(k, p) && i < p.count
    ensures Accepts(k, SlotValue(p, i))
  {
    assert Contents(p)[i] == SlotValue(p, i);
  }

  method CopyPage(dst: ColumnFile, p: PageImage)
    requires dst.Valid() && PageOf(dst.kind, p)
    modifies dst`disk, dst`currentId, dst`dirty, dst.page
    ensures dst.Valid() && dst.Rows() == old(dst.Rows()) + Contents(p)
  {
    hide ColumnFile.Valid, ColumnFile.Rows, PageOf, Accepts, SlotValue;
    ghost var start := dst.Rows();
    var i := 0;
    while i < p.count
      invariant i <= p.count && dst.Valid() && dst.Rows() == start + Contents(p)[..i]
    {
      PageAccepted(dst.kind, p, i);
      var ok := dst.Append(SlotValue(p, i));
      Joined(start, Contents(p)[..i], [Contents(p)[i]]);
      assert Contents(p)[..i + 1] == Contents(p)[..i] + [Contents(p)[i]];
      i := i + 1;
    }
    assert Contents(p)[..i] == Contents(p);
  }

  // ---- merging tombstones ----

  /** The bits of `bm` below `n` are the tombstones of the segments. */
  ghost predicate BitsTo(bm: Bits, segs: seq<Segment>, n: nat) {
    forall id: nat :: Bit(bm, id) <==> id < n && DeadIn(segs, id)
  }

  method MergeDeletedBitmaps(schema: Schema, snaps: seq<Segment>) returns (merged: Bits)
    requires Contiguous(schema, snaps)
    ensures BitsTo(merged, snaps, Ends(snaps, |snaps|)) && Covers(merged, Ends(snaps, |snaps|))
  {
    var total, any := 0, false;
    var i := 0;
    while i < |snaps|
      invariant i <= |snaps| && total == Ends(snaps, i)
      invariant !any ==> forall j :: 0 <= j < i ==> snaps[j].deleted == []
    {
      total := total + snaps[i].count;
      if snaps[i].deleted != [] {
        any := true;
      }
      i := i + 1;
    }
    if !any || total == 0 {
      NoBits(snaps, total);
      return [];
    }
    merged := Zeros(BytesFor(total));
    forall id: nat {
      ZerosAt(BytesFor(total), id);
    }
    hide Bit, DeadIn, Contiguous;
    var offset := 0;
    i := 0;
    while i < |snaps|
      invariant i <= |snaps| && offset == Ends(snaps, i) && |merged| == BytesFor(total)
      invariant BitsTo(merged, snaps, offset)
    {
      EndsGrow(snaps, i + 1, |snaps|);
      merged := MergeBits(schema, snaps, i, offset, merged, total);
      offset := offset + snaps[i].count;
      i := i + 1;
    }
  }

  method MergeBits(schema: Schema, snaps: seq<Segment>, i: nat, offset: nat, bm: Bits, total: nat) returns (merged: Bits)
    requires Contiguous(schema, snaps) && i < |snaps| && offset == Ends(snaps, i)
    requires offset + snaps[i].count <= total && |bm| == BytesFor(total) && BitsTo(bm, snaps, offset)
    ensures |merged| == |bm| && BitsTo(merged, snaps, offset + snaps[i].count)
  {
    hide Bit, DeadIn, Contiguous, SetBit;
    SegBounds(schema, snaps, i);
    merged := bm;
    var r := 0;
    while r < snaps[i].count
      invariant r <= snaps[i].count && |merged| == |bm| && BitsTo(merged, snaps, offset + r)
    {
      OnlyHolder(schema, snaps, offset + r, i);
      if Bit(snaps[i].deleted, r) {
        BitsSet(merged, snaps, offset + r);
        merged := SetBit(merged, offset + r);
      } else {
        BitsSkip(merged, snaps, offset + r);
      }
      r := r + 1;
    }
  }

  lemma {:induction false} BitsSet(bm: Bits, segs: seq<Segment>, n: nat)
    requires BitsTo(bm, segs, n) && n / 8 < |bm| && DeadIn(segs, n)
    ensures BitsTo(SetBit(bm, n), segs, n + 1)
  {
    hide Bit, SetBit, DeadIn;
    forall id: nat
      ensures Bit(SetBit(bm, n), id) <==> id < n + 1 && DeadIn(segs, id)
    {
      SetBitAt(bm, n, id);
    }
  }

  lemma {:induction false} BitsSkip(bm: Bits, segs: seq<Segment>, n: nat)
    requires BitsTo(bm, segs, n) && !DeadIn(segs, n)
    ensures BitsTo(bm, segs, n + 1)
  {
    hide Bit, DeadIn;
  }

  lemma {:induction false} NoBits(segs: seq<Segment>, total: nat)
    requires total == 0 || forall j :: 0 <= j < |segs| ==> segs[j].deleted == []
    ensures BitsTo([], segs, total)
  {
    forall id: nat | id < total
      ensures !DeadIn(segs, id)
    {
      forall i | 0 <= i < |segs|
        ensures !SegDead(segs[i], id)
      {
      }
    }
  }

  // ---- merging columns ----

  /** Column `c` of the first `n` segments, end to end. */
  function Chained(segs: seq<Segment>, n: nat, c: nat): seq<Value>
    requires n <= |segs|
  {
    if n == 0 then []
    else Chained(segs, n - 1, c) + if c < |segs[n - 1].columns| then segs[n - 1].columns[c] else []
  }

  function ChainedColumns(segs: seq<Segment>, n: nat, width: nat): (cols: Columns)
    requires n <= |segs|
    ensures |cols| == width && forall c :: 0 <= c < width ==> cols[c] == Chained(segs, n, c)
  {
    seq(width, c requires 0 <= c < width => Chained(segs, n, c))
  }

  /** The columns of every segment are those that its files hold. */
  ghost predicate BackedAll(schema: Schema, files: seq<seq<FileImage>>, segs: seq<Segment>) {
    |files| == |segs| && forall i :: 0 <= i < |segs| ==> Backed(schema, files[i], segs[i].columns)
  }

  lemma {:induction false} BackedColumn(schema: Schema, files: seq<seq<FileImage>>, segs: seq<Segment>, i: nat, c: nat)
    requires BackedAll(schema, files, segs) && i < |segs| && c < |schema|
    ensures |files[i]| == |segs[i].columns| == |schema| && Holds(schema[c], files[i][c], segs[i].columns[c])
    ensures CapacityOf(schema[c]) >= 1 && |files| == |segs|
  {
    assert Backed(schema, files[i], segs[i].columns);
    hide PageOf, FullPage, PageValues;
  }

  lemma {:induction false} NoneChained(segs: seq<Segment>, c: nat)
    ensures Chained(segs, 0, c) == []
  {
  }

  lemma {:induction false} ChainedNext(segs: seq<Segment>, n: nat, c: nat)
    requires n < |segs| && c < |segs[n].columns|
    ensures Chained(segs, n + 1, c) == Chained(segs, n, c) + segs[n].columns[c]
  {
  }

  /** Opens a file and appends its values to another. */
  method AppendImage(img: FileImage, dst: ColumnFile, ghost vs: seq<Value>)
    requires dst.Valid() && Holds(dst.kind, img, vs)
    modifies dst`disk, dst`currentId, dst`dirty, dst.page
    ensures dst.Valid() && dst.Rows() == old(dst.Rows()) + vs
  {
    hide ImageOk, CapacityOf, ColumnFile.Valid, ColumnFile.Rows, PageValues;
    var src := OpenImage(img);
    CopyColumn(src, dst);
  }

  method AppendSegment(schema: Schema, files: seq<seq<FileImage>>, ghost snaps: seq<Segment>, ci: nat, i: nat, dst: ColumnFile)
    requires BackedAll(schema, files, snaps) && ci < |schema| && i < |snaps|
    requires dst.Valid() && dst.kind == schema[ci] && dst.Rows() == Chained(snaps, i, ci)
    modifies dst`disk, dst`currentId, dst`dirty, dst.page
    ensures dst.Valid() && dst.Rows() == Chained(snaps, i + 1, ci)
  {
    BackedColumn(schema, files, snaps, i, ci);
    ChainedNext(snaps, i, ci);
    hide *;
    AppendImage(files[i][ci], dst, snaps[i].columns[ci]);
  }

  /** Appends one column of all segments: their files, one after the other. */
  method AppendSegments(schema: Schema, files: seq<seq<FileImage>>, ghost snaps: seq<Segment>, ci: nat, dst: ColumnFile)
    requires BackedAll(schema, files, snaps) && |files| == |snaps| && ci < |schema|
    requires dst.Valid() && dst.kind == schema[ci] && dst.Rows() == []
    modifies dst`disk, dst`currentId, dst`dirty, dst.page
    ensures dst.Valid() && dst.Rows() == Chained(snaps, |snaps|, ci)
  {
    NoneChained(snaps, ci);
    hide *;
    for i := 0 to |files|
      invariant dst.Valid() && dst.Rows() == Chained(snaps, i, ci)
    {
      AppendSegment(schema, files, snaps, ci, i, dst);
    }
  }

  /** Writes one merged column into a new file. */
  method MergeColumn(schema: Schema, files: seq<seq<FileImage>>, ghost snaps: seq<Segment>, ci: nat) returns (img: FileImage)
    requires BackedAll(schema, files, snaps) && snaps != [] && ci < |schema|
    ensures Holds(schema[ci], img, Chained(snaps, |snaps|, ci))
  {
    BackedColumn(schema, files, snaps, 0, ci);
    hide *;
    var dst := new ColumnFile.Create(schema[ci]);
    AppendSegments(schema, files, snaps, ci, dst);
    img := ScanPages(dst);
  }

  function ValuesOf(files: seq<FileImage>): (cols: Columns)
    ensures |cols| == |files| && forall c :: 0 <= c < |cols| ==> cols[c] == PageValues(files[c].pages, |files[c].pages|)
  {
    seq(|files|, c requires 0 <= c < |files| => PageValues(files[c].pages, |files[c].pages|))
  }

  method MergeColumns(schema: Schema, files: seq<seq<FileImage>>, ghost snaps: seq<Segment>) returns (out: seq<FileImage>)
    requires BackedAll(schema, files, snaps) && snaps != []
    ensures Backed(schema, out, ChainedColumns(snaps, |snaps|, |schema|))
    ensures ValuesOf(out) == ChainedColumns(snaps, |snaps|, |schema|)
  {
    hide ImageOk, CapacityOf, Chained, PageValues, BackedAll;
    out := [];
    var ci := 0;
    while ci < |schema|
      invariant ci == |out| <= |schema|
      invariant forall c :: 0 <= c < ci ==> Holds(schema[c], out[c], Chained(snaps, |snaps|, c))
    {
      var img := MergeColumn(schema, files, snaps, ci);
      out := out + [img];
      ci := ci + 1;
    }
  }

  lemma {:induction false} ChainedOk(schema: Schema, segs: seq<Segment>, n: nat)
    requires Contiguous(schema, segs) && n <= |segs|
    ensures Aligned(ChainedColumns(segs, n, |schema|), |schema|, Ends(segs, n))
    ensures Typed(schema, ChainedColumns(segs, n, |schema|))
    ensures RowsOf(ChainedColumns(segs, n, |schema|), Ends(segs, n)) == SegRows(segs, n)
  {
    if n > 0 {
      ChainedOk(schema, segs, n - 1);
      SegBounds(schema, segs, n - 1);
      var a, b := ChainedColumns(segs, n - 1, |schema|), segs[n - 1].columns;
      ChainRows(schema, a, b, ChainedColumns(segs, n, |schema|), Ends(segs, n - 1), segs[n - 1].count);
    }
  }

  /** Columns joined end to end hold the rows of both. */
  lemma {:induction false} ChainRows(schema: Schema, a: Columns, b: Columns, ab: Columns, m: nat, n: nat)
    requires Aligned(a, |schema|, m) && Aligned(b, |schema|, n) && Typed(schema, a) && Typed(schema, b)
    requires |ab| == |schema| && forall c :: 0 <= c < |schema| ==> ab[c] == a[c] + b[c]
    ensures Aligned(ab, |schema|, m + n) && Typed(schema, ab)
    ensures RowsOf(ab, m + n) == RowsOf(a, m) + RowsOf(b, n)
  {
    forall i | 0 <= i < m + n
      ensures RowAt(ab, i) == (RowsOf(a, m) + RowsOf(b, n))[i]
    {
      if i < m {
        assert RowAt(ab, i) == RowAt(a, i);
      } else {
        assert RowAt(ab, i) == RowAt(b, i - m);
      }
    }
  }

  // ---- the merge ----

  /** What a merge of the first `n` segments does to the list of segments. */
  ghost predicate MergeOf(schema: Schema, segs: seq<Segment>, n: nat, merged: Segment) {
    && 0 < n <= |segs|
    && merged.base == 0 && merged.count == Ends(segs, n)
    && merged.columns == ChainedColumns(segs, n, |schema|)
    && BitsTo(merged.deleted, segs[..n], Ends(segs, n))
  }

  lemma {:induction false} MergedEnds(schema: Schema, segs: seq<Segment>, n: nat, merged: Segment, k: nat)
    requires Contiguous(schema, segs) && MergeOf(schema, segs, n, merged) && n <= k <= |segs|
    ensures var after := [merged] + segs[n..];
            Ends(after, k - n + 1) == Ends(segs, k) && SegRows(after, k - n + 1) == SegRows(segs, k)
    decreases k
  {
    var after := [merged] + segs[n..];
    hide RowsOf, Contiguous, ChainedColumns;
    if k == n {
      ChainedOk(schema, segs, n);
      assert after[0] == merged;
      assert Ends(after, 0) == 0 && SegRows(after, 0) == [];
    } else {
      MergedEnds(schema, segs, n, merged, k - 1);
      assert after[k - n] == segs[k - 1];
    }
  }

  lemma {:induction false} MergedContiguous(schema: Schema, segs: seq<Segment>, n: nat, merged: Segment)
    requires Contiguous(schema, segs) && MergeOf(schema, segs, n, merged)
    ensures Contiguous(schema, [merged] + segs[n..])
  {
    var after := [merged] + segs[n..];
    ChainedOk(schema, segs, n);
    FirstBase(schema, segs);
    SegBounds(schema, segs, 0);
    EndsGrow(segs, 1, n);
    hide RowsOf, Contiguous, ChainedColumns, SegRows, Aligned, Typed;
    assert SegOk(schema, merged);
    forall i | 0 <= i < |after|
      ensures Placed(schema, after, i)
    {
      if i > 0 {
        assert after[i] == segs[n + i - 1];
        SegBounds(schema, segs, n + i - 1);
        MergedEnds(schema, segs, n, merged, n + i - 1);
      }
    }
  }

  lemma {:induction false} MergedDead(schema: Schema, segs: seq<Segment>, n: nat, merged: Segment, id: nat)
    requires Contiguous(schema, segs) && MergeOf(schema, segs, n, merged)
    ensures DeadIn([merged] + segs[n..], id) <==> DeadIn(segs, id)
  {
    hide Bit, Contiguous, Ends, ChainedColumns;
    var after := [merged] + segs[n..];
    if id < Ends(segs, n) {
      MergedContiguous(schema, segs, n, merged);
      OnlyHolder(schema, after, id, 0);
      PrefixContiguous(schema, segs, n);
      var h := Holder(schema, segs, id, n);
      OnlyHolder(schema, segs, id, h);
      OnlyHolder(schema, segs[..n], id, h);
    } else {
      TailDead(schema, segs, n, merged, id);
    }
  }

  lemma {:induction false} PrefixContiguous(schema: Schema, segs: seq<Segment>, n: nat)
    requires Contiguous(schema, segs) && n <= |segs|
    ensures Contiguous(schema, segs[..n]) && Ends(segs[..n], n) == Ends(segs, n)
  {
    hide SegOk, SegRows;
    EndsSame(segs[..n], segs, n);
    forall i | 0 <= i < n
      ensures Placed(schema, segs[..n], i)
    {
      assert Placed(schema, segs, i);
      EndsSame(segs[..n], segs, i);
    }
  }

  /** Rows after the merged ones are found in the same segment. */
  lemma {:induction false} TailDead(schema: Schema, segs: seq<Segment>, n: nat, merged: Segment, id: nat)
    requires Contiguous(schema, segs) && n <= |segs| && id >= Ends(segs, n)
    requires merged.base == 0 && merged.count == Ends(segs, n)
    ensures DeadIn([merged] + segs[n..], id) <==> DeadIn(segs, id)
  {
    hide Bit, Contiguous, Ends;
    var after := [merged] + segs[n..];
    if i :| 0 <= i < |segs| && SegDead(segs[i], id) {
      if i < n {
        SegBounds(schema, segs, i);
        EndsGrow(segs, i + 1, n);
      }
      assert after[i - n + 1] == segs[i];
    }
    if i :| 0 <= i < |after| && SegDead(after[i], id) {
      assert i > 0;
      assert after[i] == segs[n + i - 1];
    }
  }

  lemma {:induction false} MergedView(schema: Schema, segs: seq<Segment>, n: nat, merged: Segment, wb: Columns,
                                      wbBase: nat, wbDeleted: Bits)
    requires Contiguous(schema, segs) && MergeOf(schema, segs, n, merged)
    ensures var after := [merged] + segs[n..];
            && Contiguous(schema, after) && Ends(after, |after|) == Ends(segs, |segs|)
            && ViewOf(after, wb, wbBase, wbDeleted) == ViewOf(segs, wb, wbBase, wbDeleted)
  {
    var after := [merged] + segs[n..];
    MergedContiguous(schema, segs, n, merged);
    MergedEnds(schema, segs, n, merged, |segs|);
    hide Contiguous, MergeOf, DeadIn, Bit, SegRows, Ends, RowsOf;
    forall id: nat {
      MergedDead(schema, segs, n, merged, id);
    }
    assert DeadIds(after, wbBase, wbDeleted) == DeadIds(segs, wbBase, wbDeleted);
  }

  lemma {:induction false} BackedPrefix(schema: Schema, files: seq<seq<FileImage>>, segs: seq<Segment>, n: nat)
    requires BackedAll(schema, files, segs) && n <= |segs|
    ensures BackedAll(schema, files[..n], segs[..n])
  {
    hide Backed;
  }

  lemma {:induction false} BackedReplaced(schema: Schema, files: seq<seq<FileImage>>, segs: seq<Segment>, n: nat,
                                          out: seq<FileImage>, seg: Segment)
    requires BackedAll(schema, files, segs) && n <= |segs| && Backed(schema, out, seg.columns)
    ensures BackedAll(schema, [out] + files[n..], [seg] + segs[n..])
  {
    hide Backed;
  }

  /** Merges the oldest segments of a table that has many, file by file; no reader can tell. */
  method MergeTable(t: Table, files: seq<seq<FileImage>>, mergeThreshold: nat) returns (files': seq<seq<FileImage>>)
    requires t.Valid() && mergeThreshold >= 2 && BackedAll(t.schema, files, t.segments)
    modifies t
    ensures t.Valid() && t.View() == old(t.View()) && BackedAll(t.schema, files', t.segments)
    ensures |t.segments| == if old(|t.segments|) < mergeThreshold then old(|t.segments|)
                            else old(|t.segments|) - mergeThreshold / 2 + 1
    ensures old(AllCover(t.segments)) ==> AllCover(t.segments)
  {
    if |t.segments| < mergeThreshold {
      return files;
    }
    var n := mergeThreshold / 2;
    var snaps := t.segments[..n];
    PrefixContiguous(t.schema, t.segments, n);
    FirstBase(t.schema, t.segments);
    ChainedSame(snaps, t.segments, n, |t.schema|);
    BackedPrefix(t.schema, files, t.segments, n);
    hide BackedAll, Backed, Contiguous, BitsTo, ChainedColumns, Ends, ViewOf, Covers, ValuesOf;
    var out := MergeColumns(t.schema, files[..n], snaps);
    var bits := MergeDeletedBitmaps(t.schema, snaps);
    var base := snaps[0].base;
    var count := SumCounts(snaps);
    ghost var merged := Segment(t.nextId, base, count, ValuesOf(out), bits);
    MergedView(t.schema, t.segments, n, merged, t.wb, t.wbBase, t.wbDeleted);
    BackedReplaced(t.schema, files, t.segments, n, out, merged);
    CoverReplaced(t.segments, n, merged);
    t.ReplaceSegments(n, base, count, ValuesOf(out), bits);
    files' := [out] + files[n..];
  }

  lemma {:induction false} CoverReplaced(segs: seq<Segment>, n: nat, seg: Segment)
    requires AllCover(segs) ==> Covers(seg.deleted, seg.count)
    requires n <= |segs|
    ensures AllCover(segs) ==> AllCover([seg] + segs[n..])
  {
    hide Covers;
  }

  method SumCounts(segs: seq<Segment>) returns (n: nat)
    ensures n == Ends(segs, |segs|)
  {
    n := 0;
    for i := 0 to |segs|
      invariant n == Ends(segs, i)
    {
      n := n + segs[i].count;
    }
  }

  lemma {:induction false} ChainedSame(a: seq<Segment>, b: seq<Segment>, n: nat, width: nat)
    requires n <= |a| && n <= |b| && a[..n] == b[..n]
    ensures ChainedColumns(a, n, width) == ChainedColumns(b, n, width)
  {
    forall c | 0 <= c < width {
      ChainedColumnSame(a, b, n, c);
    }
  }

  lemma {:induction false} ChainedColumnSame(a: seq<Segment>, b: seq<Segment>, n: nat, c: nat)
    requires n <= |a| && n <= |b| && a[..n] == b[..n]
    ensures Chained(a, n, c) == Chained(b, n, c)
  {
    if n > 0 {
      assert a[..n - 1] == a[..n][..n - 1] == b[..n - 1];
      assert a[n - 1] == a[..n][n - 1] == b[n - 1];
      ChainedColumnSame(a, b, n - 1, c);
    }
  }
}
