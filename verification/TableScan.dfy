/** Scanning a table: page pruning, tombstones, and chunks of surviving rows. */
module TableScanning {
  import opened Options
  import opened Bytes
  import opened Values
  import opened Bitmap
  import opened ColumnPages
  import opened ColumnFiles
  import opened RowStore
  import opened Tables
  import opened FileImages

  /** A range of row positions, the end excluded. */
  datatype Range = Range(start: nat, end: nat)

  datatype ScanRange = ScanRange(col: nat, lo: Option<int>, hi: Option<int>)

  /** A segment or the write buffer: its columns, and the files that hold them. */
  datatype Source = Source(base: nat, count: nat, columns: Columns, files: seq<FileImage>, deleted: Bits)

  // ---- positions ----

  function Span(s: nat, e: nat): (r: seq<nat>)
    ensures |r| == if s <= e then e - s else 0
    ensures forall i :: 0 <= i < |r| ==> r[i] == s + i
  {
    seq(if s <= e then e - s else 0, i => s + i)
  }

  function Spans(rs: seq<Range>): seq<nat> {
    if rs == [] then [] else Spans(rs[..|rs| - 1]) + Span(rs[|rs| - 1].start, rs[|rs| - 1].end)
  }

  /** The positions from `s` to `e` without a tombstone. */
  function Alive(bm: Bits, s: nat, e: nat): seq<nat> {
    if e <= s then [] else Alive(bm, s, e - 1) + if Bit(bm, e - 1) then [] else [e - 1]
  }

  /** Those of some positions that have no tombstone. */
  function Living(bm: Bits, ps: seq<nat>): seq<nat> {
    if ps == [] then []
    else Living(bm, ps[..|ps| - 1]) + if Bit(bm, ps[|ps| - 1]) then [] else [ps[|ps| - 1]]
  }

  lemma {:induction false} LivingConcat(bm: Bits, a: seq<nat>, b: seq<nat>)
    ensures Living(bm, a + b) == Living(bm, a) + Living(bm, b)
  {
    hide Bit;
    if b == [] {
      assert a + b == a;
    } else {
      assert (a + b)[..|a| + |b| - 1] == a + b[..|b| - 1];
      LivingConcat(bm, a, b[..|b| - 1]);
    }
  }

  lemma {:induction false} LivingSpan(bm: Bits, s: nat, e: nat)
    ensures Living(bm, Span(s, e)) == Alive(bm, s, e)
  {
    hide Bit;
    if s < e {
      LivingSpan(bm, s, e - 1);
      assert Span(s, e) == Span(s, e - 1) + [e - 1];
    }
  }

  lemma {:induction false} LivingMember(bm: Bits, ps: seq<nat>, r: nat)
    ensures r in Living(bm, ps) <==> r in ps && !Bit(bm, r)
  {
    hide Bit;
    if ps != [] {
      var n := |ps| - 1;
      LivingMember(bm, ps[..n], r);
      assert ps == ps[..n] + [ps[n]];
    }
  }

  lemma {:induction false} NoTombstones(ps: seq<nat>)
    ensures Living([], ps) == ps
  {
    if ps != [] {
      NoTombstones(ps[..|ps| - 1]);
    }
  }

  /** Ranges are not empty and in ascending order. */
  ghost predicate Ordered(rs: seq<Range>) {
    && (forall i :: 0 <= i < |rs| ==> rs[i].start < rs[i].end)
    && (forall i, j :: 0 <= i < j < |rs| ==> rs[i].end <= rs[j].start)
  }

  lemma {:induction false} SpansSnoc(rs: seq<Range>, r: Range)
    ensures Spans(rs + [r]) == Spans(rs) + Span(r.start, r.end)
  {
    assert (rs + [r])[..|rs|] == rs;
  }

  lemma {:induction false} AliveSplit(bm: Bits, s: nat, m: nat, e: nat)
    requires s <= m <= e
    ensures Alive(bm, s, e) == Alive(bm, s, m) + Alive(bm, m, e)
  {
    hide Bit;
    if m < e {
      AliveSplit(bm, s, m, e - 1);
    }
  }

  lemma {:induction false} AliveMember(bm: Bits, s: nat, e: nat, r: nat)
    ensures r in Alive(bm, s, e) <==> s <= r < e && !Bit(bm, r)
  {
    hide Bit;
    if s < e {
      AliveMember(bm, s, e - 1, r);
    }
  }

  /** Splits one range at its dead rows. */
  method RefineOne(range: Range, bm: Bits, refined: seq<Range>) returns (out: seq<Range>)
    requires range.start <= range.end && Ordered(refined) && forall i :: 0 <= i < |refined| ==> refined[i].end <= range.start
    ensures Ordered(out) && forall i :: 0 <= i < |out| ==> out[i].end <= range.end
    ensures Spans(out) == Spans(refined) + Alive(bm, range.start, range.end)
  {
    hide Bit, Spans;
    out := refined;
    var r := range.start;
    ghost var before := Spans(refined);
    while r < range.end
      invariant range.start <= r <= range.end && Ordered(out)
      invariant forall i :: 0 <= i < |out| ==> out[i].end <= r
      invariant Spans(out) == before + Alive(bm, range.start, r)
      decreases range.end - r
    {
      r := SkipDead(bm, range.start, r, range.end);
      if r >= range.end {
        return;
      }
      var s := r;
      r := SkipLive(bm, s, range.end);
      AliveSplit(bm, range.start, s, r);
      SpansSnoc(out, Range(s, r));
      Joined3(before, Alive(bm, range.start, s), Alive(bm, s, r));
      out := out + [Range(s, r)];
    }
  }

  method SkipDead(bm: Bits, ghost start: nat, first: nat, end: nat) returns (r: nat)
    requires start <= first < end
    ensures first <= r <= end && (r < end ==> !Bit(bm, r))
    ensures Alive(bm, start, r) == Alive(bm, start, first)
  {
    hide Bit;
    r := first;
    while r < end
      invariant first <= r <= end && Alive(bm, start, r) == Alive(bm, start, first)
    {
      if !Bit(bm, r) {
        break;
      }
      r := r + 1;
    }
  }

  method SkipLive(bm: Bits, s: nat, end: nat) returns (r: nat)
    requires s < end && !Bit(bm, s)
    ensures s < r <= end && Alive(bm, s, r) == Span(s, r)
  {
    hide Bit;
    r := s;
    while r < end
      invariant s <= r <= end && Alive(bm, s, r) == Span(s, r)
      invariant r == s ==> !Bit(bm, r)
    {
      if Bit(bm, r) {
        break;
      }
      assert Span(s, r + 1) == Span(s, r) + [r];
      r := r + 1;
    }
  }

  lemma {:induction false} Joined3(a: seq<nat>, b: seq<nat>, c: seq<nat>)
    ensures (a + b) + c == a + (b + c)
  {
  }

  /** Removes the dead rows from every surviving range. */
  method RefineByDeletions(survivors: seq<Range>, bm: Bits) returns (refined: seq<Range>)
    requires Ordered(survivors)
    ensures Ordered(refined) && Spans(refined) == Living(bm, Spans(survivors))
    ensures survivors != [] ==> forall i :: 0 <= i < |refined| ==> refined[i].end <= survivors[|survivors| - 1].end
    ensures survivors == [] ==> refined == []
  {
    hide Bit, Alive, Living;
    assert Living(bm, Spans([])) == [] by {
      NoneLive(bm);
    }
    refined := [];
    var k := 0;
    while k < |survivors|
      invariant k <= |survivors| && Ordered(refined) && Spans(refined) == Living(bm, Spans(survivors[..k]))
      invariant k > 0 ==> forall i :: 0 <= i < |refined| ==> refined[i].end <= survivors[k - 1].end
      invariant k == 0 ==> refined == []
    {
      assert survivors[..k + 1] == survivors[..k] + [survivors[k]];
      SpansSnoc(survivors[..k], survivors[k]);
      LivingConcat(bm, Spans(survivors[..k]), Span(survivors[k].start, survivors[k].end));
      LivingSpan(bm, survivors[k].start, survivors[k].end);
      refined := RefineOne(survivors[k], bm, refined);
      k := k + 1;
    }
    assert survivors[..k] == survivors;
  }

  lemma {:induction false} NoneLive(bm: Bits)
    ensures Living(bm, Spans([])) == []
  {
  }

  // ---- pruning ----

  /** The page may hold a value of the range; types without a kept minimum always may. */
  predicate PageOverlaps(p: PageImage, r: ScanRange) {
    if p.typ == INT32 || p.typ == INT64 then
      p.count - p.nullCount != 0
      && (r.lo.Some? ==> p.hi >= r.lo.value)
      && (r.hi.Some? ==> p.lo <= r.hi.value)
    else true
  }

  /** A value that lies in the range. */
  predicate InScanRange(v: Value, r: ScanRange) {
    (v.Int32? || v.Int64?) && (r.lo.Some? ==> v.n >= r.lo.value) && (r.hi.Some? ==> v.n <= r.hi.value)
  }

  /** No page that holds a value of the range is pruned. */
  lemma {:induction false} PruningSound(p: PageImage, r: ScanRange, slot: nat)
    requires PageOk(p) && slot < p.count && InScanRange(Contents(p)[slot], r)
    ensures PageOverlaps(p, r)
  {
    var v := Contents(p)[slot];
    assert Fits(p.typ, p.nullable, p.maxLen, v);
    if p.typ == INT32 || p.typ == INT64 {
      assert InBounds(v, p.lo, p.hi);
      if p.count - p.nullCount == 0 {
        AllNull(Contents(p), slot);
      }
    }
  }

  /** A page of numbers is pruned exactly if it has none, or all that its bounds enclose lie outside the range. */
  lemma {:induction false} PrunedMeans(p: PageImage, r: ScanRange)
    requires p.typ == INT32 || p.typ == INT64
    ensures !PageOverlaps(p, r) <==> p.count == p.nullCount || (r.lo.Some? && p.hi < r.lo.value) || (r.hi.Some? && r.hi.value < p.lo)
  {
  }

  /** The positions on the first `k` pages that pruning keeps. */
  function KeptTo(pages: seq<PageImage>, r: ScanRange, k: nat): seq<nat>
    requires k <= |pages|
  {
    if k == 0 then []
    else
      var span := if PageOverlaps(pages[k - 1], r) then Span(PageStart(pages, k - 1), PageStart(pages, k)) else [];
      KeptTo(pages, r, k - 1) + span
  }

  /** Adds the rows of one more page, joining them to the last range if they follow it. */
  method AddRange(survivors: seq<Range>, start: nat, end: nat) returns (out: seq<Range>)
    requires Ordered(survivors) && start < end && forall i :: 0 <= i < |survivors| ==> survivors[i].end <= start
    ensures Ordered(out) && Spans(out) == Spans(survivors) + Span(start, end)
    ensures forall i :: 0 <= i < |out| ==> out[i].end <= end
  {
    hide Spans, Span;
    if survivors != [] && survivors[|survivors| - 1].end == start {
      SpansExtend(survivors, end);
      out := survivors[|survivors| - 1 := survivors[|survivors| - 1].(end := end)];
    } else {
      SpansSnoc(survivors, Range(start, end));
      out := survivors + [Range(start, end)];
    }
  }

  /** Collects the row ranges of the pages that overlap the range, joining neighbours. */
  method PrunePages(pages: seq<PageImage>, r: ScanRange) returns (survivors: seq<Range>)
    ensures Ordered(survivors) && Spans(survivors) == KeptTo(pages, r, |pages|)
    ensures forall i :: 0 <= i < |survivors| ==> survivors[i].end <= PageStart(pages, |pages|)
  {
    hide PageOverlaps, Spans, Span;
    survivors := [];
    var cursor, k := 0, 0;
    SpansNone();
    while k < |pages|
      invariant k <= |pages| && cursor == PageStart(pages, k) && Ordered(survivors)
      invariant forall i :: 0 <= i < |survivors| ==> survivors[i].end <= cursor
      invariant Spans(survivors) == KeptTo(pages, r, k)
    {
      var p := pages[k];
      SpanNone(cursor);
      if p.count > 0 && PageOverlaps(p, r) {
        survivors := AddRange(survivors, cursor, cursor + p.count);
      }
      cursor := cursor + p.count;
      k := k + 1;
    }
  }

  lemma {:induction false} SpansNone()
    ensures Spans([]) == []
  {
  }

  lemma {:induction false} SpanNone(s: nat)
    ensures Span(s, s) == []
  {
  }

  lemma {:induction false} SpansExtend(rs: seq<Range>, end: nat)
    requires rs != [] && rs[|rs| - 1].start <= rs[|rs| - 1].end <= end
    ensures var n := |rs| - 1;
            Spans(rs[n := rs[n].(end := end)]) == Spans(rs) + Span(rs[n].end, end)
  {
    var n := |rs| - 1;
    var last := rs[n];
    assert rs[n := last.(end := end)] == rs[..n] + [last.(end := end)] && rs == rs[..n] + [last];
    SpansSnoc(rs[..n], last.(end := end));
    SpansSnoc(rs[..n], last);
    assert Span(last.start, end) == Span(last.start, last.end) + Span(last.end, end);
  }

  lemma {:induction false} KeptMember(pages: seq<PageImage>, r: ScanRange, k: nat, pos: nat)
    requires k <= |pages| && (forall i :: 0 <= i < |pages| ==> PageOk(pages[i]))
    requires pos < PageStart(pages, k) && InScanRange(PageValues(pages, k)[pos], r)
    ensures pos in KeptTo(pages, r, k)
  {
    hide PageOk, PageOverlaps, Contents;
    if pos < PageStart(pages, k - 1) {
      KeptMember(pages, r, k - 1, pos);
    } else {
      var slot := pos - PageStart(pages, k - 1);
      PruningSound(pages[k - 1], r, slot);
      assert Span(PageStart(pages, k - 1), PageStart(pages, k))[slot] == pos;
    }
  }

  // ---- one source ----

  /** The positions that a scan looks at: all of them, or those on the pages that may hold the range. */
  function LookedAt(src: Source, range: Option<ScanRange>): seq<nat> {
    if range.None? then Span(0, src.count)
    else if range.value.col >= |src.files| then []
    else
      var pages := src.files[range.value.col].pages;
      KeptTo(pages, range.value, |pages|)
  }

  /** The positions of a source that a scan emits. */
  function Emitted(src: Source, range: Option<ScanRange>): seq<nat> {
    Living(src.deleted, LookedAt(src, range))
  }

  /** The files hold the columns, and the range is on one of them. */
  ghost predicate SourceOk(schema: Schema, src: Source, range: Option<ScanRange>) {
    && Backed(schema, src.files, src.columns) && Aligned(src.columns, |schema|, src.count)
    && (range.Some? ==> range.value.col < |schema|)
  }

  method BuildEntry(schema: Schema, src: Source, range: Option<ScanRange>) returns (survivors: seq<Range>)
    requires SourceOk(schema, src, range)
    ensures Ordered(survivors) && Spans(survivors) == Emitted(src, range)
    ensures forall i :: 0 <= i < |survivors| ==> survivors[i].end <= src.count
  {
    hide PageOk, Living, Contents;
    if range.Some? {
      var pages := src.files[range.value.col].pages;
      survivors := PrunePages(pages, range.value);
      assert Holds(schema[range.value.col], src.files[range.value.col], src.columns[range.value.col]);
    } else if src.count > 0 {
      survivors := [Range(0, src.count)];
      SpansSnoc([], Range(0, src.count));
      assert [] + survivors == survivors;
    } else {
      survivors := [];
    }
    ghost var ps := LookedAt(src, range);
    assert Spans(survivors) == ps;
    hide Spans, Span, KeptTo;
    if src.deleted != [] {
      survivors := RefineByDeletions(survivors, src.deleted);
    } else {
      NoTombstones(Spans(survivors));
    }
  }

  /** Without a range exactly the live rows are emitted, in order. */
  lemma {:induction false} FullScanExact(src: Source)
    ensures Emitted(src, None) == Alive(src.deleted, 0, src.count)
  {
    LivingSpan(src.deleted, 0, src.count);
  }

  /** With a range every live row whose value lies in it is emitted. */
  lemma {:induction false} RangeScanSound(schema: Schema, src: Source, range: ScanRange, pos: nat)
    requires SourceOk(schema, src, Some(range)) && pos < src.count
    requires !Bit(src.deleted, pos) && InScanRange(src.columns[range.col][pos], range)
    ensures pos in Emitted(src, Some(range))
  {
    hide PageOk, Bit, Contents;
    var f := src.files[range.col];
    assert Holds(schema[range.col], f, src.columns[range.col]);
    assert forall i :: 0 <= i < |f.pages| ==> PageOf(f.kind, f.pages[i]);
    KeptMember(f.pages, range, |f.pages|, pos);
    LivingMember(src.deleted, KeptTo(f.pages, range, |f.pages|), pos);
  }

  // ---- the operator ----

  datatype Item = Item(id: nat, row: Row)

  datatype Entry = Entry(src: Source, survivors: seq<Range>, cur: nat, idx: nat)

  function Project(projected: seq<nat>, row: Row): (r: Row)
    ensures |r| == |projected|
    ensures forall i :: 0 <= i < |projected| ==> r[i] == if projected[i] < |row| then row[projected[i]] else Null
  {
    seq(|projected|, i requires 0 <= i < |projected| => if projected[i] < |row| then row[projected[i]] else Null)
  }

  /** The rows at some positions of a source, with their global ids. */
  function Items(src: Source, projected: seq<nat>, ps: seq<nat>): (items: seq<Item>)
    ensures |items| == |ps|
    ensures forall i :: 0 <= i < |ps| ==>
      items[i] == Item(src.base + ps[i], Project(projected, RowAt(src.columns, ps[i])))
  {
    seq(|ps|, i requires 0 <= i < |ps| => Item(src.base + ps[i], Project(projected, RowAt(src.columns, ps[i]))))
  }

  /** What is left of a range once the scan has reached `cur`. */
  function Clip(r: Range, cur: nat): seq<nat> {
    if cur >= r.end then [] else Span(if cur < r.start then r.start else cur, r.end)
  }

  function Left(rs: seq<Range>, i: nat, cur: nat): seq<nat>
    decreases |rs| - i
  {
    if i >= |rs| then [] else Clip(rs[i], cur) + Left(rs, i + 1, cur)
  }

  lemma {:induction false} LeftAll(rs: seq<Range>, k: nat)
    requires Ordered(rs) && k <= |rs|
    ensures Spans(rs[..k]) + Left(rs, k, 0) == Spans(rs)
    decreases |rs| - k
  {
    hide Span;
    if k < |rs| {
      LeftAll(rs, k + 1);
      assert rs[..k + 1] == rs[..k] + [rs[k]];
      SpansSnoc(rs[..k], rs[k]);
      Joined3(Spans(rs[..k]), Span(rs[k].start, rs[k].end), Left(rs, k + 1, 0));
    } else {
      assert rs[..k] == rs;
    }
  }

  /** Later ranges do not notice an advance within an earlier one. */
  lemma {:induction false} LeftLater(rs: seq<Range>, i: nat, a: nat, b: nat)
    requires forall j :: i <= j < |rs| ==> a <= rs[j].start && b <= rs[j].start && rs[j].start < rs[j].end
    ensures Left(rs, i, a) == Left(rs, i, b)
    decreases |rs| - i
  {
    hide Span;
    if i < |rs| {
      LeftLater(rs, i + 1, a, b);
    }
  }

  lemma {:induction false} SpanSplit(a: nat, b: nat, c: nat)
    requires a <= b <= c
    ensures Span(a, c) == Span(a, b) + Span(b, c)
    ensures b >= c ==> Span(b, c) == []
  {
  }

  lemma {:induction false} LaterSame(rs: seq<Range>, i: nat, a: nat, b: nat)
    requires Ordered(rs) && i < |rs| && a <= rs[i].end && b <= rs[i].end
    ensures Left(rs, i + 1, a) == Left(rs, i + 1, b)
  {
    hide Left;
    LeftLater(rs, i + 1, a, b);
  }

  lemma {:induction false} LeftIs(rs: seq<Range>, i: nat, cur: nat)
    requires i < |rs|
    ensures Left(rs, i, cur) == Clip(rs[i], cur) + Left(rs, i + 1, cur)
  {
    hide Clip;
  }

  lemma {:induction false} LeftAdvance(rs: seq<Range>, i: nat, cur: nat, c: nat, n: nat)
    requires Ordered(rs) && i < |rs| && cur < rs[i].end
    requires c == (if cur < rs[i].start then rs[i].start else cur) && c + n <= rs[i].end
    ensures Left(rs, i, cur) == Span(c, c + n) + Left(rs, i, c + n)
  {
    hide Span, Ordered, Left;
    LeftIs(rs, i, cur);
    LeftIs(rs, i, c + n);
    SpanSplit(c, c + n, rs[i].end);
    LaterSame(rs, i, cur, c + n);
    assert Clip(rs[i], c + n) == Span(c + n, rs[i].end);
    Joined3(Span(c, c + n), Span(c + n, rs[i].end), Left(rs, i + 1, cur));
  }

  lemma {:induction false} ItemsConcat(src: Source, projected: seq<nat>, a: seq<nat>, b: seq<nat>)
    ensures Items(src, projected, a + b) == Items(src, projected, a) + Items(src, projected, b)
  {
  }

  /** The survivors are rows of the source, whose files can be read. */
  ghost predicate EntryOk(schema: Schema, e: Entry) {
    && Ordered(e.survivors) && (forall i :: 0 <= i < |e.survivors| ==> e.survivors[i].end <= e.src.count)
    && SourceOk(schema, e.src, None)
  }

  /** What the entries from `k` on have still to emit. */
  ghost function Pending(plan: seq<Entry>, projected: seq<nat>, k: nat): seq<Item>
    decreases |plan| - k
  {
    if k >= |plan| then []
    else Items(plan[k].src, projected, Left(plan[k].survivors, plan[k].idx, plan[k].cur)) + Pending(plan, projected, k + 1)
  }

  /** What a scan of the sources emits. */
  function ScanOf(sources: seq<Source>, range: Option<ScanRange>, projected: seq<nat>, k: nat): seq<Item>
    requires k <= |sources|
  {
    if k == 0 then []
    else ScanOf(sources, range, projected, k - 1) + Items(sources[k - 1], projected, Emitted(sources[k - 1], range))
  }

  lemma {:induction false} PendingAt(plan: seq<Entry>, projected: seq<nat>, k: nat)
    requires k < |plan|
    ensures Pending(plan, projected, k)
         == Items(plan[k].src, projected, Left(plan[k].survivors, plan[k].idx, plan[k].cur)) + Pending(plan, projected, k + 1)
  {
  }

  lemma {:induction false} PendingSame(a: seq<Entry>, b: seq<Entry>, projected: seq<nat>, k: nat)
    requires |a| == |b| && forall i :: k <= i < |a| ==> a[i] == b[i]
    ensures Pending(a, projected, k) == Pending(b, projected, k)
    decreases |a| - k
  {
    hide Items, Left;
    if k < |a| {
      PendingSame(a, b, projected, k + 1);
    }
  }

  /** `count` rows from `start` on, cut down to the projected columns. */
  function ChunkRows(src: Source, projected: seq<nat>, start: nat, count: nat): (rows: seq<Row>)
    ensures |rows| == count
    ensures forall j :: 0 <= j < count ==> rows[j] == Project(projected, RowAt(src.columns, start + j))
  {
    seq(count, j requires 0 <= j < count => Project(projected, RowAt(src.columns, start + j)))
  }

  /** The rows of a chunk with ids counted from its physical start. */
  function Numbered(start: nat, rows: seq<Row>): (items: seq<Item>)
    ensures |items| == |rows| && forall j :: 0 <= j < |rows| ==> items[j] == Item(start + j, rows[j])
  {
    seq(|rows|, j requires 0 <= j < |rows| => Item(start + j, rows[j]))
  }

  /** Reads the projected columns of `count` rows and puts the rows together. */
  method ReadChunk(schema: Schema, src: Source, projected: seq<nat>, start: nat, count: nat) returns (rows: seq<Row>)
    requires SourceOk(schema, src, None) && start + count <= src.count
    requires forall i :: 0 <= i < |projected| ==> projected[i] < |schema|
    ensures rows == ChunkRows(src, projected, start, count)
  {
    var cols := ReadColumns(schema, src, projected, start, count);
    rows := RowsOf(cols, count);
    forall j | 0 <= j < count
      ensures rows[j] == ChunkRows(src, projected, start, count)[j]
    {
      SameRow(src, projected, start, count, cols, j);
    }
  }

  method ReadColumns(schema: Schema, src: Source, projected: seq<nat>, start: nat, count: nat) returns (cols: Columns)
    requires SourceOk(schema, src, None) && start + count <= src.count
    requires forall i :: 0 <= i < |projected| ==> projected[i] < |schema|
    ensures |cols| == |projected|
    ensures forall i :: 0 <= i < |projected| ==> cols[i] == src.columns[projected[i]][start..start + count]
  {
    hide ImageOk, PageValues;
    cols := [];
    for k := 0 to |projected|
      invariant |cols| == k && forall i :: 0 <= i < k ==> cols[i] == src.columns[projected[i]][start..start + count]
    {
      var c := projected[k];
      assert Holds(schema[c], src.files[c], src.columns[c]);
      var vs := ReadRun(src.files[c], start, count, src.columns[c]);
      cols := cols + [vs];
    }
  }

  lemma {:induction false} SameRow(src: Source, projected: seq<nat>, start: nat, count: nat, cols: Columns, j: nat)
    requires j < count && |cols| == |projected|
    requires forall i :: 0 <= i < |projected| ==> projected[i] < |src.columns| && start + count <= |src.columns[projected[i]]|
    requires forall i :: 0 <= i < |projected| ==> cols[i] == src.columns[projected[i]][start..start + count]
    ensures RowAt(cols, j) == Project(projected, RowAt(src.columns, start + j))
  {
  }

  class TableScan {
    const schema: Schema
    const sources: seq<Source>
    const range: Option<ScanRange>
    const projected: seq<nat>
    var plan: seq<Entry>
    var current: nat
    var lastStart: nat

    ghost predicate Valid()
      reads this
    {
      && (forall i :: 0 <= i < |plan| ==> EntryOk(schema, plan[i]))
      && (forall i :: 0 <= i < |projected| ==> projected[i] < |schema|)
    }

    ghost function Remaining(): seq<Item>
      reads this
    {
      Pending(plan, projected, current)
    }

    constructor (schema: Schema, sources: seq<Source>, range: Option<ScanRange>, projected: seq<nat>)
      ensures this.schema == schema && this.sources == sources && this.range == range && this.projected == projected
      ensures plan == []
    {
      this.schema, this.sources, this.range, this.projected := schema, sources, range, projected;
      plan, current, lastStart := [], 0, 0;
    }

    /** Plans every segment and then the write buffer. */
    method Open()
      requires forall i :: 0 <= i < |sources| ==> SourceOk(schema, sources[i], range)
      requires forall i :: 0 <= i < |projected| ==> projected[i] < |schema|
      modifies this
      ensures Valid() && Remaining() == ScanOf(sources, range, projected, |sources|)
    {
      hide SourceOk, Emitted, Left;
      plan, current := [], 0;
      var i := 0;
      while i < |sources|
        invariant i == |plan| <= |sources| && current == 0 && Valid()
        invariant Pending(plan, projected, 0) == ScanOf(sources, range, projected, i)
      {
        var survivors := BuildEntry(schema, sources[i], range);
        var e := Entry(sources[i], survivors, 0, 0);
        AnyRange(schema, sources[i], range);
        FreshEntry(schema, e);
        PendingSnoc(plan, e, projected, 0);
        plan := plan + [e];
        i := i + 1;
      }
    }

    /** The next chunk: rows of one surviving range, numbered from `lastStart`. */
    method Next() returns (out: Option<seq<Row>>)
      requires Valid()
      modifies this
      ensures Valid()
      ensures out.None? ==> old(Remaining()) == []
      ensures out.Some? ==> 0 < |out.value| <= CHUNK_SIZE
      ensures out.Some? ==> old(Remaining()) == Numbered(lastStart, out.value) + Remaining()
    {
      hide Left, Items, Project;
      while current < |plan|
        invariant Valid() && Remaining() == old(Remaining())
        decreases |plan| - current
      {
        SkipRanges();
        var e := plan[current];
        if e.idx < |e.survivors| {
          var rows := EmitRange();
          return Some(rows);
        }
        LeftNone(e.survivors, e.idx, e.cur);
        current := current + 1;
      }
      out := None;
    }

    /** Passes over the ranges that are used up. */
    method SkipRanges()
      requires Valid() && current < |plan|
      modifies this`plan
      ensures Valid() && |plan| == old(|plan|) && Remaining() == old(Remaining())
      ensures var e := plan[current]; e.idx < |e.survivors| ==> e.cur < e.survivors[e.idx].end
    {
      hide Items, Left, Ordered;
      while plan[current].idx < |plan[current].survivors|
            && plan[current].cur >= plan[current].survivors[plan[current].idx].end
        invariant Valid() && |plan| == old(|plan|) && Remaining() == old(Remaining())
        decreases |plan[current].survivors| - plan[current].idx
      {
        ghost var before := plan;
        plan := plan[current := plan[current].(idx := plan[current].idx + 1)];
        PendingSame(before, plan, projected, current + 1);
        ClipUsed(before[current].survivors, before[current].idx, before[current].cur);
      }
    }

    /** Emits from the current range, at most a chunk full. */
    method EmitRange() returns (rows: seq<Row>)
      requires Valid() && current < |plan| && plan[current].idx < |plan[current].survivors|
      requires plan[current].cur < plan[current].survivors[plan[current].idx].end
      modifies this`plan, this`lastStart
      ensures Valid() && |plan| == old(|plan|) && 0 < |rows| <= CHUNK_SIZE
      ensures old(Remaining()) == Numbered(lastStart, rows) + Remaining()
    {
      hide Pending, Numbered, ChunkRows, SourceOk;
      var e := plan[current];
      var r := e.survivors[e.idx];
      assert EntryOk(schema, e);
      var start := if e.cur < r.start then r.start else e.cur;
      assert start < r.end;
      var count := if CHUNK_SIZE < r.end - start then CHUNK_SIZE else r.end - start;
      EmitStep(plan, projected, current, start, count);
      hide Ordered;
      lastStart := e.src.base + start;
      rows := ReadChunk(schema, e.src, projected, start, count);
      plan := plan[current := e.(cur := start + count)];
    }
  }

  /** Emitting `count` rows from `start` on takes them off what is pending. */
  lemma {:induction false} EmitStep(plan: seq<Entry>, projected: seq<nat>, k: nat, start: nat, count: nat)
    requires k < |plan| && Ordered(plan[k].survivors) && plan[k].idx < |plan[k].survivors|
    requires var e, r := plan[k], plan[k].survivors[plan[k].idx];
             e.cur < r.end && start == (if e.cur < r.start then r.start else e.cur) && start + count <= r.end
    ensures Pending(plan, projected, k)
         == Numbered(plan[k].src.base + start, ChunkRows(plan[k].src, projected, start, count))
          + Pending(plan[k := plan[k].(cur := start + count)], projected, k)
  {
    var e, after := plan[k], plan[k := plan[k].(cur := start + count)];
    LeftAdvance(e.survivors, e.idx, e.cur, start, count);
    hide *;
    PendingSame(plan, after, projected, k + 1);
    PendingAt(plan, projected, k);
    PendingAt(after, projected, k);
    EmittedChunk(e.src, projected, start, count, Left(e.survivors, e.idx, start + count), Pending(after, projected, k + 1));
  }

  lemma {:induction false} EmittedChunk(src: Source, projected: seq<nat>, start: nat, count: nat, rest: seq<nat>, tail: seq<Item>)
    ensures Items(src, projected, Span(start, start + count) + rest) + tail
         == Numbered(src.base + start, ChunkRows(src, projected, start, count)) + (Items(src, projected, rest) + tail)
  {
    ItemsConcat(src, projected, Span(start, start + count), rest);
    assert Items(src, projected, Span(start, start + count))
        == Numbered(src.base + start, ChunkRows(src, projected, start, count));
    hide Items, Numbered, Span;
  }

  lemma {:induction false} ClipUsed(rs: seq<Range>, i: nat, cur: nat)
    requires i < |rs| && cur >= rs[i].end
    ensures Left(rs, i, cur) == Left(rs, i + 1, cur)
  {
  }

  lemma {:induction false} LeftNone(rs: seq<Range>, i: nat, cur: nat)
    requires i >= |rs|
    ensures Left(rs, i, cur) == []
  {
  }

  lemma {:induction false} AnyRange(schema: Schema, src: Source, range: Option<ScanRange>)
    requires SourceOk(schema, src, range)
    ensures SourceOk(schema, src, None)
  {
  }

  lemma {:induction false} FreshEntry(schema: Schema, e: Entry)
    requires EntryOk(schema, e) && e.cur == 0 && e.idx == 0
    ensures Left(e.survivors, e.idx, e.cur) == Spans(e.survivors)
  {
    LeftAll(e.survivors, 0);
    assert Spans(e.survivors[..0]) == [];
  }

  lemma {:induction false} PendingSnoc(plan: seq<Entry>, e: Entry, projected: seq<nat>, k: nat)
    requires k <= |plan|
    ensures Pending(plan + [e], projected, k)
         == Pending(plan, projected, k) + Items(e.src, projected, Left(e.survivors, e.idx, e.cur))
    decreases |plan| - k
  {
    hide Left, Items;
    if k < |plan| {
      PendingSnoc(plan, e, projected, k + 1);
    } else {
      assert Pending(plan + [e], projected, k + 1) == [];
    }
  }

  /** Pulls a whole scan, numbering each chunk from its physical start. */
  method RunScan(schema: Schema, sources: seq<Source>, range: Option<ScanRange>, projected: seq<nat>)
      returns (out: seq<Item>)
    requires forall i :: 0 <= i < |sources| ==> SourceOk(schema, sources[i], range)
    requires forall i :: 0 <= i < |projected| ==> projected[i] < |schema|
    ensures out == ScanOf(sources, range, projected, |sources|)
  {
    hide SourceOk, ScanOf, TableScan.Valid, TableScan.Remaining, Numbered;
    var scan := new TableScan(schema, sources, range, projected);
    scan.Open();
    out := [];
    ghost var all, left := scan.Remaining(), scan.Remaining();
    var got := scan.Next();
    while got.Some?
      invariant scan.Valid() && all == out + left
      invariant got.Some? ==> left == Numbered(scan.lastStart, got.value) + scan.Remaining() && |got.value| > 0
      invariant got.None? ==> left == []
      decreases |left|, got.Some?
    {
      JoinedItems(out, Numbered(scan.lastStart, got.value), scan.Remaining());
      out := out + Numbered(scan.lastStart, got.value);
      left := scan.Remaining();
      got := scan.Next();
    }
  }

  lemma {:induction false} JoinedItems(a: seq<Item>, b: seq<Item>, c: seq<Item>)
    ensures a + (b + c) == (a + b) + c
  {
  }

  // ---- what a scan of a table shows ----

  /** The segments and then the write buffer. */
  function SourcesOf(segs: seq<Segment>, wb: Columns, wbBase: nat, wbDeleted: Bits, files: seq<seq<FileImage>>): (ss: seq<Source>)
    requires |files| == |segs| + 1
    ensures |ss| == |segs| + 1
    ensures forall i :: 0 <= i < |segs| ==>
      ss[i] == Source(segs[i].base, segs[i].count, segs[i].columns, files[i], segs[i].deleted)
    ensures ss[|segs|] == Source(wbBase, if wb == [] then 0 else |wb[0]|, wb, files[|segs|], wbDeleted)
  {
    seq(|segs|, i requires 0 <= i < |segs| => Source(segs[i].base, segs[i].count, segs[i].columns, files[i], segs[i].deleted))
    + [Source(wbBase, if wb == [] then 0 else |wb[0]|, wb, files[|segs|], wbDeleted)]
  }

  /** The live rows with an id below `n`, in order. */
  function LiveItems(v: Store, projected: seq<nat>, n: nat): seq<Item>
    requires n <= |v.rows|
  {
    if n == 0 then []
    else LiveItems(v, projected, n - 1) + if n - 1 in v.dead then [] else [Item(n - 1, Project(projected, v.rows[n - 1]))]
  }

  lemma {:induction false} LiveItemsHave(v: Store, projected: seq<nat>, n: nat, id: nat)
    requires id < n <= |v.rows| && id !in v.dead
    ensures Item(id, Project(projected, v.rows[id])) in LiveItems(v, projected, n)
  {
    hide Project;
    if id < n - 1 {
      LiveItemsHave(v, projected, n - 1, id);
    }
  }

  /** The source holds the rows of the table from its base on. */
  ghost predicate Shows(v: Store, src: Source) {
    && src.base + src.count <= |v.rows|
    && (forall p :: 0 <= p < src.count ==> ShowsAt(v, src, p))
  }

  ghost predicate ShowsAt(v: Store, src: Source, p: nat)
    requires p < src.count && src.base + src.count <= |v.rows|
  {
    v.rows[src.base + p] == RowAt(src.columns, p) && (src.base + p in v.dead <==> Bit(src.deleted, p))
  }

  /** The live rows of one source continue those of the sources before it. */
  lemma {:induction false} SourceItems(v: Store, projected: seq<nat>, src: Source, n: nat)
    requires Shows(v, src) && n <= src.count
    ensures LiveItems(v, projected, src.base + n)
         == LiveItems(v, projected, src.base) + Items(src, projected, Alive(src.deleted, 0, n))
  {
    hide Bit, RowAt, Project;
    if n > 0 {
      SourceItems(v, projected, src, n - 1);
      var p := n - 1;
      assert ShowsAt(v, src, p);
      if !Bit(src.deleted, p) {
        ItemsConcat(src, projected, Alive(src.deleted, 0, p), [p]);
        assert Items(src, projected, [p]) == [Item(src.base + p, Project(projected, RowAt(src.columns, p)))];
      }
    } else {
      assert Items(src, projected, []) == [];
    }
  }

  lemma {:induction false} NextSource(v: Store, ss: seq<Source>, projected: seq<nat>, k: nat)
    requires k < |ss| && Shows(v, ss[k]) && ScanOf(ss, None, projected, k) == LiveItems(v, projected, ss[k].base)
    ensures ScanOf(ss, None, projected, k + 1) == LiveItems(v, projected, ss[k].base + ss[k].count)
  {
    hide Alive, Emitted, LiveItems, Shows;
    FullScanExact(ss[k]);
    SourceItems(v, projected, ss[k], ss[k].count);
  }

  /** Source `i` shows segment `i` where the row ids say. */
  ghost predicate Lined(v: Store, segs: seq<Segment>, ss: seq<Source>, i: nat)
    requires i < |segs| && i < |ss|
  {
    Shows(v, ss[i]) && ss[i].base == Ends(segs, i) && ss[i].count == segs[i].count
  }

  ghost predicate AllLined(v: Store, segs: seq<Segment>, ss: seq<Source>) {
    |segs| <= |ss| && forall i :: 0 <= i < |segs| ==> Lined(v, segs, ss, i)
  }

  lemma {:induction false} LinedAt(v: Store, segs: seq<Segment>, ss: seq<Source>, m: nat)
    requires AllLined(v, segs, ss) && m < |segs|
    ensures |segs| <= |ss| && Shows(v, ss[m]) && ss[m].base == Ends(segs, m)
    ensures ss[m].base + ss[m].count == Ends(segs, m + 1)
  {
    assert Lined(v, segs, ss, m);
  }

  lemma {:induction false} SealedItems(v: Store, segs: seq<Segment>, ss: seq<Source>, projected: seq<nat>, k: nat)
    requires k <= |segs| && AllLined(v, segs, ss) && Ends(segs, |segs|) <= |v.rows|
    ensures Ends(segs, k) <= |v.rows|
    ensures ScanOf(ss, None, projected, k) == LiveItems(v, projected, Ends(segs, k))
  {
    hide *;
    EndsGrow(segs, k, |segs|);
    if k == 0 {
      NoSources(v, segs, ss, projected);
    } else {
      var m := k - 1;
      SealedItems(v, segs, ss, projected, m);
      LinedAt(v, segs, ss, m);
      NextSource(v, ss, projected, m);
    }
  }

  lemma {:induction false} NoSources(v: Store, segs: seq<Segment>, ss: seq<Source>, projected: seq<nat>)
    ensures Ends(segs, 0) == 0
    ensures ScanOf(ss, None, projected, 0) == LiveItems(v, projected, 0) == []
  {
  }

  lemma {:induction false} SealedRows(segs: seq<Segment>, wb: Columns, wbBase: nat, wbDeleted: Bits)
    ensures Ends(segs, |segs|) <= |ViewOf(segs, wb, wbBase, wbDeleted).rows|
  {
    hide DeadIds, RowsOf;
  }

  lemma {:induction false} SegmentView(schema: Schema, segs: seq<Segment>, wb: Columns, wbBase: nat, wbDeleted: Bits,
                                       files: seq<seq<FileImage>>, k: nat)
    requires Contiguous(schema, segs) && k < |segs| && wbBase == Ends(segs, |segs|) && |files| == |segs| + 1
    ensures Lined(ViewOf(segs, wb, wbBase, wbDeleted), segs, SourcesOf(segs, wb, wbBase, wbDeleted, files), k)
  {
    hide Contiguous, Bit, RowAt, ViewOf, SourcesOf;
    var v, src := ViewOf(segs, wb, wbBase, wbDeleted), SourcesOf(segs, wb, wbBase, wbDeleted, files)[k];
    SegBounds(schema, segs, k);
    EndsGrow(segs, k + 1, |segs|);
    assert src == Source(segs[k].base, segs[k].count, segs[k].columns, files[k], segs[k].deleted);
    SealedRows(segs, wb, wbBase, wbDeleted);
    hide Ends;
    forall p | 0 <= p < src.count
      ensures ShowsAt(v, src, p)
    {
      SegmentShows(schema, segs, wb, wbBase, wbDeleted, k, p);
    }
  }

  lemma {:induction false} SegmentShows(schema: Schema, segs: seq<Segment>, wb: Columns, wbBase: nat, wbDeleted: Bits,
                                        k: nat, p: nat)
    requires Contiguous(schema, segs) && k < |segs| && wbBase == Ends(segs, |segs|) && p < segs[k].count
    ensures var v := ViewOf(segs, wb, wbBase, wbDeleted);
            && segs[k].base + p < |v.rows| && v.rows[segs[k].base + p] == RowAt(segs[k].columns, p)
            && (segs[k].base + p in v.dead <==> Bit(segs[k].deleted, p))
  {
    SegBounds(schema, segs, k);
    EndsGrow(segs, k + 1, |segs|);
    SegRowAt(schema, segs, |segs|, k, p);
    OnlyHolder(schema, segs, segs[k].base + p, k);
    hide Contiguous, Bit, RowAt, DeadIn, SegRows, RowsOf;
    assert segs[k].base + p in DeadIds(segs, wbBase, wbDeleted) <==> DeadAt(segs, wbBase, wbDeleted, segs[k].base + p);
  }

  lemma {:induction false} SegRowAt(schema: Schema, segs: seq<Segment>, n: nat, k: nat, p: nat)
    requires Contiguous(schema, segs) && k < n <= |segs| && p < segs[k].count
    ensures segs[k].base + p < |SegRows(segs, n)| && SegRows(segs, n)[segs[k].base + p] == RowAt(segs[k].columns, p)
  {
    SegBounds(schema, segs, k);
    EndsGrow(segs, k + 1, n);
    hide Contiguous, RowAt;
    if k < n - 1 {
      SegRowAt(schema, segs, n - 1, k, p);
    }
  }

  /** A scan without a range shows every live row of the table once, in order, under its global id. */
  lemma {:induction false} TableScanExact(schema: Schema, segs: seq<Segment>, wb: Columns, wbBase: nat, wbDeleted: Bits,
                                          files: seq<seq<FileImage>>, projected: seq<nat>)
    requires Contiguous(schema, segs) && wbBase == Ends(segs, |segs|) && |files| == |segs| + 1
    ensures var v := ViewOf(segs, wb, wbBase, wbDeleted);
            ScanOf(SourcesOf(segs, wb, wbBase, wbDeleted, files), None, projected, |segs| + 1)
            == LiveItems(v, projected, |v.rows|)
  {
    hide *;
    var v, ss := ViewOf(segs, wb, wbBase, wbDeleted), SourcesOf(segs, wb, wbBase, wbDeleted, files);
    BufferView(segs, wb, wbBase, wbDeleted, files);
    SegmentViews(schema, segs, wb, wbBase, wbDeleted, files);
    SealedItems(v, segs, ss, projected, |segs|);
    NextSource(v, ss, projected, |segs|);
  }

  lemma {:induction false} SegmentViews(schema: Schema, segs: seq<Segment>, wb: Columns, wbBase: nat, wbDeleted: Bits,
                                        files: seq<seq<FileImage>>)
    requires Contiguous(schema, segs) && wbBase == Ends(segs, |segs|) && |files| == |segs| + 1
    ensures AllLined(ViewOf(segs, wb, wbBase, wbDeleted), segs, SourcesOf(segs, wb, wbBase, wbDeleted, files))
    ensures Ends(segs, |segs|) <= |ViewOf(segs, wb, wbBase, wbDeleted).rows|
  {
    hide Lined, Contiguous, Ends;
    forall i | 0 <= i < |segs|
      ensures Lined(ViewOf(segs, wb, wbBase, wbDeleted), segs, SourcesOf(segs, wb, wbBase, wbDeleted, files), i)
    {
      SegmentView(schema, segs, wb, wbBase, wbDeleted, files, i);
    }
  }

  lemma {:induction false} BufferView(segs: seq<Segment>, wb: Columns, wbBase: nat, wbDeleted: Bits, files: seq<seq<FileImage>>)
    requires wbBase == Ends(segs, |segs|) && |files| == |segs| + 1
    ensures var v, src := ViewOf(segs, wb, wbBase, wbDeleted), SourcesOf(segs, wb, wbBase, wbDeleted, files)[|segs|];
            Shows(v, src) && |v.rows| == src.base + src.count
  {
    hide Bit, Ends, RowAt;
    var v, src := ViewOf(segs, wb, wbBase, wbDeleted), SourcesOf(segs, wb, wbBase, wbDeleted, files)[|segs|];
    forall p | 0 <= p < src.count
      ensures ShowsAt(v, src, p)
    {
      assert DeadAt(segs, wbBase, wbDeleted, wbBase + p) <==> Bit(wbDeleted, p);
    }
  }

  // ---- range scans of a table ----

  /** Source `k` contributes its surviving rows. */
  lemma {:induction false} ScanHas(ss: seq<Source>, range: Option<ScanRange>, projected: seq<nat>, n: nat, k: nat, pos: nat)
    requires k < n <= |ss| && pos in Emitted(ss[k], range)
    ensures Item(ss[k].base + pos, Project(projected, RowAt(ss[k].columns, pos))) in ScanOf(ss, range, projected, n)
  {
    hide Emitted, Project, RowAt;
    if k < n - 1 {
      ScanHas(ss, range, projected, n - 1, k, pos);
    } else {
      var ps := Emitted(ss[k], range);
      var i :| 0 <= i < |ps| && ps[i] == pos;
      assert Items(ss[k], projected, ps)[i] == Item(ss[k].base + pos, Project(projected, RowAt(ss[k].columns, pos)));
    }
  }

  /** The files of every part of a table hold its columns. */
  ghost predicate OnFiles(schema: Schema, segs: seq<Segment>, wb: Columns, files: seq<seq<FileImage>>) {
    && |files| == |segs| + 1 && Backed(schema, files[|segs|], wb)
    && forall i :: 0 <= i < |segs| ==> Backed(schema, files[i], segs[i].columns)
  }

  lemma {:induction false} SourcesOk(schema: Schema, segs: seq<Segment>, wb: Columns, wbBase: nat, wbDeleted: Bits,
                                     files: seq<seq<FileImage>>, range: Option<ScanRange>, i: nat)
    requires Contiguous(schema, segs) && OnFiles(schema, segs, wb, files) && i <= |segs|
    requires schema != [] && |wb| == |schema| && Aligned(wb, |schema|, |wb[0]|)
    requires range.Some? ==> range.value.col < |schema|
    ensures SourceOk(schema, SourcesOf(segs, wb, wbBase, wbDeleted, files)[i], range)
  {
    hide Backed;
    if i < |segs| {
      SegBounds(schema, segs, i);
    }
  }

  /** Where a row is: in source `k` at position `pos`. */
  lemma {:induction false} RowSource(schema: Schema, segs: seq<Segment>, wb: Columns, wbBase: nat, wbDeleted: Bits,
                                     files: seq<seq<FileImage>>, id: nat) returns (k: nat, pos: nat)
    requires Contiguous(schema, segs) && wbBase == Ends(segs, |segs|) && |files| == |segs| + 1
    requires id < |ViewOf(segs, wb, wbBase, wbDeleted).rows|
    ensures var v, ss := ViewOf(segs, wb, wbBase, wbDeleted), SourcesOf(segs, wb, wbBase, wbDeleted, files);
            && k <= |segs| && pos < ss[k].count && id == ss[k].base + pos && Shows(v, ss[k])
  {
    var v, ss := ViewOf(segs, wb, wbBase, wbDeleted), SourcesOf(segs, wb, wbBase, wbDeleted, files);
    BufferView(segs, wb, wbBase, wbDeleted, files);
    SegmentViews(schema, segs, wb, wbBase, wbDeleted, files);
    hide Shows, Contiguous, ViewOf;
    if id >= wbBase {
      k, pos := |segs|, id - wbBase;
    } else {
      k := Holder(schema, segs, id, |segs|);
      LinedAt(v, segs, ss, k);
      pos := id - segs[k].base;
    }
  }

  /** A live row whose value lies in the range. */
  ghost predicate MustShow(v: Store, range: ScanRange, id: nat)
    requires id < |v.rows|
  {
    id !in v.dead && range.col < |v.rows[id]| && InScanRange(v.rows[id][range.col], range)
  }

  lemma {:induction false} SourceRange(schema: Schema, v: Store, ss: seq<Source>, range: ScanRange, projected: seq<nat>,
                                       k: nat, pos: nat)
    requires k < |ss| && SourceOk(schema, ss[k], Some(range)) && Shows(v, ss[k]) && pos < ss[k].count
    requires MustShow(v, range, ss[k].base + pos)
    ensures Item(ss[k].base + pos, Project(projected, v.rows[ss[k].base + pos])) in ScanOf(ss, Some(range), projected, |ss|)
  {
    hide Project, InScanRange, Emitted, ScanOf, Backed, Bit;
    assert ShowsAt(v, ss[k], pos);
    RangeScanSound(schema, ss[k], range, pos);
    ScanHas(ss, Some(range), projected, |ss|, k, pos);
  }

  /** With a range, every live row of the table whose value lies in it is shown, under its global id. */
  lemma {:induction false} TableRangeSound(schema: Schema, segs: seq<Segment>, wb: Columns, wbBase: nat, wbDeleted: Bits,
                                           files: seq<seq<FileImage>>, range: ScanRange, projected: seq<nat>, id: nat)
    requires Contiguous(schema, segs) && wbBase == Ends(segs, |segs|)
    requires |files| == |segs| + 1 && OnFiles(schema, segs, wb, files)
    requires schema != [] && |wb| == |schema| && Aligned(wb, |schema|, |wb[0]|) && range.col < |schema|
    requires var v := ViewOf(segs, wb, wbBase, wbDeleted); id < |v.rows| && MustShow(v, range, id)
    ensures var v := ViewOf(segs, wb, wbBase, wbDeleted);
            Item(id, Project(projected, v.rows[id]))
            in ScanOf(SourcesOf(segs, wb, wbBase, wbDeleted, files), Some(range), projected, |segs| + 1)
  {
    hide *;
    var v, ss := ViewOf(segs, wb, wbBase, wbDeleted), SourcesOf(segs, wb, wbBase, wbDeleted, files);
    var k, pos := RowSource(schema, segs, wb, wbBase, wbDeleted, files, id);
    SourcesOk(schema, segs, wb, wbBase, wbDeleted, files, Some(range), k);
    SourceRange(schema, v, ss, range, projected, k, pos);
  }

  // ---- every item is a live row, shown once ----

  ghost predicate Rising(ps: seq<nat>) {
    forall i, j :: 0 <= i < j < |ps| ==> ps[i] < ps[j]
  }

  ghost predicate AllBelow(ps: seq<nat>, n: nat) {
    forall i :: 0 <= i < |ps| ==> ps[i] < n
  }

  lemma {:induction false} RisingJoin(a: seq<nat>, b: seq<nat>, m: nat, n: nat)
    requires Rising(a) && Rising(b) && AllBelow(a, m) && AllBelow(b, n) && m <= n
    requires forall i :: 0 <= i < |b| ==> m <= b[i]
    ensures Rising(a + b) && AllBelow(a + b, n)
  {
  }

  lemma {:induction false} KeptRises(pages: Pages, r: ScanRange, k: nat)
    requires k <= |pages|
    ensures Rising(KeptTo(pages, r, k)) && AllBelow(KeptTo(pages, r, k), PageStart(pages, k))
  {
    hide PageOverlaps;
    if k > 0 {
      KeptRises(pages, r, k - 1);
      var s, e := PageStart(pages, k - 1), PageStart(pages, k);
      RisingJoin(KeptTo(pages, r, k - 1), Span(s, e), s, e);
      RisingJoin(KeptTo(pages, r, k - 1), [], s, e);
    }
  }

  lemma {:induction false} LivingRises(bm: Bits, ps: seq<nat>, n: nat)
    requires Rising(ps) && AllBelow(ps, n)
    ensures Rising(Living(bm, ps)) && AllBelow(Living(bm, ps), n)
    ensures ps != [] ==> AllBelow(Living(bm, ps), ps[|ps| - 1] + 1)
  {
    hide Bit;
    if ps != [] {
      var m := |ps| - 1;
      LivingRises(bm, ps[..m], ps[m]);
      assert AllBelow(Living(bm, ps[..m]), ps[m]);
    }
  }

  /** The positions emitted of a source rise and are rows of it. */
  lemma {:induction false} EmittedRises(schema: Schema, src: Source, range: Option<ScanRange>)
    requires SourceOk(schema, src, range)
    ensures Rising(Emitted(src, range)) && AllBelow(Emitted(src, range), src.count)
    ensures forall p :: p in Emitted(src, range) ==> !Bit(src.deleted, p)
  {
    hide Bit, Living, KeptTo, ImageOk, Rising, AllBelow;
    if range.Some? {
      var f := src.files[range.value.col];
      assert Holds(schema[range.value.col], f, src.columns[range.value.col]);
      KeptRises(f.pages, range.value, |f.pages|);
    } else {
      SpanRises(0, src.count);
    }
    LivingRises(src.deleted, LookedAt(src, range), src.count);
    forall p | p in Emitted(src, range)
      ensures !Bit(src.deleted, p)
    {
      LivingMember(src.deleted, LookedAt(src, range), p);
    }
  }

  lemma {:induction false} SpanRises(s: nat, e: nat)
    ensures Rising(Span(s, e)) && AllBelow(Span(s, e), e)
  {
  }

  /** The item is a live row of the table under its id. */
  ghost predicate LiveItem(v: Store, projected: seq<nat>, x: Item) {
    x.id < |v.rows| && x.id !in v.dead && x.row == Project(projected, v.rows[x.id])
  }

  ghost predicate OnlyLive(v: Store, projected: seq<nat>, items: seq<Item>, lo: nat, hi: nat) {
    && (forall i :: 0 <= i < |items| ==> LiveItem(v, projected, items[i]) && lo <= items[i].id < hi)
    && (forall i, j :: 0 <= i < j < |items| ==> items[i].id < items[j].id)
  }

  lemma {:induction false} OnlyLiveJoin(v: Store, projected: seq<nat>, a: seq<Item>, b: seq<Item>, m: nat, n: nat)
    requires OnlyLive(v, projected, a, 0, m) && OnlyLive(v, projected, b, m, n) && m <= n
    ensures OnlyLive(v, projected, a + b, 0, n)
  {
    hide LiveItem;
  }

  lemma {:induction false} SourceOnlyLive(schema: Schema, v: Store, projected: seq<nat>, src: Source, range: Option<ScanRange>)
    requires SourceOk(schema, src, range) && Shows(v, src)
    ensures OnlyLive(v, projected, Items(src, projected, Emitted(src, range)), src.base, src.base + src.count)
  {
    hide Emitted, Bit, RowAt, Project, SourceOk;
    EmittedRises(schema, src, range);
    RisingOnlyLive(v, projected, src, Emitted(src, range));
  }

  lemma {:induction false} RisingOnlyLive(v: Store, projected: seq<nat>, src: Source, ps: seq<nat>)
    requires Shows(v, src) && Rising(ps) && AllBelow(ps, src.count) && forall p :: p in ps ==> !Bit(src.deleted, p)
    ensures OnlyLive(v, projected, Items(src, projected, ps), src.base, src.base + src.count)
  {
    hide Bit, RowAt, Project;
    var items := Items(src, projected, ps);
    forall i | 0 <= i < |items|
      ensures LiveItem(v, projected, items[i]) && src.base <= items[i].id < src.base + src.count
    {
      assert ShowsAt(v, src, ps[i]);
    }
    hide Shows, LiveItem;
  }

  lemma {:induction false} SealedOnlyLive(schema: Schema, v: Store, segs: seq<Segment>, ss: seq<Source>, projected: seq<nat>,
                                          range: Option<ScanRange>, k: nat)
    requires k <= |segs| && AllLined(v, segs, ss)
    requires forall i :: 0 <= i < |segs| ==> SourceOk(schema, ss[i], range)
    ensures OnlyLive(v, projected, ScanOf(ss, range, projected, k), 0, Ends(segs, k))
  {
    hide OnlyLive, SourceOk, Emitted, Items;
    if k == 0 {
      NoneOnlyLive(v, projected);
    } else {
      var m := k - 1;
      SealedOnlyLive(schema, v, segs, ss, projected, range, m);
      LinedAt(v, segs, ss, m);
      SourceOnlyLive(schema, v, projected, ss[m], range);
      OnlyLiveJoin(v, projected, ScanOf(ss, range, projected, m), Items(ss[m], projected, Emitted(ss[m], range)),
                   Ends(segs, m), Ends(segs, k));
    }
  }

  lemma {:induction false} NoneOnlyLive(v: Store, projected: seq<nat>)
    ensures OnlyLive(v, projected, [], 0, 0)
  {
  }

  /** Whatever the range, what is shown are live rows, each once, in the order of their ids. */
  lemma {:induction false} TableScanLive(schema: Schema, segs: seq<Segment>, wb: Columns, wbBase: nat, wbDeleted: Bits,
                                         files: seq<seq<FileImage>>, range: Option<ScanRange>, projected: seq<nat>)
    requires Contiguous(schema, segs) && wbBase == Ends(segs, |segs|) && OnFiles(schema, segs, wb, files)
    requires schema != [] && |wb| == |schema| && Aligned(wb, |schema|, |wb[0]|)
    requires range.Some? ==> range.value.col < |schema|
    ensures var v := ViewOf(segs, wb, wbBase, wbDeleted);
            OnlyLive(v, projected, ScanOf(SourcesOf(segs, wb, wbBase, wbDeleted, files), range, projected, |segs| + 1), 0, |v.rows|)
  {
    var v, ss := ViewOf(segs, wb, wbBase, wbDeleted), SourcesOf(segs, wb, wbBase, wbDeleted, files);
    var n := |segs|;
    assert ss[n].base == wbBase && ScanOf(ss, range, projected, n + 1)
        == ScanOf(ss, range, projected, n) + Items(ss[n], projected, Emitted(ss[n], range));
    BufferView(segs, wb, wbBase, wbDeleted, files);
    SegmentViews(schema, segs, wb, wbBase, wbDeleted, files);
    hide OnlyLive, SourceOk, Emitted, Items, ScanOf, Shows, Contiguous, ViewOf, SourcesOf, OnFiles, AllLined;
    forall i | 0 <= i <= n
      ensures SourceOk(schema, ss[i], range)
    {
      SourcesOk(schema, segs, wb, wbBase, wbDeleted, files, range, i);
    }
    SealedOnlyLive(schema, v, segs, ss, projected, range, n);
    SourceOnlyLive(schema, v, projected, ss[n], range);
    OnlyLiveJoin(v, projected, ScanOf(ss, range, projected, n), Items(ss[n], projected, Emitted(ss[n], range)), wbBase, |v.rows|);
  }

  // ---- scanning a table through its column files ----

  /** The column files of a part of a table. */
  ghost predicate FilesHold(schema: Schema, files: seq<ColumnFile>, cols: Columns)
    reads files, set f | f in files :: f.page
  {
    && |files| == |cols| == |schema|
    && forall c :: 0 <= c < |files| ==> files[c].Valid() && files[c].kind == schema[c] && files[c].Rows() == cols[c]
  }

  method ReadImages(schema: Schema, files: seq<ColumnFile>, ghost cols: Columns) returns (imgs: seq<FileImage>)
    requires FilesHold(schema, files, cols)
    ensures Backed(schema, imgs, cols)
  {
    hide ColumnFile.Valid, ColumnFile.Rows, Holds;
    imgs := [];
    for c := 0 to |files|
      invariant |imgs| == c && forall i :: 0 <= i < c ==> Holds(schema[i], imgs[i], cols[i])
    {
      var img := ScanPages(files[c]);
      imgs := imgs + [img];
    }
  }

  /**
   * Scans a table whose segments and write buffer are in these column files. Without a range
   * the live rows come out, in order; with one, only live rows do, each once and in order, and
   * every live row whose value lies in the range is among them.
   */
  method ScanTable(t: Table, files: seq<seq<ColumnFile>>, range: Option<ScanRange>, projected: seq<nat>) returns (out: seq<Item>)
    requires t.Valid() && |files| == |t.segments| + 1
    requires forall i :: 0 <= i < |t.segments| ==> FilesHold(t.schema, files[i], t.segments[i].columns)
    requires FilesHold(t.schema, files[|t.segments|], t.wb)
    requires range.Some? ==> range.value.col < |t.schema|
    requires forall i :: 0 <= i < |projected| ==> projected[i] < |t.schema|
    ensures range.None? ==> out == LiveItems(t.View(), projected, |t.View().rows|)
    ensures OnlyLive(t.View(), projected, out, 0, |t.View().rows|)
    ensures range.None? ==> forall id :: 0 <= id < |t.View().rows| && id !in t.View().dead ==>
              Item(id, Project(projected, t.View().rows[id])) in out
    ensures range.Some? ==> forall id :: 0 <= id < |t.View().rows| && MustShow(t.View(), range.value, id) ==>
              Item(id, Project(projected, t.View().rows[id])) in out
  {
    hide FilesHold, Backed, ScanOf, OnlyLive, Contiguous, Project, LiveItems, ViewOf, Typed;
    var n := |t.segments|;
    var imgs: seq<seq<FileImage>> := [];
    for k := 0 to n
      invariant |imgs| == k && forall i :: 0 <= i < k ==> Backed(t.schema, imgs[i], t.segments[i].columns)
    {
      var part := ReadImages(t.schema, files[k], t.segments[k].columns);
      imgs := imgs + [part];
    }
    var last := ReadImages(t.schema, files[n], t.wb);
    imgs := imgs + [last];
    assert OnFiles(t.schema, t.segments, t.wb, imgs);
    var ss := SourcesOf(t.segments, t.wb, t.wbBase, t.wbDeleted, imgs);
    hide SourcesOf, OnFiles, SourceOk;
    forall i | 0 <= i <= n
      ensures SourceOk(t.schema, ss[i], range)
    {
      SourcesOk(t.schema, t.segments, t.wb, t.wbBase, t.wbDeleted, imgs, range, i);
    }
    out := RunScan(t.schema, ss, range, projected);
    TableScanLive(t.schema, t.segments, t.wb, t.wbBase, t.wbDeleted, imgs, range, projected);
    if range.None? {
      TableScanExact(t.schema, t.segments, t.wb, t.wbBase, t.wbDeleted, imgs, projected);
      forall id | 0 <= id < |t.View().rows| && id !in t.View().dead
        ensures Item(id, Project(projected, t.View().rows[id])) in out
      {
        LiveItemsHave(t.View(), projected, |t.View().rows|, id);
      }
    } else {
      forall id | 0 <= id < |t.View().rows| && MustShow(t.View(), range.value, id)
        ensures Item(id, Project(projected, t.View().rows[id])) in out
      {
        TableRangeSound(t.schema, t.segments, t.wb, t.wbBase, t.wbDeleted, imgs, range.value, projected, id);
      }
    }
  }
}
