/** A table: sealed segments followed by a write buffer, each with a tombstone bitmap. */
module Tables {
  import opened Values
  import opened Bitmap
  import opened ColumnFiles
  import opened RowStore

  type Columns = seq<seq<Value>>
  type Schema = seq<Kind>

  datatype Segment = Segment(id: nat, base: nat, count: nat, columns: Columns, deleted: Bits)

  /** The bitmap is empty or has a bit for every row. */
  predicate Covers(bm: Bits, n: nat) {
    bm == [] || n <= 8 * |bm|
  }

  ghost predicate AllCover(segs: seq<Segment>) {
    forall i :: 0 <= i < |segs| ==> Covers(segs[i].deleted, segs[i].count)
  }

  lemma {:induction false} CoverNext(segs: seq<Segment>, s: Segment)
    ensures AllCover(segs + [s]) <==> AllCover(segs) && Covers(s.deleted, s.count)
  {
    hide Covers;
    if AllCover(segs + [s]) {
      assert (segs + [s])[|segs|] == s;
      forall i | 0 <= i < |segs|
        ensures Covers(segs[i].deleted, segs[i].count)
      {
        assert (segs + [s])[i] == segs[i];
      }
    }
  }

  /** `width` columns of `n` values each. */
  ghost predicate Aligned(cols: Columns, width: nat, n: nat) {
    |cols| == width && forall c :: 0 <= c < width ==> |cols[c]| == n
  }

  /** Every value is one that its column takes. */
  ghost predicate Typed(schema: Schema, cols: Columns) {
    |cols| == |schema| && forall c, i :: 0 <= c < |cols| && 0 <= i < |cols[c]| ==> Accepts(schema[c], cols[c][i])
  }

  /** Row `i` of columns that are long enough. */
  function RowAt(cols: Columns, i: nat): (r: Row)
    ensures |r| == |cols|
    ensures forall c :: 0 <= c < |cols| ==> r[c] == if i < |cols[c]| then cols[c][i] else Null
  {
    seq(|cols|, c requires 0 <= c < |cols| => if i < |cols[c]| then cols[c][i] else Null)
  }

  function RowsOf(cols: Columns, n: nat): (rows: seq<Row>)
    ensures |rows| == n && forall i :: 0 <= i < n ==> rows[i] == RowAt(cols, i)
  {
    seq(n, i requires 0 <= i < n => RowAt(cols, i))
  }

  function NoRows(width: nat): (cols: Columns)
    ensures |cols| == width && forall c :: 0 <= c < width ==> cols[c] == []
  {
    seq(width, _ => [])
  }

  /** Row ids run on from segment to segment. */
  ghost predicate Contiguous(schema: Schema, segs: seq<Segment>) {
    forall i :: 0 <= i < |segs| ==> Placed(schema, segs, i)
  }

  /** Segment `i` is in order and its row ids follow those of the segment before it. */
  ghost predicate Placed(schema: Schema, segs: seq<Segment>, i: nat)
    requires i < |segs|
  {
    SegOk(schema, segs[i]) && segs[i].base == Ends(segs, i)
  }

  ghost predicate SegOk(schema: Schema, s: Segment) {
    s.count > 0 && Aligned(s.columns, |schema|, s.count) && Typed(schema, s.columns)
  }

  /** The first row id after the first `n` segments. */
  function Ends(segs: seq<Segment>, n: nat): nat
    requires n <= |segs|
  {
    if n == 0 then 0 else Ends(segs, n - 1) + segs[n - 1].count
  }

  function SegRows(segs: seq<Segment>, n: nat): (rows: seq<Row>)
    requires n <= |segs|
    ensures |rows| == Ends(segs, n)
  {
    if n == 0 then [] else SegRows(segs, n - 1) + RowsOf(segs[n - 1].columns, segs[n - 1].count)
  }

  predicate HoldsRow(s: Segment, id: nat) {
    s.base <= id < s.base + s.count
  }

  predicate SegDead(s: Segment, id: nat) {
    HoldsRow(s, id) && Bit(s.deleted, id - s.base)
  }

  predicate DeadIn(segs: seq<Segment>, id: nat) {
    exists i :: 0 <= i < |segs| && SegDead(segs[i], id)
  }

  /** Whether a row id has a tombstone. */
  predicate DeadAt(segs: seq<Segment>, wbBase: nat, wbDeleted: Bits, id: nat) {
    if id >= wbBase then Bit(wbDeleted, id - wbBase) else DeadIn(segs, id)
  }

  /** All row ids with a tombstone. */
  function DeadIds(segs: seq<Segment>, wbBase: nat, wbDeleted: Bits): (d: set<nat>)
    ensures forall id :: id in d <==> DeadAt(segs, wbBase, wbDeleted, id)
  {
    var d := set id: nat | id < wbBase + 8 * |wbDeleted| && DeadAt(segs, wbBase, wbDeleted, id);
    assert forall id: nat :: DeadAt(segs, wbBase, wbDeleted, id) ==> id < wbBase + 8 * |wbDeleted|;
    d
  }

  /** The rows by global id, and their tombstones. */
  function ViewOf(segs: seq<Segment>, wb: Columns, wbBase: nat, wbDeleted: Bits): Store {
    Store(SegRows(segs, |segs|) + RowsOf(wb, if wb == [] then 0 else |wb[0]|), DeadIds(segs, wbBase, wbDeleted))
  }

  lemma {:induction false} EndsGrow(segs: seq<Segment>, i: nat, j: nat)
    requires i <= j <= |segs|
    ensures Ends(segs, i) <= Ends(segs, j)
  {
    if i < j {
      EndsGrow(segs, i, j - 1);
    }
  }

  lemma {:induction false} EndsSame(a: seq<Segment>, b: seq<Segment>, n: nat)
    requires n <= |a| && n <= |b|
    requires forall i :: 0 <= i < n ==> a[i].count == b[i].count && a[i].columns == b[i].columns
    ensures Ends(a, n) == Ends(b, n) && SegRows(a, n) == SegRows(b, n)
  {
    if n > 0 {
      EndsSame(a, b, n - 1);
    }
  }

  lemma {:induction false} SegBounds(schema: Schema, segs: seq<Segment>, i: nat)
    requires Contiguous(schema, segs) && i < |segs|
    ensures segs[i].base == Ends(segs, i) && Ends(segs, i + 1) == segs[i].base + segs[i].count
    ensures SegOk(schema, segs[i])
  {
    assert Placed(schema, segs, i);
  }

  lemma {:induction false} FirstBase(schema: Schema, segs: seq<Segment>)
    requires Contiguous(schema, segs)
    ensures segs != [] ==> segs[0].base == 0
    ensures Ends(segs, 0) == 0
  {
    if segs != [] {
      assert Placed(schema, segs, 0);
    }
  }

  /** A row of a sealed table is held by one segment only. */
  lemma {:induction false} HolderUnique(schema: Schema, segs: seq<Segment>, id: nat, i: nat, j: nat)
    requires Contiguous(schema, segs) && i < |segs| && j < |segs|
    requires HoldsRow(segs[i], id) && HoldsRow(segs[j], id)
    ensures i == j
  {
    SegBounds(schema, segs, i);
    SegBounds(schema, segs, j);
    hide Contiguous, Ends;
    if i < j {
      EndsGrow(segs, i + 1, j);
    } else if j < i {
      EndsGrow(segs, j + 1, i);
    }
  }

  lemma {:induction false} OnlyHolder(schema: Schema, segs: seq<Segment>, id: nat, i: nat)
    requires Contiguous(schema, segs) && i < |segs| && HoldsRow(segs[i], id)
    ensures DeadIn(segs, id) <==> Bit(segs[i].deleted, id - segs[i].base)
  {
    hide Bit;
    if DeadIn(segs, id) {
      var j :| 0 <= j < |segs| && SegDead(segs[j], id);
      HolderUnique(schema, segs, id, i, j);
    } else {
      assert !SegDead(segs[i], id);
    }
  }

  /** The values that make up column `c` of a batch of rows. */
  function Batch(rows: seq<Row>, c: nat): (b: seq<Value>)
    requires forall r :: 0 <= r < |rows| ==> c < |rows[r]|
    ensures |b| == |rows| && forall r :: 0 <= r < |rows| ==> b[r] == rows[r][c]
  {
    seq(|rows|, r requires 0 <= r < |rows| => rows[r][c])
  }

  predicate SizesOk(width: nat, rows: seq<Row>) {
    forall r :: 0 <= r < |rows| ==> |rows[r]| == width
  }

  /** Every row has the right number of values, each of which its column takes. */
  predicate RowsFit(schema: Schema, rows: seq<Row>) {
    && SizesOk(|schema|, rows)
    && forall r, c :: 0 <= r < |rows| && 0 <= c < |schema| ==> Accepts(schema[c], rows[r][c])
  }

  /** The first column that refuses a value of the batch. */
  function RefusingColumn(schema: Schema, rows: seq<Row>, from: nat): (c: nat)
    requires SizesOk(|schema|, rows) && from <= |schema|
    ensures from <= c <= |schema|
    ensures forall k :: from <= k < c ==> FirstRefused(schema[k], Batch(rows, k), 0) == |rows|
    ensures c < |schema| ==> FirstRefused(schema[c], Batch(rows, c), 0) < |rows|
    decreases |schema| - from
  {
    if from == |schema| || FirstRefused(schema[from], Batch(rows, from), 0) < |rows| then from
    else RefusingColumn(schema, rows, from + 1)
  }

  /** What a refused batch leaves behind: the columns before the refusal are longer than those after. */
  function Uneven(schema: Schema, cols: Columns, rows: seq<Row>): (r: Columns)
    requires |cols| == |schema| && SizesOk(|schema|, rows)
    ensures |r| == |cols|
  {
    var c := RefusingColumn(schema, rows, 0);
    var e := Extended(schema, cols, rows, c);
    if c == |schema| then e else e[c := e[c] + Batch(rows, c)[..FirstRefused(schema[c], Batch(rows, c), 0)]]
  }

  function Extended(schema: Schema, cols: Columns, rows: seq<Row>, upTo: nat): (r: Columns)
    requires |cols| == |schema| && upTo <= |schema| && SizesOk(|schema|, rows)
    ensures |r| == |cols|
    ensures forall c :: 0 <= c < |cols| ==> r[c] == if c < upTo then cols[c] + Batch(rows, c) else cols[c]
  {
    seq(|cols|, c requires 0 <= c < |cols| => if c < upTo then cols[c] + Batch(rows, c) else cols[c])
  }

  lemma {:induction false} ExtendedRows(schema: Schema, cols: Columns, rows: seq<Row>, n: nat)
    requires Aligned(cols, |schema|, n) && Typed(schema, cols) && RowsFit(schema, rows)
    ensures var e := Extended(schema, cols, rows, |schema|);
            && Aligned(e, |schema|, n + |rows|) && Typed(schema, e)
            && RowsOf(e, n + |rows|) == RowsOf(cols, n) + rows
  {
    var e := Extended(schema, cols, rows, |schema|);
    forall i | 0 <= i < n + |rows|
      ensures RowAt(e, i) == (RowsOf(cols, n) + rows)[i]
    {
      if i < n {
        assert RowAt(e, i) == RowAt(cols, i);
      } else {
        assert RowAt(e, i) == rows[i - n];
      }
    }
  }

  /** Of the rows of `b` those are dead that were dead in `a`. */
  ghost predicate SameDead(a: Store, b: Store) {
    forall id :: 0 <= id < |b.rows| ==> (id in b.dead <==> id in a.dead)
  }

  lemma {:induction false} RowCounts(t: Table)
    requires t.Valid()
    ensures t.schema != [] && |t.wb| == |t.schema| && |t.View().rows| == t.wbBase + |t.wb[0]|
  {
  }

  class Table {
    const schema: Schema
    const threshold: nat
    var wb: Columns
    var wbDeleted: Bits
    var wbBase: nat
    var segments: seq<Segment>
    var nextId: nat

    ghost predicate Valid()
      reads this
    {
      && schema != []
      && |wb| == |schema| && Aligned(wb, |schema|, |wb[0]|) && Typed(schema, wb)
      && Contiguous(schema, segments) && wbBase == Ends(segments, |segments|)
    }

    /** The rows by global id, and their tombstones. */
    ghost function View(): Store
      requires Valid()
      reads this
    {
      ViewOf(segments, wb, wbBase, wbDeleted)
    }

    constructor (schema: Schema, threshold: nat)
      requires schema != []
      ensures Valid() && View() == Store([], {}) && this.schema == schema && this.threshold == threshold
      ensures segments == [] && wbDeleted == []
    {
      this.schema, this.threshold := schema, threshold;
      wb, wbDeleted, wbBase, segments, nextId := NoRows(|schema|), [], 0, [], 0;
    }

    method RowCount() returns (n: nat)
      requires Valid()
      ensures n == |View().rows|
    {
      n := wbBase + |wb[0]|;
    }

    /** Looks for the segment of a row one by one. */
    method IsRowDeleted(id: nat) returns (dead: bool)
      requires Valid()
      ensures dead <==> id in View().dead
    {
      hide Bit, Contiguous, SegRows, Ends, RowsOf, Aligned, Typed, SegOk;
      if id >= wbBase {
        return Bit(wbDeleted, id - wbBase);
      }
      var i := 0;
      while i < |segments|
        invariant i <= |segments| && forall j :: 0 <= j < i ==> !HoldsRow(segments[j], id)
      {
        var s := segments[i];
        if s.base <= id < s.base + s.count {
          OnlyHolder(schema, segments, id, i);
          return Bit(s.deleted, id - s.base);
        }
        i := i + 1;
      }
      dead := false;
    }

    /** Seals the write buffer, if it has rows, as a new segment with its tombstones. */
    method FlushWriteBuffer()
      requires Valid()
      modifies this
      ensures Valid() && wb == (if old(|wb[0]|) == 0 then old(wb) else NoRows(|schema|))
      ensures View() == if old(|wb[0]|) == 0 then old(View()) else Seen(old(View()))
      ensures View().rows == old(View()).rows && SameDead(old(View()), View())
      ensures wbBase == old(wbBase) + old(|wb[0]|)
      ensures old(|wb[0]|) == 0 ==> segments == old(segments) && wbDeleted == old(wbDeleted)
      ensures AllCover(segments) <==> old(AllCover(segments)) && (old(|wb[0]|) > 0 ==> Covers(old(wbDeleted), old(|wb[0]|)))
    {
      hide AllCover, Covers;
      if |wb[0]| > 0 {
        SealRows();
      }
    }

    method SealRows()
      requires Valid() && |wb[0]| > 0
      modifies this
      ensures Valid() && wb == NoRows(|schema|)
      ensures View() == Seen(old(View()))
      ensures wbBase == old(wbBase) + old(|wb[0]|)
      ensures AllCover(segments) <==> old(AllCover(segments)) && Covers(old(wbDeleted), old(|wb[0]|))
    {
      var count := |wb[0]|;
      var seg := Segment(nextId, wbBase, count, wb, wbDeleted);
      SealedView(schema, segments, seg);
      CoverNext(segments, seg);
      hide AllCover, Covers, Aligned, Typed, Contiguous, Ends, Seen, ViewOf;
      segments := segments + [seg];
      wbBase := wbBase + count;
      wbDeleted := [];
      wb := NoRows(|schema|);
      nextId := nextId + 1;
    }

    method MaybeFlush()
      requires Valid()
      modifies this
      ensures Valid()
      ensures View() == if old(|wb[0]|) >= threshold && old(|wb[0]|) > 0 then Seen(old(View())) else old(View())
      ensures wbBase == if old(|wb[0]|) >= threshold then old(wbBase) + old(|wb[0]|) else old(wbBase)
      ensures |wb[0]| == if old(|wb[0]|) >= threshold then 0 else old(|wb[0]|)
      ensures old(|wb[0]|) < threshold || old(|wb[0]|) == 0 ==> segments == old(segments) && wbDeleted == old(wbDeleted)
      ensures AllCover(segments)
         <==> old(AllCover(segments)) && (old(|wb[0]|) >= threshold && old(|wb[0]|) > 0 ==> Covers(old(wbDeleted), old(|wb[0]|)))
    {
      hide AllCover, Covers;
      if |wb[0]| >= threshold {
        FlushWriteBuffer();
      }
    }

    /** Appends rows column by column; refuses rows of the wrong size before touching anything. */
    method InsertMany(rows: seq<Row>) returns (ok: bool)
      requires Valid()
      modifies this
      ensures ok <==> RowsFit(schema, rows)
      ensures ok ==> Valid()
      ensures ok ==> View() == if Seals(rows, old(|wb[0]|), threshold) then Seen(Insert(old(View()), rows))
                               else Insert(old(View()), rows)
      ensures ok ==> View().rows == old(View()).rows + rows && SameDead(old(View()), View())
      ensures ok ==> wbBase == if Seals(rows, old(|wb[0]|), threshold) then |View().rows| else old(wbBase)
      ensures ok && !Seals(rows, old(|wb[0]|), threshold) ==> segments == old(segments) && wbDeleted == old(wbDeleted)
      ensures ok && Seals(rows, old(|wb[0]|), threshold) ==>
                (AllCover(segments) <==> old(AllCover(segments)) && Covers(old(wbDeleted), old(|wb[0]|) + |rows|))
      ensures !ok ==> segments == old(segments) && wbBase == old(wbBase) && wbDeleted == old(wbDeleted)
      ensures !ok ==> wb == if SizesOk(|schema|, rows) then Uneven(schema, old(wb), rows) else old(wb)
    {
      if rows == [] {
        return true;
      }
      var r := 0;
      while r < |rows|
        invariant r <= |rows| && SizesOk(|schema|, rows[..r])
      {
        if |rows[r]| != |schema| {
          assert !SizesOk(|schema|, rows);
          return false;
        }
        r := r + 1;
      }
      assert rows[..r] == rows;
      ghost var n := |wb[0]|;
      ok := AppendColumns(rows);
      if ok {
        InsertedView(schema, segments, old(wb), rows, wbBase, wbDeleted);
        hide AllCover, Covers, RowsFit, RowsOf, SegRows, DeadIds, Aligned, Typed, Contiguous, Extended;
        MaybeFlush();
      }
    }

    /** The segment of a sealed row, by binary search. */
    method FindSegment(gid: nat) returns (lo: nat)
      requires Valid() && gid < wbBase
      ensures lo < |segments| && HoldsRow(segments[lo], gid)
    {
      FirstBase(schema, segments);
      hide Contiguous, Ends;
      lo := 0;
      var hi := |segments|;
      while lo + 1 < hi
        invariant lo < hi <= |segments| && segments[lo].base <= gid < Ends(segments, hi)
      {
        var mid := (lo + hi) / 2;
        SegBounds(schema, segments, mid);
        if segments[mid].base <= gid {
          lo := mid;
        } else {
          hi := mid;
        }
      }
      SegBounds(schema, segments, lo);
    }

    /** Sorts row ids into those of the write buffer and those of each segment. */
    method RouteIds(ids: seq<nat>) returns (wbIds: seq<nat>, segIds: seq<seq<nat>>)
      requires Valid()
      ensures Routed(wbBase, ids, wbIds) && AllRouted(segments, ids, segIds)
    {
      hide SegOk, Ends, Routed, RoutedTo;
      RouteNone(segments, wbBase);
      wbIds, segIds := [], seq(|segments|, _ => []);
      var k := 0;
      while k < |ids|
        invariant k <= |ids| && Routed(wbBase, ids[..k], wbIds) && AllRouted(segments, ids[..k], segIds)
      {
        var gid := ids[k];
        assert ids[..k + 1] == ids[..k] + [gid];
        if gid >= wbBase {
          RouteBuffer(schema, segments, wbBase, ids[..k], gid, wbIds, segIds);
          wbIds := wbIds + [gid - wbBase];
        } else {
          var lo := FindSegment(gid);
          RouteSegment(schema, segments, wbBase, ids[..k], gid, lo, wbIds, segIds);
          segIds := segIds[lo := segIds[lo] + [gid - segments[lo].base]];
        }
        k := k + 1;
      }
      assert ids[..k] == ids;
    }

    /** Puts a tombstone on each row that exists. */
    method MarkDeleted(ids: seq<nat>)
      requires Valid()
      modifies this`wbDeleted, this`segments
      ensures Valid() && View() == Delete(old(View()), ids)
      ensures View().rows == old(View()).rows
      ensures forall id :: id in View().dead <==> id in old(View()).dead || (id in ids && id < |View().rows|)
      ensures old(AllCover(segments)) ==> AllCover(segments)
      ensures if forall gid :: gid in ids ==> gid < wbBase then wbDeleted == old(wbDeleted)
              else |wbDeleted| == if old(|wbDeleted|) < BytesFor(|wb[0]|) then BytesFor(|wb[0]|) else old(|wbDeleted|)
    {
      if ids == [] {
        assert Delete(View(), ids).dead == View().dead;
        return;
      }
      var wbIds, segIds := RouteIds(ids);
      RoutedNone(wbBase, ids, wbIds);
      if wbIds != [] {
        wbDeleted := MarkBits(wbDeleted, |wb[0]|, wbIds);
      }
      ghost var before := segments;
      MarkSegments(ids, segIds);
      MarkedView(schema, before, segments, wb, wbBase, old(wbDeleted), wbDeleted, wbIds, ids);
    }

    method MarkSegments(ghost ids: seq<nat>, segIds: seq<seq<nat>>)
      requires AllRouted(segments, ids, segIds)
      modifies this`segments
      ensures |segments| == |old(segments)|
      ensures forall i :: 0 <= i < |segments| ==> SegMarked(old(segments)[i], segments[i], ids)
    {
      ghost var before := segments;
      var si := 0;
      while si < |segments|
        invariant si <= |segments| == |before|
        invariant forall i :: 0 <= i < si ==> SegMarked(before[i], segments[i], ids)
        invariant forall i :: si <= i < |segments| ==> segments[i] == before[i]
      {
        ghost var s := segments[si];
        assert RoutedTo(before[si], ids, segIds[si]);
        if segIds[si] != [] {
          var bm := MarkBits(segments[si].deleted, segments[si].count, segIds[si]);
          segments := segments[si := segments[si].(deleted := bm)];
        }
        MarkedSeg(s, segments[si], ids, segIds[si]);
        si := si + 1;
      }
    }

    /** Cuts every column of the write buffer to the rows before `target`; sealed rows stay. */
    method Truncate(target: nat)
      requires Valid() && target <= |View().rows|
      modifies this`wb
      ensures Valid()
      ensures View() == Store(old(View()).rows[..if target > wbBase then target else wbBase], old(View()).dead)
    {
      var m := if target > wbBase then target - wbBase else 0;
      CutView(schema, segments, wb, wbBase, wbDeleted, m);
      wb := CutColumns(wb, m);
    }

    /** Puts one segment in the place of the first `n`. */
    method ReplaceSegments(n: nat, base: nat, count: nat, columns: Columns, deleted: Bits)
      requires 0 < n <= |segments|
      modifies this`segments, this`nextId
      ensures segments == [Segment(old(nextId), base, count, columns, deleted)] + old(segments)[n..]
    {
      var seg := Segment(nextId, base, count, columns, deleted);
      nextId := nextId + 1;
      ghost var before := segments;
      var k := n;
      while k > 0
        invariant k <= n && segments == before[..k] + before[n..]
      {
        k := k - 1;
        segments := segments[..k] + segments[k + 1..];
      }
      segments := segments[..k] + [seg] + segments[k..];
    }

    /** Tombstones on the old rows, then new rows, as one step. */
    method UpdateRows(ids: seq<nat>, rows: seq<Row>) returns (ok: bool)
      requires Valid()
      modifies this
      ensures ok <==> RowsFit(schema, rows)
      ensures ok ==> Valid()
      ensures ok ==> View() == if Seals(rows, old(|wb[0]|), threshold) then Seen(Update(old(View()), ids, rows))
                               else Update(old(View()), ids, rows)
      ensures ok ==> View().rows == old(View()).rows + rows
      ensures ok ==> forall id :: 0 <= id < |View().rows| ==>
                (id in View().dead <==> id in old(View()).dead || (id in ids && id < old(|View().rows|)))
      ensures ok ==> wbBase == if Seals(rows, old(|wb[0]|), threshold) then |View().rows| else old(wbBase)
      ensures !ok ==> wbBase == old(wbBase) && ViewOf(segments, old(wb), wbBase, wbDeleted) == Delete(old(View()), ids)
      ensures !ok ==> wb == if SizesOk(|schema|, rows) then Uneven(schema, old(wb), rows) else old(wb)
    {
      hide RowsFit, Uneven;
      MarkDeleted(ids);
      ok := InsertMany(rows);
    }

    /** Appends to each column its values of the batch, up to the first refusal. */
    method AppendColumns(rows: seq<Row>) returns (ok: bool)
      requires |wb| == |schema| && SizesOk(|schema|, rows)
      modifies this`wb
      ensures ok <==> RowsFit(schema, rows)
      ensures ok ==> wb == Extended(schema, old(wb), rows, |schema|)
      ensures !ok ==> wb == Uneven(schema, old(wb), rows)
    {
      var i := 0;
      while i < |schema|
        invariant i <= |schema| && wb == Extended(schema, old(wb), rows, i)
        invariant i <= RefusingColumn(schema, rows, 0)
        invariant forall r, c :: 0 <= r < |rows| && 0 <= c < i ==> Accepts(schema[c], rows[r][c])
      {
        var batch := Batch(rows, i);
        var taken := FirstRefused(schema[i], batch, 0);
        wb := wb[i := wb[i] + batch[..taken]];
        if taken < |batch| {
          assert !Accepts(schema[i], rows[taken][i]);
          return false;
        }
        assert batch[..taken] == batch;
        assert forall r :: 0 <= r < |rows| ==> rows[r][i] == batch[r];
        i := i + 1;
      }
      ok := true;
    }
  }

  /** Sets the bits below `count` among `ids`, lengthening the bitmap to cover `count` rows. */
  method MarkBits(bm: Bits, count: nat, ids: seq<nat>) returns (r: Bits)
    ensures Marked(bm, r, count, ids)
    ensures |r| == if |bm| < BytesFor(count) then BytesFor(count) else |bm|
  {
    hide Bit, SetBit;
    r := Widen(bm, BytesFor(count));
    forall j: nat {
      WidenAt(bm, BytesFor(count), j);
    }
    var k := 0;
    while k < |ids|
      invariant k <= |ids| && |r| == |Widen(bm, BytesFor(count))|
      invariant Marked(bm, r, count, ids[..k])
    {
      var id := ids[k];
      assert ids[..k + 1] == ids[..k] + [id];
      if id < count {
        MarkedOne(bm, r, count, ids[..k], id);
        r := SetBit(r, id);
      }
      k := k + 1;
    }
    assert ids[..k] == ids;
  }

  /** The bits of `r` are those of `bm` and the ids below `count`. */
  ghost predicate Marked(bm: Bits, r: Bits, count: nat, ids: seq<nat>) {
    forall j: nat :: Bit(r, j) <==> Bit(bm, j) || (j in ids && j < count)
  }

  lemma {:induction false} MarkedOne(bm: Bits, r: Bits, count: nat, ids: seq<nat>, id: nat)
    requires Marked(bm, r, count, ids) && id < count && BytesFor(count) <= |r|
    ensures id / 8 < |r| && Marked(bm, SetBit(r, id), count, ids + [id])
  {
    hide Bit, SetBit;
    forall j: nat
      ensures Bit(SetBit(r, id), j) <==> Bit(bm, j) || (j in ids + [id] && j < count)
    {
      SetBitAt(r, id, j);
    }
  }

  /** The local ids of the write buffer among `ids`. */
  ghost predicate Routed(base: nat, ids: seq<nat>, locals: seq<nat>) {
    && (forall l :: l in locals ==> base + l in ids)
    && (forall gid :: gid in ids && gid >= base ==> gid - base in locals)
  }

  lemma {:induction false} RoutedNone(base: nat, ids: seq<nat>, locals: seq<nat>)
    requires Routed(base, ids, locals)
    ensures locals == [] <==> forall gid :: gid in ids ==> gid < base
  {
    if locals != [] {
      assert locals[0] in locals;
      assert base + locals[0] in ids;
    }
  }

  /** The local ids of a segment among `ids`. */
  ghost predicate RoutedTo(s: Segment, ids: seq<nat>, locals: seq<nat>) {
    && (forall l :: l in locals ==> s.base + l in ids && l < s.count)
    && (forall gid: nat {:trigger HoldsRow(s, gid)} :: gid in ids && HoldsRow(s, gid) ==> gid - s.base in locals)
  }

  ghost predicate AllRouted(segs: seq<Segment>, ids: seq<nat>, locals: seq<seq<nat>>) {
    |locals| == |segs| && forall i :: 0 <= i < |segs| ==> RoutedTo(segs[i], ids, locals[i])
  }

  /** `s'` is `s` with the given rows marked. */
  ghost predicate SegMarked(s: Segment, s': Segment, ids: seq<nat>) {
    && s' == s.(deleted := s'.deleted) && (Covers(s.deleted, s.count) ==> Covers(s'.deleted, s.count))
    && forall gid: nat :: HoldsRow(s, gid) ==> (SegDead(s', gid) <==> SegDead(s, gid) || gid in ids)
  }

  function CutColumns(cols: Columns, m: nat): (r: Columns)
    requires forall c :: 0 <= c < |cols| ==> m <= |cols[c]|
    ensures |r| == |cols| && forall c :: 0 <= c < |cols| ==> r[c] == cols[c][..m]
  {
    seq(|cols|, c requires 0 <= c < |cols| => cols[c][..m])
  }

  lemma {:induction false} CutView(schema: Schema, segs: seq<Segment>, wb: Columns, wbBase: nat, wbDeleted: Bits, m: nat)
    requires schema != [] && |wb| == |schema| && Aligned(wb, |schema|, |wb[0]|) && Typed(schema, wb) && m <= |wb[0]|
    requires wbBase == Ends(segs, |segs|)
    ensures var cut := CutColumns(wb, m);
            && |cut[0]| == m && Aligned(cut, |schema|, m) && Typed(schema, cut)
            && wbBase + m <= |ViewOf(segs, wb, wbBase, wbDeleted).rows|
            && ViewOf(segs, cut, wbBase, wbDeleted)
               == Store(ViewOf(segs, wb, wbBase, wbDeleted).rows[..wbBase + m], DeadIds(segs, wbBase, wbDeleted))
  {
    var cut, n := CutColumns(wb, m), |wb[0]|;
    forall i | 0 <= i < m
      ensures RowsOf(cut, m)[i] == RowsOf(wb, n)[i]
    {
      assert RowAt(cut, i) == RowAt(wb, i);
    }
    assert RowsOf(cut, m) == RowsOf(wb, n)[..m];
    hide RowsOf, SegRows, DeadIds, Ends;
    var a, b := SegRows(segs, |segs|), RowsOf(wb, n);
    assert (a + b)[..wbBase + m] == a + b[..m];
  }

  /** Whether inserting `rows` after `n` buffered rows seals the buffer. */
  predicate Seals(rows: seq<Row>, n: nat, threshold: nat) {
    rows != [] && n + |rows| >= threshold
  }

  lemma {:induction false} RouteNone(segs: seq<Segment>, wbBase: nat)
    ensures Routed(wbBase, [], [])
    ensures forall i :: 0 <= i < |segs| ==> RoutedTo(segs[i], [], [])
  {
  }

  lemma {:induction false} RouteBuffer(schema: Schema, segs: seq<Segment>, wbBase: nat, ids: seq<nat>, gid: nat,
                                       wbIds: seq<nat>, segIds: seq<seq<nat>>)
    requires Contiguous(schema, segs) && wbBase == Ends(segs, |segs|) && gid >= wbBase
    requires Routed(wbBase, ids, wbIds) && AllRouted(segs, ids, segIds)
    ensures Routed(wbBase, ids + [gid], wbIds + [gid - wbBase]) && AllRouted(segs, ids + [gid], segIds)
  {
    hide SegOk, Routed, RoutedTo;
    RoutedGrow(wbBase, ids, gid, wbIds);
    forall i | 0 <= i < |segs|
      ensures RoutedTo(segs[i], ids + [gid], segIds[i])
    {
      SegBounds(schema, segs, i);
      EndsGrow(segs, i + 1, |segs|);
      RoutedSkip(segs[i], ids, gid, segIds[i]);
    }
  }

  lemma {:induction false} RoutedGrow(base: nat, ids: seq<nat>, gid: nat, locals: seq<nat>)
    requires Routed(base, ids, locals) && gid >= base
    ensures Routed(base, ids + [gid], locals + [gid - base])
  {
  }

  lemma {:induction false} RoutedSkip(s: Segment, ids: seq<nat>, gid: nat, locals: seq<nat>)
    requires RoutedTo(s, ids, locals) && !HoldsRow(s, gid)
    ensures RoutedTo(s, ids + [gid], locals)
  {
  }

  lemma {:induction false} RoutedHere(s: Segment, ids: seq<nat>, gid: nat, locals: seq<nat>)
    requires RoutedTo(s, ids, locals) && HoldsRow(s, gid)
    ensures RoutedTo(s, ids + [gid], locals + [gid - s.base])
  {
  }

  lemma {:induction false} RouteSegment(schema: Schema, segs: seq<Segment>, wbBase: nat, ids: seq<nat>, gid: nat, lo: nat,
                                        wbIds: seq<nat>, segIds: seq<seq<nat>>)
    requires Contiguous(schema, segs) && gid < wbBase && lo < |segs| && HoldsRow(segs[lo], gid)
    requires Routed(wbBase, ids, wbIds) && AllRouted(segs, ids, segIds)
    ensures Routed(wbBase, ids + [gid], wbIds)
    ensures AllRouted(segs, ids + [gid], segIds[lo := segIds[lo] + [gid - segs[lo].base]])
  {
    hide SegOk, Ends, RoutedTo;
    var after := segIds[lo := segIds[lo] + [gid - segs[lo].base]];
    forall i | 0 <= i < |segs|
      ensures RoutedTo(segs[i], ids + [gid], after[i])
    {
      if i == lo {
        RoutedHere(segs[i], ids, gid, segIds[i]);
      } else {
        if HoldsRow(segs[i], gid) {
          HolderUnique(schema, segs, gid, i, lo);
        }
        RoutedSkip(segs[i], ids, gid, segIds[i]);
      }
    }
  }

  lemma {:induction false} MarkedSeg(s: Segment, s': Segment, ids: seq<nat>, locals: seq<nat>)
    requires RoutedTo(s, ids, locals) && s' == s.(deleted := s'.deleted)
    requires if locals == [] then s' == s else Marked(s.deleted, s'.deleted, s.count, locals) && s.count <= 8 * |s'.deleted|
    ensures SegMarked(s, s', ids)
  {
    hide Bit;
    forall gid: nat | HoldsRow(s, gid)
      ensures SegDead(s', gid) <==> SegDead(s, gid) || gid in ids
    {
      var l := gid - s.base;
      assert l in locals ==> s.base + l in ids;
      assert Bit(s'.deleted, l) <==> Bit(s.deleted, l) || (l in locals && l < s.count);
    }
  }

  lemma {:induction false} MarkedView(schema: Schema, before: seq<Segment>, segs: seq<Segment>, wb: Columns, wbBase: nat,
                                      bm: Bits, bm': Bits, wbIds: seq<nat>, ids: seq<nat>)
    requires schema != [] && |wb| == |schema| && Contiguous(schema, before) && wbBase == Ends(before, |before|)
    requires |segs| == |before| && forall i :: 0 <= i < |segs| ==> SegMarked(before[i], segs[i], ids)
    requires Routed(wbBase, ids, wbIds)
    requires if wbIds == [] then bm' == bm else Marked(bm, bm', |wb[0]|, wbIds)
    ensures Contiguous(schema, segs) && Ends(segs, |segs|) == wbBase
    ensures ViewOf(segs, wb, wbBase, bm') == Delete(ViewOf(before, wb, wbBase, bm), ids)
  {
    MarkedShape(schema, before, segs, ids);
    var v := ViewOf(before, wb, wbBase, bm);
    forall id: nat
      ensures DeadAt(segs, wbBase, bm', id) <==> DeadAt(before, wbBase, bm, id) || (id in ids && id < |v.rows|)
    {
      if id >= wbBase {
        MarkedBuffer(wbBase, |wb[0]|, bm, bm', wbIds, ids, id);
      } else {
        MarkedSealed(schema, before, segs, ids, id);
      }
    }
    hide Contiguous, SegRows, RowsOf, DeadAt;
    assert DeadIds(segs, wbBase, bm') == DeadIds(before, wbBase, bm) + set id | id in ids && id < |v.rows|;
  }

  lemma {:induction false} MarkedShape(schema: Schema, before: seq<Segment>, segs: seq<Segment>, ids: seq<nat>)
    requires Contiguous(schema, before) && |segs| == |before|
    requires forall i :: 0 <= i < |segs| ==> SegMarked(before[i], segs[i], ids)
    ensures Contiguous(schema, segs) && Ends(segs, |segs|) == Ends(before, |before|)
    ensures SegRows(segs, |segs|) == SegRows(before, |before|)
  {
    hide SegOk, Bit;
    EndsSame(segs, before, |segs|);
    forall i | 0 <= i < |segs|
      ensures Placed(schema, segs, i)
    {
      assert Placed(schema, before, i);
      EndsSame(segs, before, i);
      SegOkSame(schema, before[i], segs[i]);
    }
  }

  lemma {:induction false} SegOkSame(schema: Schema, s: Segment, s': Segment)
    requires SegOk(schema, s) && s' == s.(deleted := s'.deleted)
    ensures SegOk(schema, s')
  {
  }

  lemma {:induction false} MarkedBuffer(wbBase: nat, count: nat, bm: Bits, bm': Bits, wbIds: seq<nat>, ids: seq<nat>, id: nat)
    requires id >= wbBase && Routed(wbBase, ids, wbIds)
    requires if wbIds == [] then bm' == bm else Marked(bm, bm', count, wbIds)
    ensures Bit(bm', id - wbBase) <==> Bit(bm, id - wbBase) || (id in ids && id < wbBase + count)
  {
    hide Bit;
    var l := id - wbBase;
    assert l in wbIds ==> wbBase + l in ids;
  }

  lemma {:induction false} MarkedSealed(schema: Schema, before: seq<Segment>, segs: seq<Segment>, ids: seq<nat>, id: nat)
    requires Contiguous(schema, before) && id < Ends(before, |before|) && |segs| == |before|
    requires forall i :: 0 <= i < |segs| ==> SegMarked(before[i], segs[i], ids)
    ensures DeadIn(segs, id) <==> DeadIn(before, id) || id in ids
  {
    hide Bit, SegOk;
    var h := Holder(schema, before, id, |before|);
    MarkedShape(schema, before, segs, ids);
    OnlyHolder(schema, before, id, h);
    OnlyHolder(schema, segs, id, h);
    assert SegDead(segs[h], id) <==> SegDead(before[h], id) || id in ids;
  }

  lemma {:induction false} Holder(schema: Schema, segs: seq<Segment>, id: nat, n: nat) returns (i: nat)
    requires Contiguous(schema, segs) && n <= |segs| && id < Ends(segs, n)
    ensures i < n && HoldsRow(segs[i], id)
  {
    FirstBase(schema, segs);
    SegBounds(schema, segs, n - 1);
    hide Contiguous, Ends;
    if id >= Ends(segs, n - 1) {
      i := n - 1;
    } else {
      i := Holder(schema, segs, id, n - 1);
    }
  }

  lemma {:induction false} InsertedView(schema: Schema, segs: seq<Segment>, wb: Columns, rows: seq<Row>,
                                        wbBase: nat, wbDeleted: Bits)
    requires schema != [] && |wb| == |schema| && Aligned(wb, |schema|, |wb[0]|) && Typed(schema, wb)
    requires RowsFit(schema, rows)
    ensures var e := Extended(schema, wb, rows, |schema|);
            && |e[0]| == |wb[0]| + |rows| && Aligned(e, |schema|, |e[0]|) && Typed(schema, e)
            && ViewOf(segs, e, wbBase, wbDeleted) == Insert(ViewOf(segs, wb, wbBase, wbDeleted), rows)
  {
    ExtendedRows(schema, wb, rows, |wb[0]|);
    hide RowsOf, SegRows, DeadIds, Aligned, Typed, RowsFit;
    var e := Extended(schema, wb, rows, |schema|);
    assert |e[0]| == |wb[0]| + |rows|;
    var a, b := SegRows(segs, |segs|), RowsOf(wb, |wb[0]|);
    assert a + (b + rows) == (a + b) + rows;
  }

  lemma {:induction false} EmptyWb(schema: Schema)
    requires schema != []
    ensures var wb: Columns := NoRows(|schema|);
            Aligned(wb, |schema|, 0) && Typed(schema, wb) && RowsOf(wb, 0) == []
  {
  }

  lemma {:induction false} SealedSegs(schema: Schema, segs: seq<Segment>, seg: Segment)
    requires Contiguous(schema, segs) && seg.base == Ends(segs, |segs|) && SegOk(schema, seg)
    ensures Contiguous(schema, segs + [seg])
    ensures Ends(segs + [seg], |segs| + 1) == Ends(segs, |segs|) + seg.count
    ensures SegRows(segs + [seg], |segs| + 1) == SegRows(segs, |segs|) + RowsOf(seg.columns, seg.count)
  {
    hide RowsOf, SegOk;
    var all := segs + [seg];
    EndsSame(all, segs, |segs|);
    forall i | 0 <= i < |all|
      ensures Placed(schema, all, i)
    {
      EndsSame(all, segs, i);
      if i < |segs| {
        assert Placed(schema, segs, i);
      }
    }
  }

  /** Sealing changes neither the rows nor the tombstones that a reader sees. */
  lemma {:induction false} SealedView(schema: Schema, segs: seq<Segment>, seg: Segment)
    requires schema != [] && Contiguous(schema, segs) && seg.base == Ends(segs, |segs|) && SegOk(schema, seg)
    ensures var wb := NoRows(|schema|);
            && Aligned(wb, |schema|, 0) && Typed(schema, wb)
            && Contiguous(schema, segs + [seg])
            && Ends(segs + [seg], |segs + [seg]|) == seg.base + seg.count
            && ViewOf(segs + [seg], wb, seg.base + seg.count, [])
               == Seen(ViewOf(segs, seg.columns, seg.base, seg.deleted))
  {
    SealedSegs(schema, segs, seg);
    SealedIds(schema, segs, seg);
    EmptyWb(schema);
    hide Contiguous, DeadIds, Ends, SegRows;
  }

  lemma {:induction false} SealedIds(schema: Schema, segs: seq<Segment>, seg: Segment)
    requires Contiguous(schema, segs) && seg.base == Ends(segs, |segs|)
    ensures DeadIds(segs + [seg], seg.base + seg.count, [])
         == set id | id in DeadIds(segs, seg.base, seg.deleted) && id < seg.base + seg.count
  {
    SealedDead(schema, segs, seg);
    hide Contiguous, DeadIn;
    var n := seg.base + seg.count;
    forall id: nat
      ensures DeadAt(segs + [seg], n, [], id) <==> id < n && DeadAt(segs, seg.base, seg.deleted, id)
    {
    }
  }

  /** A sealed row keeps its tombstone. */
  lemma {:induction false} SealedDead(schema: Schema, segs: seq<Segment>, seg: Segment)
    requires Contiguous(schema, segs) && seg.base == Ends(segs, |segs|)
    ensures forall id :: 0 <= id < seg.base + seg.count ==>
      (DeadIn(segs + [seg], id) <==> DeadAt(segs, seg.base, seg.deleted, id))
  {
    hide Bit;
    var all := segs + [seg];
    forall id | 0 <= id < seg.base + seg.count
      ensures DeadIn(all, id) <==> DeadAt(segs, seg.base, seg.deleted, id)
    {
      if id < seg.base {
        assert !SegDead(seg, id);
        if i :| 0 <= i < |segs| && SegDead(segs[i], id) {
          assert SegDead(all[i], id);
        }
        if i :| 0 <= i < |all| && SegDead(all[i], id) {
          assert SegDead(segs[i], id);
        }
      } else {
        forall i | 0 <= i < |segs|
          ensures !HoldsRow(segs[i], id)
        {
          SegBounds(schema, segs, i);
          EndsGrow(segs, i + 1, |segs|);
        }
        assert SegDead(all[|segs|], id) <==> Bit(seg.deleted, id - seg.base);
      }
    }
  }
}
