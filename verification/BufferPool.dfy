/** A page cache: page table, slots, pinning, and eviction of the LRU-K victim. */
module BufferPools {
  import opened Options
  import opened LruK

  type PageId = nat
  type Data = seq<bv8>

  /** A page buffer: the page it holds, if any, and how often it is pinned. */
  datatype Buffer = Buffer(id: Option<PageId>, data: Data, pins: nat)

  predicate Distinct(s: seq<nat>) {
    forall i, j :: 0 <= i < j < |s| ==> s[i] != s[j]
  }

  /** The queue holds distinct numbers below `n`. */
  predicate Queue(s: seq<nat>, n: nat) {
    Distinct(s) && forall i :: 0 <= i < |s| ==> s[i] < n
  }

  /** Everything but the replacer. */
  datatype Pool = Pool(slab: seq<Buffer>, slots: seq<Option<nat>>, slotFree: seq<nat>, bufFree: seq<nat>, table: map<PageId, nat>)

  /** The buffer in a used slot. */
  predicate Used(p: Pool, f: nat) {
    f < |p.slots| && p.slots[f].Some? && p.slots[f].value < |p.slab|
  }

  function BufferAt(p: Pool, f: nat): Buffer
    requires Used(p, f)
  {
    p.slab[p.slots[f].value]
  }

  /** A page of the table is in its slot, with the content that the disk has. */
  ghost predicate Entered(disk: map<PageId, Data>, p: Pool, id: PageId)
    requires id in p.table
  {
    var f := p.table[id];
    Used(p, f) && id in disk && BufferAt(p, f).id == Some(id) && BufferAt(p, f).data == disk[id]
  }

  /** A slot is free, in hand between being taken and being filled, or holds the page that the table sends there. */
  ghost predicate SlotOk(p: Pool, hand: Option<nat>, f: nat)
    requires f < |p.slots|
  {
    if p.slots[f].None? then f in p.slotFree <==> hand != Some(f)
    else
      && f !in p.slotFree && hand != Some(f) && Used(p, f) && p.slots[f].value !in p.bufFree
      && BufferAt(p, f).id.Some? && BufferAt(p, f).id.value in p.table && p.table[BufferAt(p, f).id.value] == f
  }

  /** No two slots hold the same buffer. */
  ghost predicate Apart(p: Pool) {
    forall f, g :: 0 <= f < |p.slots| && 0 <= g < |p.slots| && f != g && p.slots[f].Some? ==> p.slots[f] != p.slots[g]
  }

  /** Slots and buffers are each split between the free queues and the pages in use. */
  ghost predicate PoolOk(disk: map<PageId, Data>, p: Pool, hand: Option<nat>) {
    && |p.slab| == |p.slots| && |p.bufFree| == |p.slotFree| + (if hand.Some? then 1 else 0)
    && Queue(p.slotFree, |p.slots|) && Queue(p.bufFree, |p.slab|)
    && (forall id :: id in p.table ==> Entered(disk, p, id))
    && (forall f :: 0 <= f < |p.slots| ==> SlotOk(p, hand, f))
    && Apart(p)
  }

  /** The replacer may evict exactly the pages that nobody has pinned. */
  ghost predicate Agree(p: Pool, frames: seq<Frame>) {
    && |frames| == |p.slots|
    && (forall f :: 0 <= f < |frames| ==> AgreeAt(p, frames, f))
  }

  ghost predicate AgreeAt(p: Pool, frames: seq<Frame>, f: nat)
    requires f < |frames| == |p.slots|
  {
    && (frames[f].tracked <==> p.slots[f].Some?)
    && (frames[f].evictable <==> Used(p, f) && BufferAt(p, f).pins == 0)
  }

  function Pins(p: Pool, id: PageId): nat {
    if id in p.table && Used(p, p.table[id]) then BufferAt(p, p.table[id]).pins else 0
  }

  // ---- the steps on the pool ----

  function WithPins(p: Pool, f: nat, pins: nat): Pool
    requires Used(p, f)
  {
    p.(slab := p.slab[p.slots[f].value := BufferAt(p, f).(pins := pins)])
  }

  /** A page leaves its slot; its buffer is free again and the slot is in hand. */
  function Evicted(p: Pool, f: nat): Pool
    requires Used(p, f) && BufferAt(p, f).id.Some?
  {
    var b := p.slots[f].value;
    p.(table := p.table - {BufferAt(p, f).id.value}, slots := p.slots[f := None],
       slab := p.slab[b := Buffer(None, [], 0)], bufFree := p.bufFree + [b])
  }

  /** A page is read into the slot in hand and the first free buffer. */
  function Filled(p: Pool, f: nat, id: PageId, data: Data): Pool
    requires f < |p.slots| && p.bufFree != [] && p.bufFree[0] < |p.slab|
  {
    var b := p.bufFree[0];
    p.(table := p.table[id := f], slots := p.slots[f := Some(b)],
       slab := p.slab[b := Buffer(Some(id), data, 1)], bufFree := p.bufFree[1..])
  }

  /** The slot in hand and the buffer go to the back of the free queues. */
  function Returned(p: Pool, f: nat): Pool
    requires p.bufFree != []
  {
    p.(slotFree := p.slotFree + [f], bufFree := p.bufFree[1..] + [p.bufFree[0]])
  }

  /** A page keeps its slot and its buffer. */
  ghost predicate Stays(p: Pool, q: Pool, id: PageId) {
    && id in p.table && id in q.table && p.table[id] == q.table[id]
    && Used(p, p.table[id]) && Used(q, q.table[id])
    && BufferAt(p, p.table[id]) == BufferAt(q, q.table[id])
  }

  lemma {:induction false} PinsOk(disk: map<PageId, Data>, p: Pool, f: nat, pins: nat)
    requires PoolOk(disk, p, None) && Used(p, f)
    ensures PoolOk(disk, WithPins(p, f, pins), None)
    ensures forall id :: id in p.table && p.table[id] != f ==> Stays(p, WithPins(p, f, pins), id)
  {
    var q := WithPins(p, f, pins);
    forall g | 0 <= g < |p.slots|
      ensures SlotOk(q, None, g)
      ensures g != f && Used(p, g) ==> BufferAt(q, g) == BufferAt(p, g)
    {
      assert SlotOk(p, None, g);
    }
    forall id | id in q.table
      ensures Entered(disk, q, id)
    {
      assert Entered(disk, p, id);
    }
  }

  lemma {:induction false} TakeOk(disk: map<PageId, Data>, p: Pool)
    requires PoolOk(disk, p, None) && p.slotFree != []
    ensures PoolOk(disk, p.(slotFree := p.slotFree[1..]), Some(p.slotFree[0])) && p.slotFree[0] < |p.slots|
    ensures forall id :: id in p.table ==> Stays(p, p.(slotFree := p.slotFree[1..]), id)
  {
    var q, s := p.(slotFree := p.slotFree[1..]), p.slotFree[0];
    assert forall i :: 0 <= i < |q.slotFree| ==> q.slotFree[i] == p.slotFree[i + 1];
    forall g | 0 <= g < |p.slots|
      ensures SlotOk(q, Some(s), g)
    {
      assert SlotOk(p, None, g);
      InTail(p.slotFree, g);
    }
    forall id | id in q.table
      ensures Entered(disk, q, id)
    {
      assert Entered(disk, p, id);
    }
  }

  lemma {:induction false} InTail(s: seq<nat>, x: nat)
    requires s != [] && Distinct(s)
    ensures x in s[1..] <==> x in s && x != s[0]
  {
    assert s == [s[0]] + s[1..];
    if x in s[1..] {
      var i :| 0 <= i < |s[1..]| && s[1..][i] == x;
      assert s[i + 1] == x;
    }
  }

  lemma {:induction false} EvictOk(disk: map<PageId, Data>, p: Pool, f: nat)
    requires PoolOk(disk, p, None) && Used(p, f)
    ensures BufferAt(p, f).id.Some? && PoolOk(disk, Evicted(p, f), Some(f))
    ensures forall id :: id in p.table && p.table[id] != f ==> Stays(p, Evicted(p, f), id)
    ensures forall id :: id in Evicted(p, f).table <==> id in p.table && p.table[id] != f
  {
    assert SlotOk(p, None, f);
    var q := Evicted(p, f);
    forall g | 0 <= g < |p.slots|
      ensures SlotOk(q, Some(f), g)
      ensures g != f && Used(p, g) ==> Used(q, g) && BufferAt(q, g) == BufferAt(p, g)
    {
      assert SlotOk(p, None, g);
    }
    forall id | id in p.table
      ensures Entered(disk, p, id)
    {
    }
    forall id | id in q.table
      ensures Entered(disk, q, id)
    {
      assert Entered(disk, p, id);
    }
  }

  lemma {:induction false} FillOk(disk: map<PageId, Data>, p: Pool, f: nat, id: PageId)
    requires PoolOk(disk, p, Some(f)) && f < |p.slots| && id !in p.table && id in disk
    ensures p.bufFree != [] && p.bufFree[0] < |p.slab| && p.slots[f].None?
    ensures PoolOk(disk, Filled(p, f, id, disk[id]), None)
    ensures forall x :: x in p.table ==> Stays(p, Filled(p, f, id, disk[id]), x)
  {
    assert SlotOk(p, Some(f), f);
    var b, q := p.bufFree[0], Filled(p, f, id, disk[id]);
    assert forall i :: 0 <= i < |q.bufFree| ==> q.bufFree[i] == p.bufFree[i + 1];
    InTail(p.bufFree, b);
    forall g | 0 <= g < |p.slots|
      ensures SlotOk(q, None, g)
      ensures g != f && p.slots[g].Some? ==> Used(p, g) && p.slots[g].value != b && Used(q, g) && BufferAt(q, g) == BufferAt(p, g)
    {
      assert SlotOk(p, Some(f), g);
      if g != f && p.slots[g].Some? {
        InTail(p.bufFree, p.slots[g].value);
      }
    }
    forall x | x in q.table
      ensures Entered(disk, q, x)
    {
      if x != id {
        assert Entered(disk, p, x);
      }
    }
  }

  lemma {:induction false} ReturnOk(disk: map<PageId, Data>, p: Pool, f: nat)
    requires PoolOk(disk, p, Some(f)) && f < |p.slots|
    ensures p.bufFree != [] && PoolOk(disk, Returned(p, f), None)
    ensures forall x :: x in p.table ==> Stays(p, Returned(p, f), x)
  {
    assert SlotOk(p, Some(f), f);
    var q := Returned(p, f);
    RotateQueue(p.bufFree, |p.slab|);
    forall g | 0 <= g < |p.slots|
      ensures SlotOk(q, None, g)
    {
      assert SlotOk(p, Some(f), g);
    }
    forall x | x in q.table
      ensures Entered(disk, q, x)
    {
      assert Entered(disk, p, x);
    }
  }

  lemma {:induction false} RotateQueue(s: seq<nat>, n: nat)
    requires s != [] && Queue(s, n)
    ensures Queue(s[1..] + [s[0]], n) && forall x :: x in s[1..] + [s[0]] <==> x in s
  {
    var t := s[1..] + [s[0]];
    assert s == [s[0]] + s[1..];
    forall i, j | 0 <= i < j < |t|
      ensures t[i] != t[j]
    {
      assert t[i] == s[i + 1];
    }
  }

  // ---- agreement with the replacer ----

  lemma {:induction false} AgreePins(disk: map<PageId, Data>, p: Pool, f: nat, pins: nat, before: seq<Frame>, after: seq<Frame>)
    requires PoolOk(disk, p, None) && Used(p, f) && Agree(p, before) && |after| == |before|
    requires after[f].tracked && after[f].evictable == (pins == 0)
    requires forall g :: 0 <= g < |after| && g != f ==> after[g] == before[g]
    ensures Agree(WithPins(p, f, pins), after)
  {
    var q := WithPins(p, f, pins);
    forall g | 0 <= g < |after|
      ensures AgreeAt(q, after, g)
    {
      assert AgreeAt(p, before, g) && SlotOk(p, None, g);
      assert p.slots[g].Some? && g != f ==> p.slots[g] != p.slots[f];
    }
  }

  lemma {:induction false} AgreeEvicted(disk: map<PageId, Data>, p: Pool, f: nat, frames: seq<Frame>)
    requires PoolOk(disk, p, None) && Used(p, f) && Agree(p, frames) && BufferAt(p, f).id.Some?
    ensures Agree(Evicted(p, f), frames[f := Frame([], false, false)])
  {
    var q, after := Evicted(p, f), frames[f := Frame([], false, false)];
    forall g | 0 <= g < |after|
      ensures AgreeAt(q, after, g)
    {
      assert AgreeAt(p, frames, g) && SlotOk(p, None, g);
      assert p.slots[g].Some? && g != f ==> p.slots[g] != p.slots[f];
    }
  }

  lemma {:induction false} AgreeFilled(disk: map<PageId, Data>, p: Pool, f: nat, id: PageId, before: seq<Frame>, after: seq<Frame>)
    requires PoolOk(disk, p, Some(f)) && f < |p.slots| && id !in p.table && id in disk && Agree(p, before)
    requires |after| == |before| && after[f].tracked && !after[f].evictable
    requires forall g :: 0 <= g < |after| && g != f ==> after[g] == before[g]
    requires p.bufFree != [] && p.bufFree[0] < |p.slab|
    ensures Agree(Filled(p, f, id, disk[id]), after)
  {
    var q := Filled(p, f, id, disk[id]);
    forall g | 0 <= g < |after|
      ensures AgreeAt(q, after, g)
    {
      assert AgreeAt(p, before, g) && SlotOk(p, Some(f), g);
    }
  }

  lemma {:induction false} AgreeSame(p: Pool, q: Pool, frames: seq<Frame>)
    requires Agree(p, frames) && q.slots == p.slots && q.slab == p.slab
    ensures Agree(q, frames)
  {
    forall g | 0 <= g < |frames|
      ensures AgreeAt(q, frames, g)
    {
      assert AgreeAt(p, frames, g);
    }
  }

  // ---- the history of the pages ----

  /** The free buffers are those that no page of the table has. */
  ghost predicate Counted(p: Pool) {
    |p.table| + |p.bufFree| == |p.slots|
  }

  /** The replacer knows of the slot of a page what the history of fetches says of the page. */
  ghost predicate Mirror(table: map<PageId, nat>, trace: seq<Ev>, hist: seq<Ev>) {
    && Clock(trace) == Clock(hist)
    && (forall id :: id in table ==> Times(trace, table[id]) == Times(hist, id))
    && (forall id :: id !in table ==> Times(hist, id) == [])
  }

  /** A history that goes on with the loss of one number and the access to another. */
  function Later(h: seq<Ev>, lost: Option<nat>, got: Option<nat>): seq<Ev> {
    h + (if lost.Some? then [Forget(lost.value)] else []) + (if got.Some? then [Access(got.value)] else [])
  }

  function SlotOf(table: map<PageId, nat>, id: Option<PageId>): Option<nat> {
    if id.Some? && id.value in table then Some(table[id.value]) else None
  }

  /**
   * Page `lost` left the cache and page `got` was fetched, if there are such: so say the
   * history of the pages and, by their slots, that of the replacer; no other page came or went.
   */
  ghost predicate Told(hist: seq<Ev>, hist': seq<Ev>, trace: seq<Ev>, trace': seq<Ev>, table: map<PageId, nat>, table': map<PageId, nat>,
                       lost: Option<PageId>, got: Option<PageId>) {
    && hist' == Later(hist, lost, got) && trace' == Later(trace, SlotOf(table, lost), SlotOf(table', got))
    && (lost.Some? ==> lost.value in table)
    && (forall x :: x in table' <==> (x in table && lost != Some(x)) || got == Some(x))
  }

  lemma {:induction false} ToldNothing(hist: seq<Ev>, trace: seq<Ev>, table: map<PageId, nat>)
    ensures Told(hist, hist, trace, trace, table, table, None, None)
  {
  }

  lemma {:induction false} ToldLost(hist: seq<Ev>, trace: seq<Ev>, table: map<PageId, nat>, id: PageId)
    requires id in table
    ensures Told(hist, hist + [Forget(id)], trace, trace + [Forget(table[id])], table, table - {id}, Some(id), None)
  {
  }

  lemma {:induction false} ToldGot(hist: seq<Ev>, trace: seq<Ev>, table: map<PageId, nat>, id: PageId, f: nat)
    ensures Told(hist, hist + [Access(id)], trace, trace + [Access(f)], table, table[id := f], None, Some(id))
  {
  }

  lemma {:induction false} NotBack(hist: seq<Ev>, hist': seq<Ev>, trace: seq<Ev>, trace': seq<Ev>, table: map<PageId, nat>,
                                   table': map<PageId, nat>, lost: Option<PageId>, id: PageId)
    requires Told(hist, hist', trace, trace', table, table', lost, None) && id !in table
    ensures id !in table'
  {
  }

  lemma {:induction false} ToldTwice(h0: seq<Ev>, h1: seq<Ev>, h2: seq<Ev>, t0: seq<Ev>, t1: seq<Ev>, t2: seq<Ev>,
                                     m0: map<PageId, nat>, m1: map<PageId, nat>, m2: map<PageId, nat>,
                                     lost: Option<PageId>, got: Option<PageId>)
    requires Told(h0, h1, t0, t1, m0, m1, lost, None) && Told(h1, h2, t1, t2, m1, m2, None, got)
    ensures Told(h0, h2, t0, t2, m0, m2, lost, got)
  {
  }

  lemma {:induction false} MirrorAccess(table: map<PageId, nat>, trace: seq<Ev>, hist: seq<Ev>, id: PageId, f: nat)
    requires Mirror(table, trace, hist) && Times(trace, f) == Times(hist, id)
    requires forall x :: x in table && x != id ==> table[x] != f
    ensures Mirror(table[id := f], trace + [Access(f)], hist + [Access(id)])
  {
    hide Times, Clock;
    TimesSnoc(trace, Access(f), f);
    TimesSnoc(hist, Access(id), id);
    var t, h := trace + [Access(f)], hist + [Access(id)];
    forall x
      ensures x != id ==> Times(h, x) == Times(hist, x)
      ensures x in table && x != id ==> Times(t, table[x]) == Times(trace, table[x])
    {
      TimesSnoc(hist, Access(id), x);
      if x in table {
        TimesSnoc(trace, Access(f), table[x]);
      }
    }
  }

  lemma {:induction false} MirrorForget(table: map<PageId, nat>, trace: seq<Ev>, hist: seq<Ev>, id: PageId)
    requires Mirror(table, trace, hist) && id in table
    requires forall x :: x in table && x != id ==> table[x] != table[id]
    ensures Mirror(table - {id}, trace + [Forget(table[id])], hist + [Forget(id)])
  {
    hide Times, Clock;
    TimesSnoc(trace, Forget(table[id]), table[id]);
    TimesSnoc(hist, Forget(id), id);
    var t, h := trace + [Forget(table[id])], hist + [Forget(id)];
    forall x
      ensures x != id ==> Times(h, x) == Times(hist, x)
      ensures x in table && x != id ==> Times(t, table[x]) == Times(trace, table[x])
    {
      TimesSnoc(hist, Forget(id), x);
      if x in table {
        TimesSnoc(trace, Forget(table[id]), table[x]);
      }
    }
  }

  /** Page `v` is in the cache without pins, and comes before every other such page by its fetches. */
  ghost predicate PageVictim(p: Pool, hist: seq<Ev>, k: nat, v: PageId)
    requires k >= 1
  {
    && v in p.table && Pins(p, v) == 0
    && forall x :: x in p.table && Pins(p, x) == 0 ==> Before(hist, k, v, x)
  }

  ghost predicate SomeUnpinned(p: Pool) {
    exists x :: x in p.table && Pins(p, x) == 0
  }

  lemma {:induction false} VictimPage(disk: map<PageId, Data>, p: Pool, trace: seq<Ev>, hist: seq<Ev>, k: nat, frames: seq<Frame>, f: nat)
    requires PoolOk(disk, p, None) && Agree(p, frames) && Mirror(p.table, trace, hist) && k >= 1 && IsVictim(trace, k, frames, f)
    ensures Used(p, f) && BufferAt(p, f).id.Some?
    ensures var v := BufferAt(p, f).id.value; v in p.table && p.table[v] == f && PageVictim(p, hist, k, v)
  {
    assert AgreeAt(p, frames, f) && SlotOk(p, None, f);
    var v := BufferAt(p, f).id.value;
    forall x | x in p.table && Pins(p, x) == 0
      ensures Before(hist, k, v, x)
    {
      assert Entered(disk, p, x);
      var g := p.table[x];
      assert AgreeAt(p, frames, g);
      assert Before(trace, k, f, g);
      assert Times(trace, f) == Times(hist, v) && Times(trace, g) == Times(hist, x);
      hide Times;
    }
  }

  /** There is an evictable slot exactly if some page has no pins. */
  lemma {:induction false} UnpinnedMeans(disk: map<PageId, Data>, p: Pool, frames: seq<Frame>)
    requires PoolOk(disk, p, None) && Agree(p, frames)
    ensures SomeUnpinned(p) <==> exists f :: 0 <= f < |p.slots| && frames[f].evictable
  {
    if f :| 0 <= f < |p.slots| && frames[f].evictable {
      assert AgreeAt(p, frames, f) && SlotOk(p, None, f);
      assert BufferAt(p, f).id.value in p.table;
      assert Pins(p, BufferAt(p, f).id.value) == 0;
    }
    if x :| x in p.table && Pins(p, x) == 0 {
      assert Entered(disk, p, x);
      assert AgreeAt(p, frames, p.table[x]);
    }
  }

  /** A slot without a page has no history. */
  lemma {:induction false} EmptySlot(p: Pool, frames: seq<Frame>, trace: seq<Ev>, k: nat, f: nat)
    requires Agree(p, frames) && AllRemember(trace, k, frames) && f < |p.slots| && p.slots[f].None?
    ensures Times(trace, f) == []
  {
    assert AgreeAt(p, frames, f) && Remembers(trace, k, f, frames[f]);
  }

  /** One more pin on a page of the table. */
  lemma {:induction false} HitOk(disk: map<PageId, Data>, p: Pool, id: PageId, trace: seq<Ev>, hist: seq<Ev>)
    requires PoolOk(disk, p, None) && Counted(p) && Mirror(p.table, trace, hist) && id in p.table
    ensures id in disk && Used(p, p.table[id]) && BufferAt(p, p.table[id]) == Buffer(Some(id), disk[id], Pins(p, id))
    ensures var f := p.table[id];
            var q := WithPins(p, f, Pins(p, id) + 1);
            && PoolOk(disk, q, None) && Counted(q)
            && Mirror(p.table, trace + [Access(f)], hist + [Access(id)])
            && Told(hist, hist + [Access(id)], trace, trace + [Access(f)], p.table, p.table, None, Some(id))
            && forall x :: x in p.table && x != id ==> Stays(p, q, x)
  {
    InTable(disk, p, id);
    var f := p.table[id];
    OthersStay(disk, p, id, Pins(p, id) + 1);
    PinsOk(disk, p, f, Pins(p, id) + 1);
    SlotsApart(disk, p, id);
    MirrorAccess(p.table, trace, hist, id, f);
    ToldGot(hist, trace, p.table, id, f);
    assert p.table[id := f] == p.table;
    hide PoolOk, Stays, Pins, Mirror, Told;
  }

  lemma {:induction false} FillMirror(disk: map<PageId, Data>, p: Pool, frames: seq<Frame>, trace: seq<Ev>, k: nat, hist: seq<Ev>,
                                      id: PageId, f: nat)
    requires PoolOk(disk, p, Some(f)) && Agree(p, frames) && AllRemember(trace, k, frames) && Mirror(p.table, trace, hist)
    requires f < |p.slots| && id !in p.table && id in disk && Counted(p) && p.bufFree != [] && p.bufFree[0] < |p.slab|
    ensures Mirror(p.table[id := f], trace + [Access(f)], hist + [Access(id)]) && Counted(Filled(p, f, id, disk[id]))
  {
    assert SlotOk(p, Some(f), f);
    EmptySlot(p, frames, trace, k, f);
    SlotUnused(disk, p, f);
    assert Times(hist, id) == [];
    hide PoolOk, Agree, AllRemember;
    MirrorAccess(p.table, trace, hist, id, f);
    LargerTable(p.table, id, f);
  }

  /** A page read into the slot in hand. */
  lemma {:induction false} FillAll(disk: map<PageId, Data>, p: Pool, frames: seq<Frame>, trace: seq<Ev>, k: nat, hist: seq<Ev>,
                                   id: PageId, f: nat)
    requires PoolOk(disk, p, Some(f)) && Agree(p, frames) && AllRemember(trace, k, frames) && Mirror(p.table, trace, hist)
    requires f < |p.slots| && id !in p.table && id in disk && Counted(p)
    ensures p.bufFree != [] && p.bufFree[0] < |p.slab|
    ensures var q := Filled(p, f, id, disk[id]);
            && PoolOk(disk, q, None) && Counted(q)
            && Mirror(p.table[id := f], trace + [Access(f)], hist + [Access(id)])
            && Told(hist, hist + [Access(id)], trace, trace + [Access(f)], p.table, p.table[id := f], None, Some(id))
            && forall x :: x in p.table ==> Stays(p, q, x)
  {
    FillOk(disk, p, f, id);
    FillMirror(disk, p, frames, trace, k, hist, id, f);
    ToldGot(hist, trace, p.table, id, f);
    hide PoolOk, Agree, Stays, Mirror, Counted, Told;
  }

  lemma {:induction false} Knows(r: Replacer)
    requires r.Valid()
    ensures AllRemember(r.trace, r.k, r.frames)
  {
  }

  lemma {:induction false} Positive(r: Replacer)
    requires r.Valid()
    ensures r.k >= 1
  {
  }

  class BufferPool {
    const disk: map<PageId, Data>
    const replacer: Replacer
    var slab: seq<Buffer>
    var slots: seq<Option<nat>>
    var slotFree: seq<nat>
    var bufFree: seq<nat>
    var table: map<PageId, nat>
    ghost var hist: seq<Ev> // pages fetched, and pages evicted

    ghost function State(): Pool
      reads this
    {
      Pool(slab, slots, slotFree, bufFree, table)
    }

    ghost predicate Valid()
      reads this, replacer
    {
      && replacer.Valid() && PoolOk(disk, State(), None) && Agree(State(), replacer.frames)
      && Counted(State()) && Mirror(table, replacer.trace, hist)
    }

    constructor (capacity: nat, disk: map<PageId, Data>, k: nat)
      requires k >= 1
      ensures Valid() && fresh(replacer) && table == map[] && |slots| == capacity && this.disk == disk
      ensures replacer.k == k && hist == [] && replacer.trace == []
    {
      this.disk := disk;
      replacer := new Replacer(capacity, k);
      slab := seq(capacity, _ => Buffer(None, [], 0));
      slots := seq(capacity, _ => None);
      slotFree := seq(capacity, i => i);
      bufFree := seq(capacity, i => i);
      table := map[];
      hist := [];
      new;
      forall f | 0 <= f < capacity
        ensures SlotOk(State(), None, f) && AgreeAt(State(), replacer.frames, f)
      {
        assert slotFree[f] == f;
      }
    }

    /** A slot for a new page: a free one, or that of the evicted victim. */
    method AcquireSlot() returns (slot: Option<nat>, ghost gone: Option<PageId>)
      requires Valid()
      modifies this, replacer
      ensures slot.None? <==> old(slotFree) == [] && !SomeUnpinned(old(State()))
      ensures slot.None? ==> Valid() && State() == old(State()) && gone.None?
      ensures slot.Some? ==> slot.value < |slots| && replacer.Valid()
      ensures slot.Some? ==> PoolOk(disk, State(), slot) && Agree(State(), replacer.frames)
      ensures slot.Some? ==> Counted(State()) && Mirror(table, replacer.trace, hist)
      ensures |slots| == old(|slots|)
      ensures forall x :: x in old(table) && gone != Some(x) ==> Stays(old(State()), State(), x)
      ensures gone.Some? <==> old(slotFree) == [] && SomeUnpinned(old(State()))
      ensures gone.Some? ==> PageVictim(old(State()), old(hist), replacer.k, gone.value)
      ensures Told(old(hist), hist, old(replacer.trace), replacer.trace, old(table), table, gone, None)
    {
      hide PoolOk, Agree, IsVictim, Mirror, PageVictim, SomeUnpinned, Stays, Told;
      gone := None;
      ghost var p := State();
      AllStay(disk, p);
      ToldNothing(hist, replacer.trace, table);
      if slotFree != [] {
        TakeOk(disk, p);
        AgreeSame(p, p.(slotFree := p.slotFree[1..]), replacer.frames);
        slot := Some(slotFree[0]);
        slotFree := slotFree[1..];
        return;
      }
      ghost var frames := replacer.frames;
      UnpinnedMeans(disk, p, frames);
      AgreeLength(p, frames);
      var found, victim := replacer.Victim();
      if !found {
        return None, None;
      }
      ghost var v := Evict(victim, frames);
      slot, gone := Some(victim), Some(v);
    }

    /** The page in the victim's slot leaves; the slot is in hand. */
    method Evict(victim: nat, ghost frames: seq<Frame>) returns (ghost v: PageId)
      requires PoolOk(disk, State(), None) && Agree(State(), frames) && Counted(State()) && replacer.Valid()
      requires replacer.trace != [] && Mirror(table, replacer.trace[..|replacer.trace| - 1], hist)
      requires replacer.trace[|replacer.trace| - 1] == Forget(victim)
      requires IsVictim(replacer.trace[..|replacer.trace| - 1], replacer.k, frames, victim)
      requires replacer.frames == frames[victim := Frame([], false, false)]
      modifies this
      ensures PoolOk(disk, State(), Some(victim)) && victim < |slots| == old(|slots|) && Agree(State(), replacer.frames)
      ensures Counted(State()) && Mirror(table, replacer.trace, hist)
      ensures PageVictim(old(State()), old(hist), replacer.k, v)
      ensures Told(old(hist), hist, replacer.trace[..|replacer.trace| - 1], replacer.trace, old(table), table, Some(v), None)
      ensures forall x :: x in old(table) && x != v ==> Stays(old(State()), State(), x)
    {
      hide PoolOk, Agree, IsVictim, Mirror, PageVictim, Stays, Replacer.Valid, Told;
      ghost var p, before := State(), replacer.trace[..|replacer.trace| - 1];
      assert replacer.trace == before + [Forget(victim)];
      Positive(replacer);
      VictimPage(disk, p, before, hist, replacer.k, frames, victim);
      EvictOk(disk, p, victim);
      AgreeEvicted(disk, p, victim, frames);
      v := BufferAt(p, victim).id.value;
      SlotsApart(disk, p, v);
      MirrorForget(table, before, hist, v);
      SmallerTable(table, v);
      ToldLost(hist, before, table, v);
      var b := slots[victim].value;
      table := table - {slab[b].id.value};
      slots := slots[victim := None];
      slab := slab[b := Buffer(None, [], 0)];
      bufFree := bufFree + [b];
      hist := hist + [Forget(v)];
    }

    /**
     * The page, from the cache or from the disk, pinned once more. It fails only if every
     * slot holds a pinned page or the disk does not have the page; pinned pages stay. What is
     * fetched and what is evicted for it is the history by which the next victim is chosen.
     */
    method FetchPage(id: PageId) returns (buf: Option<nat>, ghost gone: Option<PageId>)
      requires Valid()
      modifies this, replacer
      ensures Valid() && |slots| == old(|slots|)
      ensures buf.Some? <==> id in old(table) || (id in disk && (|old(table)| < |slots| || SomeUnpinned(old(State()))))
      ensures buf.Some? ==> id in disk && id in table && slots[table[id]] == buf
      ensures buf.Some? ==> slab[buf.value] == Buffer(Some(id), disk[id], old(Pins(State(), id)) + 1)
      ensures forall x :: x in old(table) && x != id && gone != Some(x) ==> Stays(old(State()), State(), x)
      ensures forall x :: x in old(table) && old(Pins(State(), x)) > 0 ==> gone != Some(x)
      ensures gone.Some? <==> id !in old(table) && |old(table)| == |slots| && SomeUnpinned(old(State()))
      ensures gone.Some? ==> PageVictim(old(State()), old(hist), replacer.k, gone.value)
      ensures Told(old(hist), hist, old(replacer.trace), replacer.trace, old(table), table, gone, if buf.Some? then Some(id) else None)
    {
      hide PoolOk, Agree, Mirror, PageVictim, SomeUnpinned, Stays, Replacer.Valid, Pins, Told, Counted;
      gone := None;
      if id in table {
        buf := Hit(id);
        return;
      }
      NotPinned(State(), id);
      buf, gone := Miss(id);
    }

    /** A page that is not in the pool is read into a slot, if one can be had. */
    method Miss(id: PageId) returns (buf: Option<nat>, ghost gone: Option<PageId>)
      requires Valid() && id !in table
      modifies this, replacer
      ensures Valid() && |slots| == old(|slots|)
      ensures buf.Some? <==> id in disk && (|old(table)| < |slots| || SomeUnpinned(old(State())))
      ensures buf.Some? ==> id in disk && id in table && slots[table[id]] == buf && buf.value < |slab|
      ensures buf.Some? ==> slab[buf.value] == Buffer(Some(id), disk[id], 1)
      ensures forall x :: x in old(table) && gone != Some(x) ==> Stays(old(State()), State(), x)
      ensures forall x :: x in old(table) && old(Pins(State(), x)) > 0 ==> gone != Some(x)
      ensures gone.Some? <==> |old(table)| == |slots| && SomeUnpinned(old(State()))
      ensures gone.Some? ==> PageVictim(old(State()), old(hist), replacer.k, gone.value)
      ensures Told(old(hist), hist, old(replacer.trace), replacer.trace, old(table), table, gone, if buf.Some? then Some(id) else None)
    {
      hide PoolOk, Agree, Mirror, PageVictim, SomeUnpinned, Stays, Replacer.Valid, Pins, Told;
      ghost var p := State();
      FullMeans(p, disk);
      Positive(replacer);
      var slot;
      slot, gone := AcquireSlot();
      PinnedKept(p, old(hist), replacer.k, gone);
      NotBack(old(hist), hist, old(replacer.trace), replacer.trace, old(table), table, gone, id);
      if slot.None? {
        return None, None;
      }
      ghost var q, h, t, m := State(), hist, replacer.trace, table;
      buf := ReadInto(slot.value, id);
      StaysTwice(p, q, State(), gone);
      ToldTwice(old(hist), h, hist, old(replacer.trace), t, replacer.trace, old(table), m, table, gone, if buf.Some? then Some(id) else None);
    }

    /** A page that is in the pool is pinned once more. */
    method Hit(id: PageId) returns (buf: Option<nat>)
      requires Valid() && id in table
      modifies this`slab, this`hist, replacer
      ensures Valid() && buf.Some? && id in disk && slots[table[id]] == buf
      ensures Told(old(hist), hist, old(replacer.trace), replacer.trace, old(table), table, None, Some(id))
      ensures slab[buf.value] == Buffer(Some(id), disk[id], old(Pins(State(), id)) + 1)
      ensures forall x :: x in table && x != id ==> Stays(old(State()), State(), x)
    {
      hide PoolOk, Agree, Stays, Pins, Replacer.Valid, Mirror, Told, Counted, WithPins;
      ghost var p := State();
      HitOk(disk, p, id, replacer.trace, hist);
      var slot := table[id];
      var b := slots[slot].value;
      var pins := slab[b].pins + 1;
      TouchPinned(slot, p, pins);
      SetPins(slot, pins);
      hist := hist + [Access(id)];
      buf := Some(b);
    }

    method SetPins(slot: nat, pins: nat)
      requires Used(State(), slot)
      modifies this`slab
      ensures State() == WithPins(old(State()), slot, pins)
      ensures slots[slot].value < |slab| && slab[slots[slot].value] == BufferAt(old(State()), slot).(pins := pins)
    {
      var b := slots[slot].value;
      slab := slab[b := slab[b].(pins := pins)];
    }

    /** The replacer hears of an access to a slot that is then pinned. */
    method TouchPinned(slot: nat, ghost p: Pool, ghost pins: nat)
      requires replacer.Valid() && PoolOk(disk, p, None) && Agree(p, replacer.frames) && Used(p, slot) && pins > 0
      modifies replacer
      ensures replacer.Valid() && Agree(WithPins(p, slot, pins), replacer.frames)
      ensures replacer.trace == old(replacer.trace) + [Access(slot)]
    {
      ghost var frames := replacer.frames;
      AgreeLength(p, frames);
      hide PoolOk, Agree, Replacer.Valid;
      replacer.Touch(slot);
      AgreePins(disk, p, slot, pins, frames, replacer.frames);
    }

    /** Reads a page into the slot in hand; gives the slot back if the disk does not have it. */
    method ReadInto(slot: nat, id: PageId) returns (buf: Option<nat>)
      requires replacer.Valid() && slot < |slots| && PoolOk(disk, State(), Some(slot)) && Agree(State(), replacer.frames)
      requires id !in table && Counted(State()) && Mirror(table, replacer.trace, hist)
      modifies this, replacer
      ensures Valid() && (buf.Some? <==> id in disk) && |slots| == old(|slots|)
      ensures Told(old(hist), hist, old(replacer.trace), replacer.trace, old(table), table, None, if buf.Some? then Some(id) else None)
      ensures buf.Some? ==> id in table && slots[table[id]] == buf && buf.value < |slab|
      ensures buf.Some? ==> slab[buf.value] == Buffer(Some(id), disk[id], 1)
      ensures forall x :: x in old(table) ==> Stays(old(State()), State(), x)
    {
      hide PoolOk, Agree, Stays, Replacer.Valid, Mirror, Told;
      if id !in disk {
        ToldNothing(hist, replacer.trace, table);
        GiveBack(slot);
        return None;
      }
      buf := Fill(slot, id);
    }

    method GiveBack(slot: nat)
      requires replacer.Valid() && slot < |slots| && PoolOk(disk, State(), Some(slot)) && Agree(State(), replacer.frames)
      requires Counted(State()) && Mirror(table, replacer.trace, hist)
      modifies this`bufFree, this`slotFree
      ensures Valid()
      ensures forall x :: x in old(table) ==> Stays(old(State()), State(), x)
    {
      ghost var p := State();
      ReturnOk(disk, p, slot);
      AgreeSame(p, Returned(p, slot), replacer.frames);
      hide PoolOk, Agree, Stays, Mirror;
      bufFree := bufFree[1..] + [bufFree[0]];
      slotFree := slotFree + [slot];
    }

    method Fill(slot: nat, id: PageId) returns (buf: Option<nat>)
      requires replacer.Valid() && slot < |slots| && PoolOk(disk, State(), Some(slot)) && Agree(State(), replacer.frames)
      requires id !in table && id in disk && Counted(State()) && Mirror(table, replacer.trace, hist)
      modifies this, replacer
      ensures Valid() && buf.Some? && |slots| == old(|slots|)
      ensures Told(old(hist), hist, old(replacer.trace), replacer.trace, old(table), table, None, Some(id))
      ensures id in table && slots[table[id]] == buf && buf.value < |slab|
      ensures slab[buf.value] == Buffer(Some(id), disk[id], 1)
      ensures forall x :: x in old(table) ==> Stays(old(State()), State(), x)
    {
      hide PoolOk, Agree, Stays, Mirror, Counted, Told, Replacer.Valid;
      ghost var p := State();
      Knows(replacer);
      FillAll(disk, p, replacer.frames, replacer.trace, replacer.k, hist, id, slot);
      TouchFilled(slot, p, id);
      var b := bufFree[0];
      bufFree := bufFree[1..];
      slots := slots[slot := Some(b)];
      slab := slab[b := Buffer(Some(id), disk[id], 1)];
      table := table[id := slot];
      hist := hist + [Access(id)];
      buf := Some(b);
    }

    /** The replacer hears of the access to a slot that a page was read into. */
    method TouchFilled(slot: nat, ghost p: Pool, ghost id: PageId)
      requires replacer.Valid() && PoolOk(disk, p, Some(slot)) && Agree(p, replacer.frames) && slot < |p.slots|
      requires id !in p.table && id in disk && p.bufFree != [] && p.bufFree[0] < |p.slab|
      modifies replacer
      ensures replacer.Valid() && Agree(Filled(p, slot, id, disk[id]), replacer.frames)
      ensures replacer.trace == old(replacer.trace) + [Access(slot)]
    {
      hide PoolOk, Agree, Replacer.Valid;
      ghost var frames := replacer.frames;
      AgreeLength(p, frames);
      replacer.Touch(slot);
      AgreeFilled(disk, p, slot, id, frames, replacer.frames);
    }

    /** Takes one pin off a page; a page without pins may be evicted. */
    method UnpinPage(id: PageId) returns (ok: bool)
      requires Valid()
      modifies this`slab, replacer
      ensures Valid() && (ok <==> old(Pins(State(), id)) > 0) && replacer.trace == old(replacer.trace)
      ensures ok ==> Pins(State(), id) == old(Pins(State(), id)) - 1
      ensures forall x :: x in table && (x != id || !ok) ==> Stays(old(State()), State(), x)
    {
      hide PoolOk, Agree, Stays, Mirror;
      ghost var p, frames := State(), replacer.frames;
      AllStay(disk, p);
      NotPinned(p, id);
      if id !in table {
        return false;
      }
      var slot := table[id];
      InTable(disk, p, id);
      SlotsApart(disk, p, id);
      var b := slots[slot].value;
      if slab[b].pins <= 0 {
        return false;
      }
      var pins := slab[b].pins - 1;
      PinsOk(disk, p, slot, pins);
      AgreeLength(p, frames);
      AgreeNow(disk, p, frames, slot);
      if pins == 0 {
        replacer.Unpin(slot);
      }
      AgreePins(disk, p, slot, pins, frames, replacer.frames);
      slab := slab[b := slab[b].(pins := pins)];
      ok := true;
    }
  }

  lemma {:induction false} FullMeans(p: Pool, disk: map<PageId, Data>)
    requires PoolOk(disk, p, None) && Counted(p)
    ensures |p.table| <= |p.slots| && (p.slotFree == [] <==> |p.table| == |p.slots|)
  {
  }

  lemma {:induction false} SmallerTable(table: map<PageId, nat>, id: PageId)
    requires id in table
    ensures |table - {id}| == |table| - 1
  {
    var rest := table - {id};
    assert rest.Keys == table.Keys - {id};
    assert |rest| == |rest.Keys| && |table| == |table.Keys|;
  }

  lemma {:induction false} LargerTable(table: map<PageId, nat>, id: PageId, f: nat)
    requires id !in table
    ensures |table[id := f]| == |table| + 1
  {
    SmallerTable(table[id := f], id);
    assert table[id := f] - {id} == table;
  }

  /** No page of the table is in the slot in hand. */
  lemma {:induction false} SlotUnused(disk: map<PageId, Data>, p: Pool, f: nat)
    requires PoolOk(disk, p, Some(f)) && f < |p.slots|
    ensures forall x :: x in p.table ==> p.table[x] != f
  {
    assert SlotOk(p, Some(f), f);
    forall x | x in p.table
      ensures p.table[x] != f
    {
      assert Entered(disk, p, x);
    }
  }

  lemma {:induction false} NotPinned(p: Pool, id: PageId)
    ensures id !in p.table ==> Pins(p, id) == 0
  {
  }

  lemma {:induction false} AgreeNow(disk: map<PageId, Data>, p: Pool, frames: seq<Frame>, f: nat)
    requires PoolOk(disk, p, None) && Agree(p, frames) && Used(p, f)
    ensures f < |frames| && frames[f].tracked && (frames[f].evictable <==> BufferAt(p, f).pins == 0)
  {
    assert AgreeAt(p, frames, f);
  }

  /** Two pages are never in the same slot. */
  lemma {:induction false} SlotsApart(disk: map<PageId, Data>, p: Pool, id: PageId)
    requires PoolOk(disk, p, None) && id in p.table
    ensures forall x :: x in p.table && x != id ==> p.table[x] != p.table[id]
  {
    forall x | x in p.table && x != id
      ensures p.table[x] != p.table[id]
    {
      assert Entered(disk, p, x) && Entered(disk, p, id);
    }
  }

  /** What the table says about a page that is in it. */
  lemma {:induction false} InTable(disk: map<PageId, Data>, p: Pool, id: PageId)
    requires PoolOk(disk, p, None) && id in p.table
    ensures id in disk && Used(p, p.table[id]) && BufferAt(p, p.table[id]) == Buffer(Some(id), disk[id], Pins(p, id))
  {
    assert Entered(disk, p, id);
  }

  lemma {:induction false} OthersStay(disk: map<PageId, Data>, p: Pool, id: PageId, pins: nat)
    requires PoolOk(disk, p, None) && id in p.table && Used(p, p.table[id])
    ensures forall x :: x in p.table && x != id ==> Stays(p, WithPins(p, p.table[id], pins), x)
  {
    SlotsApart(disk, p, id);
    PinsOk(disk, p, p.table[id], pins);
    hide Stays, PoolOk;
  }

  lemma {:induction false} AllStay(disk: map<PageId, Data>, p: Pool)
    requires PoolOk(disk, p, None)
    ensures forall x :: x in p.table ==> Stays(p, p, x)
  {
    forall x | x in p.table
      ensures Stays(p, p, x)
    {
      assert Entered(disk, p, x);
    }
  }

  /** Whoever has a page pinned does not lose it to the victim. */
  lemma {:induction false} PinnedKept(p: Pool, hist: seq<Ev>, k: nat, gone: Option<PageId>)
    requires k >= 1 && (gone.Some? ==> PageVictim(p, hist, k, gone.value))
    ensures forall x :: x in p.table && Pins(p, x) > 0 ==> gone != Some(x)
  {
    hide Pins, Before;
  }

  lemma {:induction false} StaysTwice(p: Pool, q: Pool, r: Pool, gone: Option<PageId>)
    requires forall x :: x in p.table && gone != Some(x) ==> Stays(p, q, x)
    requires forall x :: x in q.table ==> Stays(q, r, x)
    ensures forall x :: x in p.table && gone != Some(x) ==> Stays(p, r, x)
  {
    forall x | x in p.table && gone != Some(x)
      ensures Stays(p, r, x)
    {
      assert Stays(p, q, x) && Stays(q, r, x);
    }
  }

  lemma {:induction false} AgreeLength(p: Pool, frames: seq<Frame>)
    requires Agree(p, frames)
    ensures |frames| == |p.slots|
  {
  }
}
