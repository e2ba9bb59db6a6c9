/** The hash aggregate operator: a table of groups, doubled as it fills, and columns of running states. */
module HashAggregation {
  import opened Values
  import opened LinearProbing
  import opened AggregateSpec
  import JoinSpec

  const INITIAL_TABLE_SIZE := 16

  /** Where the value of an aggregate comes from. */
  datatype Binding = Direct(state: nat) | AvgDivide(sum: nat, count: nat)

  datatype Result = None | Some(rows: seq<seq<Cell>>)

  /** The states that the aggregates are computed from. */
  ghost predicate BindingOk(a: Aggregate, tallies: seq<Tally>, b: Binding) {
    match a
    case Avg(arg) =>
      && b.AvgDivide? && b.sum < |tallies| && b.count < |tallies|
      && tallies[b.sum] == TSum(arg) && tallies[b.count] == TCount(arg)
    case _ =>
      b.Direct? && b.state < |tallies| && tallies[b.state] == TallyOf(a)
  }

  function TallyOf(a: Aggregate): Tally
    requires !a.Avg?
  {
    match a
    case CountStar => TCountStar
    case Count(arg) => TCount(arg)
    case Sum(arg) => TSum(arg)
    case Min(arg) => TMin(arg)
    case Max(arg) => TMax(arg)
  }

  ghost predicate BindingsOk(aggs: seq<Aggregate>, tallies: seq<Tally>, bindings: seq<Binding>) {
    |bindings| == |aggs| && forall i :: 0 <= i < |aggs| ==> BindingOk(aggs[i], tallies, bindings[i])
  }

  /** Lays out the states: one per aggregate, two for an average. */
  method LayOut(aggs: seq<Aggregate>) returns (tallies: seq<Tally>, bindings: seq<Binding>)
    ensures BindingsOk(aggs, tallies, bindings)
  {
    tallies, bindings := [], [];
    var i := 0;
    while i < |aggs|
      invariant i <= |aggs| && BindingsOk(aggs[..i], tallies, bindings)
    {
      var a := aggs[i];
      if a.Avg? {
        bindings := bindings + [AvgDivide(|tallies|, |tallies| + 1)];
        tallies := tallies + [TSum(a.arg), TCount(a.arg)];
      } else {
        bindings := bindings + [Direct(|tallies|)];
        tallies := tallies + [TallyOf(a)];
      }
      i := i + 1;
    }
    assert aggs[..i] == aggs;
  }

  ghost function KeyEntries(hash: Key -> nat, keys: seq<Key>): (es: seq<Entry<nat>>)
    ensures |es| == |keys| && forall g :: 0 <= g < |keys| ==> es[g] == Entry(hash(keys[g]), g)
  {
    seq(|keys|, g requires 0 <= g < |keys| => Entry(hash(keys[g]), g))
  }

  lemma {:induction false} KeyEntriesSnoc(hash: Key -> nat, keys: seq<Key>, k: Key)
    ensures KeyEntries(hash, keys + [k]) == KeyEntries(hash, keys) + [Entry(hash(k), |keys|)]
  {
  }

  /** The table over the group keys, at most half full. */
  ghost predicate TableOk(hash: Key -> nat, table: seq<Slot<nat>>, keys: seq<Key>, ds: seq<nat>, own: seq<nat>) {
    && Holds(table, KeyEntries(hash, keys), ds, own)
    && 2 * |keys| <= |table| && |own| == |table| >= INITIAL_TABLE_SIZE && |ds| == |keys|
    && PowerOfTwo(|table|)
  }

  ghost predicate StatesOk(tallies: seq<Tally>, states: seq<seq<Num>>, groups: seq<seq<Row>>) {
    && |states| == |tallies|
    && (forall a :: 0 <= a < |tallies| ==> |states[a]| == |groups|)
    && (forall a, g :: 0 <= a < |tallies| && 0 <= g < |groups| ==> states[a][g] == StateOf(tallies[a], groups[g]))
  }

  /** The rows of each group. */
  ghost function GroupsOf(grouped: bool, key: Row -> Key, rows: seq<Row>, keys: seq<Key>): (gs: seq<seq<Row>>)
    ensures |gs| == |keys|
    ensures forall g :: 0 <= g < |keys| ==> gs[g] == GroupRows(grouped, key, rows, keys[g])
  {
    seq(|keys|, g requires 0 <= g < |keys| => GroupRows(grouped, key, rows, keys[g]))
  }

  /** The cell of an aggregate for group `g`. */
  function CellOf(b: Binding, states: seq<seq<Num>>, g: nat): Cell
    requires b.Direct? ==> b.state < |states| && g < |states[b.state]|
    requires b.AvgDivide? ==>
      b.sum < |states| && b.count < |states| && g < |states[b.sum]| && g < |states[b.count]|
  {
    match b
    case Direct(s) => if states[s][g].Num? then CInt(states[s][g].n) else CNull
    case AvgDivide(s, c) =>
      if Value0(states[c][g]) == 0 then CNull
      else CReal(Value0(states[s][g]) as real / Value0(states[c][g]) as real)
  }

  lemma {:induction false} CellMeans(a: Aggregate, tallies: seq<Tally>, b: Binding, states: seq<seq<Num>>,
                                     groups: seq<seq<Row>>, g: nat)
    requires BindingOk(a, tallies, b) && StatesOk(tallies, states, groups) && g < |groups|
    ensures CellOf(b, states, g) == AggregateOf(a, groups[g])
  {
    hide Args, Total, Least, Greatest;
    match a
    case Avg(arg) =>
      assert states[b.sum][g] == StateOf(TSum(arg), groups[g]);
      assert states[b.count][g] == StateOf(TCount(arg), groups[g]);
    case _ =>
      assert states[b.state][g] == StateOf(TallyOf(a), groups[g]);
  }

  /** What a new row does to the groups: it joins its own and leaves the others alone. */
  lemma {:induction false} GroupsSnoc(key: Row -> Key, rows: seq<Row>, row: Row, keys: seq<Key>, g: nat)
    requires g < |keys| && keys[g] == key(row)
    requires forall i, j :: 0 <= i < j < |keys| ==> keys[i] != keys[j]
    ensures var before := GroupsOf(true, key, rows, keys);
            GroupsOf(true, key, rows + [row], keys) == before[g := before[g] + [row]]
  {
    var before, after := GroupsOf(true, key, rows, keys), GroupsOf(true, key, rows + [row], keys);
    forall i | 0 <= i < |keys|
      ensures after[i] == before[g := before[g] + [row]][i]
    {
      MembersSnoc(key, rows, row, keys[i]);
      assert Members(key, rows, keys[i]) + [] == Members(key, rows, keys[i]);
    }
  }

  /** The states after a row has been added to group `g`. */
  function Updated(tallies: seq<Tally>, states: seq<seq<Num>>, g: nat, row: Row, upTo: nat): (r: seq<seq<Num>>)
    requires |states| == |tallies| && upTo <= |tallies|
    requires forall a :: 0 <= a < |states| ==> g < |states[a]|
    ensures |r| == |states|
    ensures forall a :: 0 <= a < |states| ==>
      r[a] == if a < upTo then states[a][g := Add(tallies[a], states[a][g], row)] else states[a]
  {
    seq(|states|, a requires 0 <= a < |states| =>
      if a < upTo then states[a][g := Add(tallies[a], states[a][g], row)] else states[a])
  }

  lemma {:induction false} UpdatedOk(tallies: seq<Tally>, states: seq<seq<Num>>, groups: seq<seq<Row>>, g: nat, row: Row)
    requires StatesOk(tallies, states, groups) && g < |groups|
    ensures StatesOk(tallies, Updated(tallies, states, g, row, |tallies|), groups[g := groups[g] + [row]])
  {
    var groups' := groups[g := groups[g] + [row]];
    var states' := Updated(tallies, states, g, row, |tallies|);
    forall a, i | 0 <= a < |tallies| && 0 <= i < |groups'|
      ensures states'[a][i] == StateOf(tallies[a], groups'[i])
    {
      if i == g {
        AddCorrect(tallies[a], groups[g], row);
      }
      assert states[a][i] == StateOf(tallies[a], groups[i]);
    }
  }

  /** The states after a group has been appended. */
  function Appended(tallies: seq<Tally>, states: seq<seq<Num>>): (r: seq<seq<Num>>)
    requires |states| == |tallies|
    ensures |r| == |states| && forall a :: 0 <= a < |states| ==> r[a] == states[a] + [Initial(tallies[a])]
  {
    seq(|states|, a requires 0 <= a < |states| => states[a] + [Initial(tallies[a])])
  }

  lemma {:induction false} AppendedOk(tallies: seq<Tally>, states: seq<seq<Num>>, groups: seq<seq<Row>>)
    requires StatesOk(tallies, states, groups)
    ensures StatesOk(tallies, Appended(tallies, states), groups + [[]])
  {
    var states' := Appended(tallies, states);
    forall a, i | 0 <= a < |tallies| && 0 <= i < |groups + [[]]|
      ensures states'[a][i] == StateOf(tallies[a], (groups + [[]])[i])
    {
      if i == |groups| {
        InitialCorrect(tallies[a]);
      }
    }
  }

  /** A new group starts with no rows. */
  lemma {:induction false} NewGroupOk(key: Row -> Key, rows: seq<Row>, k: Key, keys: seq<Key>,
                                      tallies: seq<Tally>, states: seq<seq<Num>>)
    requires keys == KeysSeen(key, rows) && StatesOk(tallies, states, GroupsOf(true, key, rows, keys))
    ensures k !in keys ==>
      StatesOk(tallies, Appended(tallies, states), GroupsOf(true, key, rows, keys + [k]))
  {
    if k !in keys {
      NoMembers(key, rows, k);
      AppendedOk(tallies, states, GroupsOf(true, key, rows, keys));
      assert GroupsOf(true, key, rows, keys + [k]) == GroupsOf(true, key, rows, keys) + [[]];
    }
  }

  /** No group met before distance `d` has the key looked for. */
  ghost predicate NotBefore(keys: seq<Key>, ds: seq<nat>, k: Key, d: nat)
    requires |ds| == |keys|
  {
    forall g :: 0 <= g < |keys| && keys[g] == k ==> d <= ds[g]
  }

  lemma {:induction false} SlotGroup(hash: Key -> nat, table: seq<Slot<nat>>, keys: seq<Key>, ds: seq<nat>, own: seq<nat>,
                                     k: Key, d: nat)
    requires TableOk(hash, table, keys, ds, own) && d < |table|
    requires table[At(Home(hash(k), |table|), d, |table|)].Used?
    ensures var e := table[At(Home(hash(k), |table|), d, |table|)];
            e.hash == hash(k) ==> e.item < |keys|
  {
    if table[At(Home(hash(k), |table|), d, |table|)].hash == hash(k) {
      var g := OwnerAt(table, KeyEntries(hash, keys), ds, own, hash(k), d);
    }
  }

  lemma {:induction false} SlotMisses(hash: Key -> nat, table: seq<Slot<nat>>, keys: seq<Key>, ds: seq<nat>, own: seq<nat>,
                                      k: Key, d: nat)
    requires TableOk(hash, table, keys, ds, own) && d < |table|
    requires NotBefore(keys, ds, k, d)
    requires var e := table[At(Home(hash(k), |table|), d, |table|)];
             e.Used? && (e.hash != hash(k) || (e.item < |keys| && keys[e.item] != k))
    ensures NotBefore(keys, ds, k, d + 1)
  {
    var es := KeyEntries(hash, keys);
    forall g | 0 <= g < |keys| && keys[g] == k
      ensures d + 1 <= ds[g]
    {
      assert es[g] == Entry(hash(k), g);
      assert table[At(Home(es[g].hash, |table|), ds[g], |table|)] == Used(es[g].hash, es[g].item);
      assert ds[g] != d;
    }
  }

  lemma {:induction false} FreeMeansAbsent(hash: Key -> nat, table: seq<Slot<nat>>, keys: seq<Key>, ds: seq<nat>, own: seq<nat>,
                                           k: Key, d: nat)
    requires TableOk(hash, table, keys, ds, own) && d < |table|
    requires NotBefore(keys, ds, k, d)
    requires table[At(Home(hash(k), |table|), d, |table|)].Free?
    ensures k !in keys
  {
    if k in keys {
      var g :| 0 <= g < |keys| && keys[g] == k;
      FreeEnds(table, KeyEntries(hash, keys), ds, own, d, g);
    }
  }

  class HashAggregate {
    const grouped: bool
    const key: Row -> Key
    const hash: Key -> nat
    const aggs: seq<Aggregate>
    var tallies: seq<Tally>
    var bindings: seq<Binding>
    var groupKeys: seq<Key>
    var states: seq<seq<Num>>
    var table: seq<Slot<nat>>
    var input: seq<seq<Row>>
    var aggregated: bool
    var cursor: nat
    ghost var seen: seq<Row>
    ghost const rows: seq<Row>
    ghost var ds: seq<nat>
    ghost var own: seq<nat>

    /** The groups and states are those of the rows seen so far. */
    ghost predicate Counting()
      reads this
    {
      && BindingsOk(aggs, tallies, bindings)
      && groupKeys == Groups(grouped, key, seen)
      && StatesOk(tallies, states, GroupsOf(grouped, key, seen, groupKeys))
      && (grouped ==> TableOk(hash, table, groupKeys, ds, own))
    }

    ghost predicate Valid()
      reads this
    {
      && Counting()
      && cursor <= |groupKeys|
      && seen + JoinSpec.Flatten(input) == rows
      && (aggregated ==> input == [] && seen == rows)
      && (!aggregated ==> cursor == 0)
    }

    /** What the operator has still to emit. */
    ghost function Remaining(): seq<seq<Cell>>
      requires Valid()
      reads this
    {
      GroupBy(grouped, key, aggs, rows)[if aggregated then cursor else 0..]
    }

    constructor (grouped: bool, key: Row -> Key, hash: Key -> nat, aggs: seq<Aggregate>, input: seq<seq<Row>>)
      ensures Valid() && this.grouped == grouped && this.key == key && this.aggs == aggs && !aggregated
      ensures rows == JoinSpec.Flatten(input)
    {
      this.grouped, this.key, this.hash, this.aggs, this.input := grouped, key, hash, aggs, input;
      var tallies, bindings := LayOut(aggs);
      this.tallies, this.bindings := tallies, bindings;
      this.groupKeys := if grouped then [] else [[]];
      this.states := seq(|tallies|, a requires 0 <= a < |tallies| => if grouped then [] else [Initial(tallies[a])]);
      this.table := if grouped then NoEntries(INITIAL_TABLE_SIZE) else [];
      this.aggregated, this.cursor := false, 0;
      this.seen, this.rows := [], JoinSpec.Flatten(input);
      this.ds, this.own := [], seq(INITIAL_TABLE_SIZE, _ => 0);
      new;
      if grouped {
        EmptyHolds(table, own);
        assert KeyEntries(hash, groupKeys) == [];
        SixteenIsPower();
      } else {
        forall a | 0 <= a < |tallies| {
          InitialCorrect(tallies[a]);
        }
      }
    }

    /** Doubles the table and enters every group again. */
    method ResizeTable()
      requires |own| == |table| >= INITIAL_TABLE_SIZE && |groupKeys| <= |table| && PowerOfTwo(|table|)
      modifies this`table, this`ds, this`own
      ensures |table| == 2 * old(|table|)
      ensures TableOk(hash, table, groupKeys, ds, own)
    {
      hide Holds;
      var size := |table| * 2;
      table := NoEntries(size);
      ds, own := [], seq(size, _ => 0);
      EmptyHolds(table, own);
      assert KeyEntries(hash, groupKeys[..0]) == [];
      var g := 0;
      while g < |groupKeys|
        invariant g <= |groupKeys| && |table| == size && |own| == size && |ds| == g
        invariant Holds(table, KeyEntries(hash, groupKeys[..g]), ds, own)
      {
        var h := hash(groupKeys[g]);
        var slot;
        ghost var d;
        slot, d := SeekFree(table, h, KeyEntries(hash, groupKeys[..g]), ds, own);
        PlaceHolds(table, KeyEntries(hash, groupKeys[..g]), ds, own, h, g, d);
        KeyEntriesSnoc(hash, groupKeys[..g], groupKeys[g]);
        assert groupKeys[..g + 1] == groupKeys[..g] + [groupKeys[g]];
        table := table[slot := Used(h, g)];
        own := own[slot := g];
        ds := ds + [d];
        g := g + 1;
      }
      assert groupKeys[..g] == groupKeys;
      DoublePower(old(|table|));
    }

    /** Looks for the group of a key; the walk ends at that group or at a free slot. */
    method FindGroup(k: Key) returns (found: bool, g: nat, slot: nat, ghost d: nat)
      requires TableOk(hash, table, groupKeys, ds, own)
      ensures found <==> k in groupKeys
      ensures found ==> g < |groupKeys| && groupKeys[g] == k
      ensures !found ==> d < |table| && slot == At(Home(hash(k), |table|), d, |table|)
      ensures !found ==> Crowded(table, hash(k), d) && table[slot].Free?
    {
      hide PowerOfTwo, Holds;
      ghost var es := KeyEntries(hash, groupKeys);
      found, g := false, 0;
      var h := hash(k);
      slot := Home(h, |table|);
      ghost var free := MeetsFree(table, es, ds, own, slot);
      d := 0;
      while table[slot].Used?
        invariant |table| > 0 && d <= free && slot == At(Home(h, |table|), d, |table|)
        invariant NotBefore(groupKeys, ds, k, d) && Crowded(table, h, d)
        decreases free - d
      {
        var e := table[slot];
        SlotGroup(hash, table, groupKeys, ds, own, k, d);
        if e.hash == h && groupKeys[e.item] == k {
          return true, e.item, slot, d;
        }
        SlotMisses(hash, table, groupKeys, ds, own, k, d);
        slot := NextSlot(slot, |table|);
        d := d + 1;
      }
      FreeMeansAbsent(hash, table, groupKeys, ds, own, k, d);
    }

    /** The group of a key, entered at the first free slot if it is new. */
    method FindOrCreateGroup(k: Key) returns (g: nat)
      requires TableOk(hash, table, groupKeys, ds, own) && |states| == |tallies|
      modifies this`groupKeys, this`states, this`table, this`ds, this`own
      ensures TableOk(hash, table, groupKeys, ds, own)
      ensures g < |groupKeys| && groupKeys[g] == k
      ensures k in old(groupKeys) ==> groupKeys == old(groupKeys) && states == old(states)
      ensures k !in old(groupKeys) ==>
        groupKeys == old(groupKeys) + [k] && states == Appended(tallies, old(states)) && g == old(|groupKeys|)
    {
      hide TableOk;
      var found, slot;
      ghost var d;
      found, g, slot, d := FindGroup(k);
      if !found {
        CreateGroup(k, slot, d);
        g := |groupKeys| - 1;
      }
    }

    /** Adds a row to every state of its group. */
    method UpdateStates(g: nat, row: Row)
      requires |states| == |tallies| && forall a :: 0 <= a < |states| ==> g < |states[a]|
      modifies this`states
      ensures states == Updated(tallies, old(states), g, row, |tallies|)
    {
      ghost var start := states;
      var a := 0;
      while a < |tallies|
        invariant a <= |tallies| && states == Updated(tallies, start, g, row, a)
      {
        states := states[a := states[a][g := Add(tallies[a], states[a][g], row)]];
        a := a + 1;
      }
    }

    /** Takes one input row into its group. */
    method AddRow(row: Row)
      requires Counting()
      modifies this`groupKeys, this`states, this`table, this`ds, this`own, this`seen
      ensures Counting() && seen == old(seen) + [row]
    {
      hide TableOk, BindingsOk, KeysSeen, Members, StateOf, Add, Updated;
      var g := 0;
      if grouped {
        var k := key(row);
        ghost var before := groupKeys;
        g := FindOrCreateGroup(k);
        NewGroupOk(key, seen, k, before, tallies, old(states));
        KeysSeenSnoc(key, seen, row);
        GroupsSnoc(key, seen, row, groupKeys, g);
      } else {
        assert GroupsOf(grouped, key, seen + [row], [[]]) == [seen + [row]];
        assert GroupsOf(grouped, key, seen, [[]])[0 := seen + [row]] == [seen + [row]];
      }
      UpdatedOk(tallies, states, GroupsOf(grouped, key, seen, groupKeys), g, row);
      UpdateStates(g, row);
      seen := seen + [row];
    }

    /** Reads the whole input. */
    method AggregateAll()
      requires Valid() && !aggregated
      modifies this
      ensures Valid() && aggregated && cursor == 0
    {
      hide BindingsOk, StatesOk, TableOk, Groups, JoinSpec.Flatten;
      while input != []
        invariant Counting() && cursor == 0 && seen + JoinSpec.Flatten(input) == rows
        decreases |input|
      {
        var chunk, rest := input[0], input[1..];
        Uncons(input);
        input := rest;
        ghost var start := seen;
        var r := 0;
        while r < |chunk|
          invariant r <= |chunk| && Counting() && cursor == 0 && seen == start + chunk[..r] && input == rest
        {
          AddRow(chunk[r]);
          assert chunk[..r + 1] == chunk[..r] + [chunk[r]];
          r := r + 1;
        }
        assert chunk[..r] == chunk;
      }
      NoChunks();
      aggregated := true;
    }

    /** The next groups, at most a chunk full. */
    method EmitSlice() returns (out: seq<seq<Cell>>)
      requires Valid() && aggregated && cursor < |groupKeys|
      modifies this`cursor
      ensures Valid() && old(Remaining()) == out + Remaining()
      ensures 0 < |out| <= CHUNK_SIZE
    {
      hide TableOk, BindingsOk, StatesOk, Groups, GroupBy, JoinSpec.Flatten;
      var n := if CHUNK_SIZE < |groupKeys| - cursor then CHUNK_SIZE else |groupKeys| - cursor;
      out := GroupSlice(cursor, n);
      SliceSplit(GroupBy(grouped, key, aggs, rows), cursor, n);
      cursor := cursor + n;
    }

    method GroupSlice(first: nat, n: nat) returns (out: seq<seq<Cell>>)
      requires Counting() && first + n <= |groupKeys|
      ensures out == GroupBy(grouped, key, aggs, seen)[first..first + n]
    {
      hide TableOk, BindingsOk, StatesOk, Groups, GroupBy;
      out := [];
      ghost var all := GroupBy(grouped, key, aggs, seen);
      var i := 0;
      while i < n
        invariant i <= n && out == all[first..first + i]
      {
        var cells := GroupCells(first + i);
        SliceNext(all, first, i);
        out := out + [cells];
        i := i + 1;
      }
    }

    /** The output row of one group. */
    method GroupCells(g: nat) returns (cells: seq<Cell>)
      requires Counting() && g < |groupKeys|
      ensures cells == GroupBy(grouped, key, aggs, seen)[g]
    {
      hide TableOk, KeysSeen;
      cells := KeyCells(groupKeys[g]);
      ghost var group := GroupRows(grouped, key, seen, groupKeys[g]);
      ghost var want := AggregateCells(aggs, group);
      var c := 0;
      while c < |bindings|
        invariant c <= |bindings| && cells == KeyCells(groupKeys[g]) + want[..c]
      {
        CellMeans(aggs[c], tallies, bindings[c], states, GroupsOf(grouped, key, seen, groupKeys), g);
        cells := cells + [CellOf(bindings[c], states, g)];
        assert want[..c + 1] == want[..c] + [want[c]];
        c := c + 1;
      }
      assert want[..c] == want;
    }

    /** The next chunk of groups, or nothing once all have been emitted. */
    method Next() returns (out: Result)
      requires Valid()
      modifies this
      ensures Valid() && aggregated
      ensures out.Some? ==> 0 < |out.rows| <= CHUNK_SIZE && old(Remaining()) == out.rows + Remaining()
      ensures out.None? ==> old(Remaining()) == [] == Remaining()
    {
      hide Counting, GroupBy;
      if !aggregated {
        AggregateAll();
      }
      RemainingLength();
      if cursor >= |groupKeys| {
        return None;
      }
      var rows := EmitSlice();
      return Some(rows);
    }

    lemma {:induction false} RemainingLength()
      requires Valid() && aggregated
      ensures |Remaining()| == |groupKeys| - cursor
    {
    }

    /** Pulls until the operator is exhausted, as its consumer does. */
    method Drain() returns (out: seq<seq<Cell>>)
      requires Valid()
      modifies this
      ensures out == old(Remaining())
    {
      hide Counting, GroupBy, JoinSpec.Flatten;
      out := [];
      ghost var all := Remaining();
      ghost var left := all;
      var got := Next();
      while got.Some?
        invariant Valid() && all == out + left
        invariant got.Some? ==> left == got.rows + Remaining() && |got.rows| > 0
        invariant got.None? ==> left == []
        decreases |left|, got.Some?
      {
        Joined(out, got.rows, Remaining());
        out := out + got.rows;
        left := Remaining();
        got := Next();
      }
    }

    method CreateGroup(k: Key, slot: nat, ghost d: nat)
      requires TableOk(hash, table, groupKeys, ds, own) && |states| == |tallies|
      requires d < |table| && slot == At(Home(hash(k), |table|), d, |table|)
      requires Crowded(table, hash(k), d) && table[slot].Free?
      modifies this`groupKeys, this`states, this`table, this`ds, this`own
      ensures TableOk(hash, table, groupKeys, ds, own)
      ensures groupKeys == old(groupKeys) + [k] && states == Appended(tallies, old(states))
    {
      hide Holds, PowerOfTwo;
      PlaceHolds(table, KeyEntries(hash, groupKeys), ds, own, hash(k), |groupKeys|, d);
      KeyEntriesSnoc(hash, groupKeys, k);
      table := table[slot := Used(hash(k), |groupKeys|)];
      own := own[slot := |groupKeys|];
      ds := ds + [d];
      groupKeys := groupKeys + [k];
      states := Appended(tallies, states);
      if |groupKeys| * 2 > |table| {
        ResizeTable();
      }
    }
  }

  lemma {:induction false} Uncons(input: seq<seq<Row>>)
    requires input != []
    ensures forall s: seq<Row> :: s + JoinSpec.Flatten(input) == (s + input[0]) + JoinSpec.Flatten(input[1..])
  {
    forall s: seq<Row>
      ensures s + JoinSpec.Flatten(input) == (s + input[0]) + JoinSpec.Flatten(input[1..])
    {
      assert s + (input[0] + JoinSpec.Flatten(input[1..])) == (s + input[0]) + JoinSpec.Flatten(input[1..]);
    }
  }

  lemma {:induction false} NoChunks()
    ensures JoinSpec.Flatten([]) == []
  {
  }

  lemma {:induction false} SliceNext(s: seq<seq<Cell>>, a: nat, k: nat)
    requires a + k < |s|
    ensures s[a..a + k] + [s[a + k]] == s[a..a + (k + 1)]
  {
  }

  lemma {:induction false} SliceSplit(s: seq<seq<Cell>>, a: nat, k: nat)
    requires a + k <= |s|
    ensures s[a..] == s[a..a + k] + s[a + k..]
  {
  }

  lemma {:induction false} Joined(a: seq<seq<Cell>>, b: seq<seq<Cell>>, c: seq<seq<Cell>>)
    ensures a + (b + c) == (a + b) + c
  {
  }

  /** The whole operator computes the grouped aggregation of its input. */
  method RunHashAggregate(grouped: bool, key: Row -> Key, hash: Key -> nat, aggs: seq<Aggregate>, input: seq<seq<Row>>)
    returns (out: seq<seq<Cell>>)
    ensures out == GroupBy(grouped, key, aggs, JoinSpec.Flatten(input))
    ensures var rows := JoinSpec.Flatten(input);
            && |out| == |Groups(grouped, key, rows)|
            && forall g :: 0 <= g < |out| ==> GroupRight(aggs, Groups(grouped, key, rows)[g],
                                                         GroupRows(grouped, key, rows, Groups(grouped, key, rows)[g]), out[g])
  {
    var agg := new HashAggregate(grouped, key, hash, aggs, input);
    out := agg.Drain();
    CellsRight(grouped, key, aggs, JoinSpec.Flatten(input));
  }

  /** An output row: the values of the key, then for every aggregate the cell that is right for the rows of the group. */
  ghost predicate GroupRight(aggs: seq<Aggregate>, k: Key, rows: seq<Row>, out: seq<Cell>) {
    && |out| == |k| + |aggs|
    && (forall j :: 0 <= j < |k| ==> out[j] == CKey(k[j]))
    && (forall a :: 0 <= a < |aggs| ==> CellRight(aggs[a], rows, out[|k| + a]))
  }

  lemma {:induction false} CellsRight(grouped: bool, key: Row -> Key, aggs: seq<Aggregate>, rows: seq<Row>)
    ensures var ks := Groups(grouped, key, rows);
            forall g :: 0 <= g < |ks| ==>
              GroupRight(aggs, ks[g], GroupRows(grouped, key, rows, ks[g]), GroupBy(grouped, key, aggs, rows)[g])
  {
    hide CellRight, AggregateOf, GroupRows, Groups;
    var ks := Groups(grouped, key, rows);
    forall g | 0 <= g < |ks|
      ensures GroupRight(aggs, ks[g], GroupRows(grouped, key, rows, ks[g]), GroupBy(grouped, key, aggs, rows)[g])
    {
      var members := GroupRows(grouped, key, rows, ks[g]);
      forall a | 0 <= a < |aggs| {
        AggregateRight(aggs[a], members);
      }
    }
  }

  lemma {:induction false} SixteenIsPower()
    ensures PowerOfTwo(INITIAL_TABLE_SIZE)
  {
    assert PowerOfTwo(4);
  }

  lemma {:induction false} DoublePower(n: nat)
    requires PowerOfTwo(n)
    ensures PowerOfTwo(n * 2)
  {
    assert n * 2 / 2 == n;
  }
}
