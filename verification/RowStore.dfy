/** The simple table: an append-only sequence of rows and the set of row ids with a tombstone. */
module RowStore {
  import opened Values

  /** A tombstone may also be left over for an id that no row has yet. */
  datatype Store = Store(rows: seq<Row>, dead: set<nat>)

  ghost predicate Tidy(s: Store) {
    forall id :: id in s.dead ==> id < |s.rows|
  }

  function Insert(s: Store, rows: seq<Row>): Store {
    s.(rows := s.rows + rows)
  }

  /** Ids that no row has are passed over. */
  function Delete(s: Store, ids: seq<nat>): Store {
    s.(dead := s.dead + set id | id in ids && id < |s.rows|)
  }

  function Update(s: Store, ids: seq<nat>, rows: seq<Row>): Store {
    Insert(Delete(s, ids), rows)
  }

  /** What a reader sees: tombstones without a row do not show. */
  function Seen(s: Store): (r: Store)
    ensures Tidy(r) && r.rows == s.rows
    ensures Tidy(s) ==> r == s
  {
    var r := s.(dead := set id | id in s.dead && id < |s.rows|);
    assert Tidy(s) ==> r.dead == s.dead;
    r
  }

  lemma {:induction false} OpsTidy(s: Store, ids: seq<nat>, rows: seq<Row>)
    requires Tidy(s)
    ensures Tidy(Insert(s, rows)) && Tidy(Delete(s, ids)) && Tidy(Update(s, ids, rows))
  {
  }
}
