/** Chunks with an optional selection, and filtering them in place or by selection. */
module FilterChunks {
  import opened Values
  import opened ByteScan
  import opened SelectionVectors

  datatype Strategy = COMPACT | SELECTION_VECTOR

  /** The rows at some row numbers. */
  function Picked(rows: seq<Row>, idx: seq<nat>): (r: seq<Row>)
    requires forall i :: 0 <= i < |idx| ==> idx[i] < |rows|
    ensures |r| == |idx| && forall i :: 0 <= i < |idx| ==> r[i] == rows[idx[i]]
  {
    seq(|idx|, i requires 0 <= i < |idx| => rows[idx[i]])
  }

  /** Those elements of `s` whose mask is set. */
  function Masked<A>(s: seq<A>, mask: seq<bool>, n: nat): seq<A>
    requires n <= |s| && n <= |mask|
  {
    if n == 0 then [] else Masked(s, mask, n - 1) + if mask[n - 1] then [s[n - 1]] else []
  }

  /** The mask of a predicate over rows. */
  function MaskOf(pred: Row -> bool, rows: seq<Row>): (m: seq<bool>)
    ensures |m| == |rows| && forall i :: 0 <= i < |rows| ==> m[i] == pred(rows[i])
  {
    seq(|rows|, i requires 0 <= i < |rows| => pred(rows[i]))
  }

  /** Filtering as such: the rows that satisfy the predicate, in order. */
  function Kept(pred: Row -> bool, rows: seq<Row>): seq<Row> {
    if rows == [] then []
    else Kept(pred, rows[..|rows| - 1]) + if pred(rows[|rows| - 1]) then [rows[|rows| - 1]] else []
  }

  lemma {:induction false} MaskedIsKept(pred: Row -> bool, rows: seq<Row>, n: nat)
    requires n <= |rows|
    ensures Masked<Row>(rows, MaskOf(pred, rows), n) == Kept(pred, rows[..n])
  {
    if n > 0 {
      MaskedIsKept(pred, rows, n - 1);
      assert rows[..n][..n - 1] == rows[..n - 1];
    }
  }

  /** Masking row numbers and then picking is picking and then masking. */
  lemma {:induction false} MaskedPick(rows: seq<Row>, idx: seq<nat>, mask: seq<bool>, n: nat)
    requires (forall i :: 0 <= i < |idx| ==> idx[i] < |rows|) && n <= |idx| && |mask| == |idx|
    ensures forall i :: 0 <= i < |Masked<nat>(idx, mask, n)| ==> Masked<nat>(idx, mask, n)[i] < |rows|
    ensures Picked(rows, Masked<nat>(idx, mask, n)) == Masked<Row>(Picked(rows, idx), mask, n)
  {
    if n > 0 {
      MaskedPick(rows, idx, mask, n - 1);
    }
  }

  lemma {:induction false} MaskedAscends(idx: seq<nat>, mask: seq<bool>, n: nat)
    requires Ascending(idx) && n <= |idx| && |mask| == |idx|
    ensures Ascending(Masked<nat>(idx, mask, n))
    ensures forall i :: 0 <= i < |Masked<nat>(idx, mask, n)| ==> n > 0 && Masked<nat>(idx, mask, n)[i] <= idx[n - 1]
  {
    if n > 0 {
      MaskedAscends(idx, mask, n - 1);
    }
  }

  function Counting(n: nat): (r: seq<nat>)
    ensures |r| == n && forall i :: 0 <= i < n ==> r[i] == i
  {
    seq(n, i => i)
  }

  lemma {:induction false} PickAll(rows: seq<Row>)
    ensures Picked(rows, Counting(|rows|)) == rows
  {
  }

  class Chunk {
    var rows: seq<Row>
    var sel: SelectionVector?

    ghost predicate Valid()
      reads this, sel
    {
      sel != null ==>
        && sel.Valid() && sel.rowCount == |rows| && Ascending(sel.Indices())
        && forall i :: 0 <= i < |sel.Indices()| ==> sel.Indices()[i] < |rows|
    }

    /** The row numbers that the chunk shows. */
    ghost function Shown(): (idx: seq<nat>)
      requires Valid()
      reads this, sel
      ensures Ascending(idx) && forall i :: 0 <= i < |idx| ==> idx[i] < |rows|
    {
      if sel == null then Counting(|rows|) else sel.Indices()
    }

    /** The rows that the chunk shows. */
    ghost function Logical(): seq<Row>
      requires Valid()
      reads this, sel
    {
      Picked(rows, Shown())
    }

    constructor (rows: seq<Row>)
      ensures Valid() && sel == null && Logical() == rows
    {
      this.rows, sel := rows, null;
      new;
      PickAll(rows);
    }

    /** The row numbers that the chunk shows, in order. */
    method Numbers() returns (idx: seq<nat>)
      requires Valid()
      ensures idx == Shown()
    {
      if sel == null {
        idx := Counting(|rows|);
      } else {
        idx := sel.ForEach();
      }
    }

    /** Copies the selected rows and drops the selection. */
    method Materialize()
      requires Valid()
      modifies this
      ensures Valid() && sel == null && rows == old(Logical()) && Logical() == rows
    {
      if sel == null {
        PickAll(rows);
        return;
      }
      var idx := sel.ForEach();
      rows := Picked(rows, idx);
      sel := null;
      PickAll(rows);
    }

    /** Keeps the first `k` rows shown. */
    method Resize(k: nat)
      requires Valid() && k <= |Shown()|
      modifies this, sel
      ensures Valid() && sel == old(sel) && Logical() == old(Logical())[..k]
    {
      if sel != null {
        sel.Truncate(k);
      } else {
        PickAll(rows);
        rows := rows[..k];
        PickAll(rows);
      }
    }

    method DropPrefix(n: nat)
      requires Valid() && n <= |Shown()|
      modifies this, sel
      ensures Valid() && sel == old(sel) && Logical() == old(Logical())[n..]
    {
      if sel != null {
        sel.DropPrefix(n);
      } else {
        PickAll(rows);
        rows := rows[n..];
        PickAll(rows);
      }
    }

    /** Keeps the rows shown whose mask is set, copying them. */
    method Compact(mask: seq<bool>)
      requires Valid() && |mask| == |Shown()|
      modifies this
      ensures Valid() && sel == null && Logical() == old(Masked<Row>(Logical(), mask, |mask|))
    {
      var idx := Numbers();
      var keep := KeepMarked(idx, mask);
      MaskedPick(rows, idx, mask, |mask|);
      rows := Picked(rows, keep);
      sel := null;
      PickAll(rows);
    }

    /** Selects the rows shown whose mask is set; none left is reported. */
    method Select(mask: seq<bool>) returns (any: bool)
      requires Valid() && |mask| == |Shown()|
      modifies this
      ensures Valid() && rows == old(rows)
      ensures any <==> old(Masked<Row>(Logical(), mask, |mask|)) != []
      ensures any ==> Logical() == old(Masked<Row>(Logical(), mask, |mask|))
      ensures !any ==> Logical() == old(Logical())
    {
      var idx := Numbers();
      MaskedPick(rows, idx, mask, |mask|);
      MaskedAscends(idx, mask, |mask|);
      hide Masked;
      var sv;
      any, sv := BuildSelection(idx, mask, |rows|);
      if any {
        sel := sv;
      }
    }

    /** One filter over one chunk: whether rows are left, and then which. */
    method Filter(pred: Row -> bool, strategy: Strategy) returns (any: bool)
      requires Valid()
      modifies this
      ensures Valid() && (any <==> Kept(pred, old(Logical())) != [])
      ensures any ==> Logical() == Kept(pred, old(Logical()))
    {
      ghost var shown := Logical();
      var idx := Numbers();
      var mask := MaskOf(pred, Picked(rows, idx));
      MaskedIsKept(pred, shown, |shown|);
      assert shown[..|shown|] == shown;
      if strategy == COMPACT {
        Compact(mask);
        any := rows != [];
      } else {
        any := Select(mask);
      }
    }
  }

  /** The selection of the marked row numbers, if there are any. */
  method BuildSelection(idx: seq<nat>, mask: seq<bool>, n: nat) returns (any: bool, sv: SelectionVector?)
    requires |mask| == |idx| && Ascending(Masked<nat>(idx, mask, |mask|))
    requires forall i :: 0 <= i < |Masked<nat>(idx, mask, |mask|)| ==> Masked<nat>(idx, mask, |mask|)[i] < n
    ensures any <==> Masked<nat>(idx, mask, |mask|) != []
    ensures any ==> sv != null && fresh(sv) && sv.Valid() && sv.rowCount == n && sv.Indices() == Masked<nat>(idx, mask, |mask|)
  {
    var b := new Builder();
    for k := 0 to |idx|
      invariant b.indices == Masked<nat>(idx, mask, k) && fresh(b)
    {
      if mask[k] {
        b.Append(idx[k]);
      }
    }
    any, sv := b.indices != [], null;
    if any {
      sv := b.Finalize(n, false);
    }
  }

  method KeepMarked(idx: seq<nat>, mask: seq<bool>) returns (keep: seq<nat>)
    requires |mask| == |idx|
    ensures keep == Masked<nat>(idx, mask, |mask|)
  {
    keep := [];
    for k := 0 to |idx|
      invariant keep == Masked<nat>(idx, mask, k)
    {
      if mask[k] {
        keep := keep + [idx[k]];
      }
    }
  }

  /** A chain of filters, as such. */
  function KeptAll(preds: seq<Row -> bool>, rows: seq<Row>): seq<Row>
    decreases preds
  {
    if preds == [] then rows else KeptAll(preds[1..], Kept(preds[0], rows))
  }

  lemma {:induction false} NoneStayNone(preds: seq<Row -> bool>)
    ensures KeptAll(preds, []) == []
  {
    if preds != [] {
      NoneStayNone(preds[1..]);
    }
  }

  /** However the strategies are mixed, a chain shows the rows that satisfy all its predicates. */
  method FilterChain(chunk: Chunk, preds: seq<Row -> bool>, strategies: seq<Strategy>) returns (out: seq<Row>)
    requires chunk.Valid() && |strategies| == |preds|
    modifies chunk
    ensures out == old(KeptAll(preds, chunk.Logical()))
  {
    ghost var want := KeptAll(preds, chunk.Logical());
    var i := 0;
    while i < |preds|
      invariant i <= |preds| && chunk.Valid() && KeptAll(preds[i..], chunk.Logical()) == want
    {
      ghost var before := chunk.Logical();
      assert preds[i..][0] == preds[i] && preds[i..][1..] == preds[i + 1..];
      var any := chunk.Filter(preds[i], strategies[i]);
      if !any {
        NoneStayNone(preds[i + 1..]);
        return [];
      }
      i := i + 1;
    }
    assert preds[i..] == [];
    chunk.Materialize();
    out := chunk.rows;
  }
}
