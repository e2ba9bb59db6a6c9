/** What a grouped aggregation means: distinct keys in order of appearance, one value per aggregate. */
module AggregateSpec {
  import opened Values

  type Key = seq<Value>

  /** An aggregate's argument: NULL or an integer. */
  datatype Num = NoNum | Num(n: int)

  datatype Aggregate =
    | CountStar
    | Count(arg: Row -> Num)
    | Sum(arg: Row -> Num)
    | Avg(arg: Row -> Num)
    | Min(arg: Row -> Num)
    | Max(arg: Row -> Num)

  datatype Cell = CNull | CKey(v: Value) | CInt(n: int) | CReal(r: real)

  ghost predicate HasKey(key: Row -> Key, rows: seq<Row>, k: Key) {
    exists i :: 0 <= i < |rows| && key(rows[i]) == k
  }

  lemma {:induction false} HasKeySnoc(key: Row -> Key, rows: seq<Row>, row: Row, k: Key)
    ensures HasKey(key, rows + [row], k) <==> HasKey(key, rows, k) || key(row) == k
  {
    if i :| 0 <= i < |rows| && key(rows[i]) == k {
      assert key((rows + [row])[i]) == k;
    }
    if key(row) == k {
      assert key((rows + [row])[|rows|]) == k;
    }
  }

  /** The distinct keys of the rows, in order of first appearance. */
  function KeysSeen(key: Row -> Key, rows: seq<Row>): (ks: seq<Key>)
    ensures forall i, j :: 0 <= i < j < |ks| ==> ks[i] != ks[j]
    ensures forall k :: k in ks <==> HasKey(key, rows, k)
  {
    if rows == [] then []
    else
      var n := |rows| - 1;
      var ks := KeysSeen(key, rows[..n]);
      assert forall k :: HasKey(key, rows, k) <==> HasKey(key, rows[..n], k) || key(rows[n]) == k by {
        assert rows == rows[..n] + [rows[n]];
        forall k {
          HasKeySnoc(key, rows[..n], rows[n], k);
        }
      }
      if key(rows[n]) in ks then ks else ks + [key(rows[n])]
  }

  /** The rows with a given key. */
  function Members(key: Row -> Key, rows: seq<Row>, k: Key): seq<Row> {
    if rows == [] then []
    else Members(key, rows[..|rows| - 1], k) + if key(rows[|rows| - 1]) == k then [rows[|rows| - 1]] else []
  }

  /** The arguments that are not NULL. */
  function Args(arg: Row -> Num, rows: seq<Row>): seq<int> {
    if rows == [] then []
    else
      var v := arg(rows[|rows| - 1]);
      Args(arg, rows[..|rows| - 1]) + if v.Num? then [v.n] else []
  }

  function Total(s: seq<int>): int {
    if s == [] then 0 else Total(s[..|s| - 1]) + s[|s| - 1]
  }

  function Least(s: seq<int>): (m: int)
    requires s != []
    ensures m in s && forall x :: x in s ==> m <= x
  {
    if |s| == 1 then s[0]
    else
      var n := |s| - 1;
      var m := Least(s[..n]);
      assert s == s[..n] + [s[n]];
      if s[n] < m then s[n] else m
  }

  function Greatest(s: seq<int>): (m: int)
    requires s != []
    ensures m in s && forall x :: x in s ==> x <= m
  {
    if |s| == 1 then s[0]
    else
      var n := |s| - 1;
      var m := Greatest(s[..n]);
      assert s == s[..n] + [s[n]];
      if s[n] > m then s[n] else m
  }

  /** The value of an aggregate over the rows of a group. */
  function AggregateOf(a: Aggregate, rows: seq<Row>): Cell {
    match a
    case CountStar => CInt(|rows|)
    case Count(arg) => CInt(|Args(arg, rows)|)
    case Sum(arg) => if Args(arg, rows) == [] then CNull else CInt(Total(Args(arg, rows)))
    case Avg(arg) =>
      if Args(arg, rows) == [] then CNull
      else CReal(Total(Args(arg, rows)) as real / |Args(arg, rows)| as real)
    case Min(arg) => if Args(arg, rows) == [] then CNull else CInt(Least(Args(arg, rows)))
    case Max(arg) => if Args(arg, rows) == [] then CNull else CInt(Greatest(Args(arg, rows)))
  }

  function KeyCells(k: Key): (c: seq<Cell>)
    ensures |c| == |k| && forall i :: 0 <= i < |k| ==> c[i] == CKey(k[i])
  {
    seq(|k|, i requires 0 <= i < |k| => CKey(k[i]))
  }

  function AggregateCells(aggs: seq<Aggregate>, rows: seq<Row>): (c: seq<Cell>)
    ensures |c| == |aggs| && forall i :: 0 <= i < |aggs| ==> c[i] == AggregateOf(aggs[i], rows)
  {
    seq(|aggs|, i requires 0 <= i < |aggs| => AggregateOf(aggs[i], rows))
  }

  /** The groups: without group keys there is one, even over no rows. */
  function Groups(grouped: bool, key: Row -> Key, rows: seq<Row>): seq<Key> {
    if grouped then KeysSeen(key, rows) else [[]]
  }

  function GroupRows(grouped: bool, key: Row -> Key, rows: seq<Row>, k: Key): seq<Row> {
    if grouped then Members(key, rows, k) else rows
  }

  /** The result of the aggregation, one row per group. */
  function GroupBy(grouped: bool, key: Row -> Key, aggs: seq<Aggregate>, rows: seq<Row>): (out: seq<seq<Cell>>)
    ensures |out| == |Groups(grouped, key, rows)|
    ensures forall g :: 0 <= g < |out| ==>
      var k := Groups(grouped, key, rows)[g];
      out[g] == KeyCells(k) + AggregateCells(aggs, GroupRows(grouped, key, rows, k))
  {
    var ks := Groups(grouped, key, rows);
    seq(|ks|, g requires 0 <= g < |ks| => KeyCells(ks[g]) + AggregateCells(aggs, GroupRows(grouped, key, rows, ks[g])))
  }

  // ---- what the cells say of the rows ----

  /** The rows whose argument is not NULL. */
  ghost function Given(arg: Row -> Num, rows: seq<Row>): set<nat> {
    set i | 0 <= i < |rows| && arg(rows[i]).Num?
  }

  /** The sum of the arguments from row `i` on. */
  ghost function SumFrom(arg: Row -> Num, rows: seq<Row>, i: nat): int
    requires i <= |rows|
    decreases |rows| - i
  {
    if i == |rows| then 0 else (if arg(rows[i]).Num? then arg(rows[i]).n else 0) + SumFrom(arg, rows, i + 1)
  }

  /** The cell of an aggregate, said of the rows of the group one by one; NULL where there is no argument. */
  ghost predicate CellRight(a: Aggregate, rows: seq<Row>, c: Cell) {
    match a
    case CountStar => c == CInt(|rows|)
    case Count(arg) => c == CInt(|Given(arg, rows)|)
    case Sum(arg) => c == if Given(arg, rows) == {} then CNull else CInt(SumFrom(arg, rows, 0))
    case Avg(arg) =>
      if Given(arg, rows) == {} then c == CNull
      else c.CReal? && c.r * |Given(arg, rows)| as real == SumFrom(arg, rows, 0) as real
    case Min(arg) =>
      if Given(arg, rows) == {} then c == CNull
      else c.CInt? && Attained(arg, rows, c.n) && forall i :: i in Given(arg, rows) ==> c.n <= arg(rows[i]).n
    case Max(arg) =>
      if Given(arg, rows) == {} then c == CNull
      else c.CInt? && Attained(arg, rows, c.n) && forall i :: i in Given(arg, rows) ==> arg(rows[i]).n <= c.n
  }

  /** Some row has this argument. */
  ghost predicate Attained(arg: Row -> Num, rows: seq<Row>, n: int) {
    exists i :: 0 <= i < |rows| && arg(rows[i]) == Num(n)
  }

  lemma {:induction false} SumSnoc(arg: Row -> Num, rows: seq<Row>, i: nat)
    requires rows != [] && i <= |rows| - 1
    ensures SumFrom(arg, rows, i)
         == SumFrom(arg, rows[..|rows| - 1], i) + if arg(rows[|rows| - 1]).Num? then arg(rows[|rows| - 1]).n else 0
    decreases |rows| - i
  {
    if i < |rows| - 1 {
      SumSnoc(arg, rows, i + 1);
    }
  }

  lemma {:induction false} GivenSnoc(arg: Row -> Num, rows: seq<Row>)
    requires rows != []
    ensures var n := |rows| - 1;
            Given(arg, rows) == Given(arg, rows[..n]) + (if arg(rows[n]).Num? then {n} else {}) && n !in Given(arg, rows[..n])
  {
  }

  /** The list of the arguments has one for every row that gives one, and no others. */
  lemma {:induction false} ArgsMean(arg: Row -> Num, rows: seq<Row>)
    ensures |Args(arg, rows)| == |Given(arg, rows)| && Total(Args(arg, rows)) == SumFrom(arg, rows, 0)
    decreases |rows|
  {
    if rows != [] {
      var n := |rows| - 1;
      ArgsMean(arg, rows[..n]);
      GivenSnoc(arg, rows);
      SumSnoc(arg, rows, 0);
      hide Given;
      if arg(rows[n]).Num? {
        FoldsSnoc(Args(arg, rows[..n]), arg(rows[n]).n);
      } else {
        assert Args(arg, rows) == Args(arg, rows[..n]);
      }
    } else {
      assert Given(arg, rows) == {};
    }
  }

  lemma {:induction false} ArgIn(arg: Row -> Num, rows: seq<Row>, n: int)
    ensures n in Args(arg, rows) <==> Attained(arg, rows, n)
    decreases |rows|
  {
    if rows != [] {
      var m := |rows| - 1;
      ArgIn(arg, rows[..m], n);
      if i :| 0 <= i < |rows[..m]| && arg(rows[..m][i]) == Num(n) {
        assert arg(rows[i]) == Num(n);
      }
      if i :| 0 <= i < |rows| && arg(rows[i]) == Num(n) {
        if i < m {
          assert arg(rows[..m][i]) == Num(n);
        }
      }
    }
  }

  lemma {:induction false} GivenIn(arg: Row -> Num, rows: seq<Row>, i: nat)
    requires i in Given(arg, rows)
    ensures arg(rows[i]).n in Args(arg, rows)
  {
    assert arg(rows[i]) == Num(arg(rows[i]).n);
    ArgIn(arg, rows, arg(rows[i]).n);
  }

  lemma {:induction false} NoneGiven(arg: Row -> Num, rows: seq<Row>)
    ensures Args(arg, rows) == [] <==> Given(arg, rows) == {}
  {
    ArgsMean(arg, rows);
    hide Given, Args;
    if |Given(arg, rows)| == 0 {
      assert Given(arg, rows) == {};
    }
  }

  lemma {:induction false} ExtremesRight(arg: Row -> Num, rows: seq<Row>)
    requires Args(arg, rows) != []
    ensures Attained(arg, rows, Least(Args(arg, rows))) && Attained(arg, rows, Greatest(Args(arg, rows)))
    ensures forall i :: i in Given(arg, rows) ==> Least(Args(arg, rows)) <= arg(rows[i]).n <= Greatest(Args(arg, rows))
  {
    hide Args, Least, Greatest, Attained;
    ArgIn(arg, rows, Least(Args(arg, rows)));
    ArgIn(arg, rows, Greatest(Args(arg, rows)));
    forall i | i in Given(arg, rows)
      ensures Least(Args(arg, rows)) <= arg(rows[i]).n <= Greatest(Args(arg, rows))
    {
      GivenIn(arg, rows, i);
    }
  }

  lemma QuotientTimes(a: real, n: nat)
    requires n > 0
    ensures a / n as real * n as real == a
  {
  }

  lemma {:induction false} GivenRows(arg: Row -> Num, rows: seq<Row>)
    ensures forall i :: i in Given(arg, rows) ==> i < |rows| && arg(rows[i]).Num?
  {
  }

  /** The value of an aggregate is right for the rows. */
  lemma {:induction false} AggregateRight(a: Aggregate, rows: seq<Row>)
    ensures CellRight(a, rows, AggregateOf(a, rows))
  {
    hide Given, Args, Total, SumFrom, Attained, Least, Greatest;
    if !a.CountStar? {
      var arg := a.arg;
      GivenRows(arg, rows);
      ArgsMean(arg, rows);
      NoneGiven(arg, rows);
      if Args(arg, rows) != [] {
        match a
        case Avg(_) => QuotientTimes(Total(Args(arg, rows)) as real, |Args(arg, rows)|);
        case Min(_) => ExtremesRight(arg, rows);
        case Max(_) => ExtremesRight(arg, rows);
        case _ =>
      }
    }
  }

  /** A group has the rows with its key, each as often as the input has it. */
  lemma {:induction false} MembersMean(key: Row -> Key, rows: seq<Row>, k: Key, row: Row)
    ensures multiset(Members(key, rows, k))[row] == if key(row) == k then multiset(rows)[row] else 0
    decreases |rows|
  {
    if rows != [] {
      var n := |rows| - 1;
      MembersMean(key, rows[..n], k, row);
      assert rows == rows[..n] + [rows[n]];
    }
  }

  // ---- running states ----

  /** The running states of an aggregation; an average keeps a sum and a count. */
  datatype Tally = TCountStar | TCount(arg: Row -> Num) | TSum(arg: Row -> Num) | TMin(arg: Row -> Num) | TMax(arg: Row -> Num)

  function Initial(t: Tally): Num {
    if t.TCountStar? || t.TCount? then Num(0) else NoNum
  }

  function Value0(s: Num): int {
    if s.Num? then s.n else 0
  }

  /** One row added to a state. */
  function Add(t: Tally, s: Num, row: Row): Num {
    match t
    case TCountStar => Num(Value0(s) + 1)
    case TCount(arg) => if arg(row).NoNum? then s else Num(Value0(s) + 1)
    case TSum(arg) => if arg(row).NoNum? then s else Num(Value0(s) + arg(row).n)
    case TMin(arg) => if arg(row).NoNum? then s else if s.NoNum? || arg(row).n < s.n then arg(row) else s
    case TMax(arg) => if arg(row).NoNum? then s else if s.NoNum? || arg(row).n > s.n then arg(row) else s
  }

  /** What a state stands for. */
  function StateOf(t: Tally, rows: seq<Row>): Num {
    match t
    case TCountStar => Num(|rows|)
    case TCount(arg) => Num(|Args(arg, rows)|)
    case TSum(arg) => if Args(arg, rows) == [] then NoNum else Num(Total(Args(arg, rows)))
    case TMin(arg) => if Args(arg, rows) == [] then NoNum else Num(Least(Args(arg, rows)))
    case TMax(arg) => if Args(arg, rows) == [] then NoNum else Num(Greatest(Args(arg, rows)))
  }

  lemma {:induction false} ArgsSnoc(arg: Row -> Num, rows: seq<Row>, row: Row)
    ensures Args(arg, rows + [row]) == Args(arg, rows) + if arg(row).Num? then [arg(row).n] else []
  {
    assert (rows + [row])[..|rows|] == rows;
  }

  lemma {:induction false} FoldsSnoc(s: seq<int>, x: int)
    ensures Total(s + [x]) == Total(s) + x
    ensures s == [] ==> Least(s + [x]) == x == Greatest(s + [x])
    ensures s != [] ==> Least(s + [x]) == if x < Least(s) then x else Least(s)
    ensures s != [] ==> Greatest(s + [x]) == if x > Greatest(s) then x else Greatest(s)
  {
    assert (s + [x])[..|s|] == s;
  }

  /** Adding a row to the state of a group gives the state of the larger group. */
  lemma {:induction false} AddCorrect(t: Tally, rows: seq<Row>, row: Row)
    ensures Add(t, StateOf(t, rows), row) == StateOf(t, rows + [row])
  {
    hide Args, Total, Least, Greatest;
    if !t.TCountStar? {
      var arg := t.arg;
      ArgsSnoc(arg, rows, row);
      if arg(row).Num? {
        FoldsSnoc(Args(arg, rows), arg(row).n);
        if t.TSum? && Args(arg, rows) == [] {
          EmptyTotal();
        }
      } else {
        assert Args(arg, rows) + [] == Args(arg, rows);
      }
    }
  }

  lemma {:induction false} EmptyTotal()
    ensures Total([]) == 0
  {
  }

  lemma {:induction false} InitialCorrect(t: Tally)
    ensures Initial(t) == StateOf(t, [])
  {
  }

  lemma {:induction false} MembersSnoc(key: Row -> Key, rows: seq<Row>, row: Row, k: Key)
    ensures Members(key, rows + [row], k) == Members(key, rows, k) + if key(row) == k then [row] else []
  {
    assert (rows + [row])[..|rows|] == rows;
  }

  lemma {:induction false} NoMembers(key: Row -> Key, rows: seq<Row>, k: Key)
    requires k !in KeysSeen(key, rows)
    ensures Members(key, rows, k) == []
  {
    if rows != [] {
      NoMembers(key, rows[..|rows| - 1], k);
    }
  }

  lemma {:induction false} KeysSeenSnoc(key: Row -> Key, rows: seq<Row>, row: Row)
    ensures KeysSeen(key, rows + [row])
         == KeysSeen(key, rows) + if key(row) in KeysSeen(key, rows) then [] else [key(row)]
  {
    assert (rows + [row])[..|rows|] == rows;
  }
}
