/** Exactly which clusters are safe: those of one node, and the odd ones in which no node is configured as leader. */
module ElectionLimits {
  import opened Bytes
  import opened Election
  import opened ElectionSafety

  ghost predicate Safe(c: Config) {
    forall steps :: Run(c, steps) ==> OneLeaderPerTerm(StateAfter(c, steps))
  }

  ghost predicate Reach(c: Config, s: System) {
    exists steps :: Run(c, steps) && StateAfter(c, steps) == s
  }

  lemma ReachBoot(c: Config)
    ensures Reach(c, Boot(c))
  {
    assert Run(c, []) && StateAfter(c, []) == Boot(c);
  }

  lemma ReachNext(c: Config, s: System, step: Step)
    requires Reach(c, s) && Enabled(c, s, step)
    ensures Reach(c, Apply(c, s, step))
  {
    var steps :| Run(c, steps) && StateAfter(c, steps) == s;
    var more := steps + [step];
    assert more[..|more| - 1] == steps;
    assert Run(c, more) && StateAfter(c, more) == Apply(c, s, step);
  }

  // ---------------------------------------------------------------- a campaign that succeeds

  /** `a` stands in term 1 and has asked the untouched nodes `open` for their votes. */
  ghost predicate Standing(c: Config, s: System, a: Name, open: set<Name>) {
    && s.peers.Keys == c.cluster && a in c.cluster && a !in open && open <= c.cluster
    && s.peers[a].role == Candidate && s.peers[a].term == 1 && s.peers[a].votes < Quorum(|c.cluster|)
    && forall v :: v in open ==> s.peers[v] == Blank && VoteReq(1, a, v, 0) in s.net
  }

  /** What a campaign of `a` leaves alone. */
  ghost predicate Undisturbed(c: Config, s: System, s': System, a: Name, open: set<Name>) {
    && s'.peers.Keys == s.peers.Keys
    && s.won <= s'.won
    && (forall j :: j in s.peers && j !in open && j != a ==> s'.peers[j] == s.peers[j])
    && (forall m :: m in s.net && m.VoteReq? && m.from != a ==> m in s'.net)
  }

  /** One untouched node grants its vote. */
  lemma Ask(c: Config, s: System, a: Name, open: set<Name>, v: Name) returns (s': System)
    requires c.WellFormed() && Reach(c, s) && Standing(c, s, a, open) && v in open
    ensures Reach(c, s') && Undisturbed(c, s, s', a, {v})
    ensures Standing(c, s', a, open - {v}) && s'.peers[a] == s.peers[a] && VoteResp(1, v, a, true) in s'.net
  {
    var step := Deliver(VoteReq(1, a, v, 0), 0);
    assert Grants(s.peers[v], 1, a, 0, 0);
    s' := Apply(c, s, step);
    ReachNext(c, s, step);
  }

  /** The candidate counts a vote. */
  lemma Count(c: Config, s: System, a: Name, open: set<Name>, v: Name) returns (s': System)
    requires c.WellFormed() && Reach(c, s) && Standing(c, s, a, open) && VoteResp(1, v, a, true) in s.net
    ensures Reach(c, s') && Undisturbed(c, s, s', a, {})
    ensures if s.peers[a].votes + 1 >= Quorum(|c.cluster|) then Win(1, a) in s'.won
            else Standing(c, s', a, open) && s'.peers[a].votes == s.peers[a].votes + 1
  {
    var step := Deliver(VoteResp(1, v, a, true), 0);
    s' := Apply(c, s, step);
    ReachNext(c, s, step);
  }

  lemma {:induction false} Campaign(c: Config, s: System, a: Name, open: set<Name>) returns (s': System)
    requires c.WellFormed() && Reach(c, s) && Standing(c, s, a, open)
    requires s.peers[a].votes + |open| >= Quorum(|c.cluster|)
    ensures Reach(c, s') && Win(1, a) in s'.won && Undisturbed(c, s, s', a, open)
    decreases |open|
  {
    var v :| v in open;
    var s1 := Ask(c, s, a, open, v);
    s1 := Count(c, s1, a, open - {v}, v);
    if s.peers[a].votes + 1 >= Quorum(|c.cluster|) {
      s' := s1;
    } else {
      s' := Campaign(c, s1, a, open - {v});
    }
  }

  /** An untouched node times out in term 0. */
  lemma Stand(c: Config, s: System, a: Name) returns (s': System)
    requires c.WellFormed() && Reach(c, s) && s.peers.Keys == c.cluster && a in c.cluster && s.peers[a] == Blank
    ensures Reach(c, s') && Undisturbed(c, s, s', a, {})
    ensures s'.net >= s.net + VoteReqs(c, a, 1, 0)
    ensures if Quorum(|c.cluster|) <= 1 then Win(1, a) in s'.won
            else s'.peers[a].role == Candidate && s'.peers[a].term == 1 && s'.peers[a].votes == 1
  {
    s' := Apply(c, s, Timeout(a, 0));
    ReachNext(c, s, Timeout(a, 0));
  }

  // ---------------------------------------------------------------- the clusters that are not safe

  lemma SubsetOfSize(all: set<Name>, k: nat) returns (part: set<Name>)
    requires k <= |all|
    ensures part <= all && |part| == k
  {
    if k == 0 {
      part := {};
    } else {
      var x :| x in all;
      part := SubsetOfSize(all - {x}, k - 1);
      part := part + {x};
    }
  }

  lemma TwoMembers(all: set<Name>) returns (a: Name, b: Name)
    requires |all| >= 2
    ensures a in all && b in all && a != b
  {
    a :| a in all;
    assert |all - {a}| == |all| - 1;
    b :| b in all - {a};
  }

  lemma Halves(all: set<Name>) returns (a: Name, b: Name, left: set<Name>, right: set<Name>)
    requires |all| >= 2 && |all| % 2 == 0
    ensures a in all && b in all && a != b && left + right <= all - {a, b} && left !! right
    ensures |left| == |right| == |all| / 2 - 1
  {
    a, b := TwoMembers(all);
    var rest := all - {a, b};
    assert |rest| == |all| - 2 by { assert |{a, b}| == 2; }
    left := SubsetOfSize(rest, |all| / 2 - 1);
    right := rest - left;
    assert |right| == |rest| - |left|;
  }

  lemma Contest(c: Config, a: Name, b: Name, left: set<Name>, right: set<Name>) returns (s: System)
    requires c.WellFormed() && c.configured == {}
    requires a in c.cluster && b in c.cluster && a != b && left + right <= c.cluster - {a, b} && left !! right
    requires 1 + |left| >= Quorum(|c.cluster|) && 1 + |right| >= Quorum(|c.cluster|)
    ensures Reach(c, s) && Win(1, a) in s.won && Win(1, b) in s.won
  {
    ReachBoot(c);
    var s1 := Stand(c, Boot(c), a);
    var s2 := Stand(c, s1, b);
    if Quorum(|c.cluster|) <= 1 {
      s := s2;
    } else {
      Invited(c, s1, s2, a, b, left, right);
      assert s2.peers[a].votes == 1 && s2.peers[b].votes == 1;
      var s3 := Campaign(c, s2, a, left);
      StillStanding(c, s2, s3, a, left, b, right);
      s := Campaign(c, s3, b, right);
    }
  }

  /** In an even cluster the quorum is only half the nodes, so two disjoint halves can each elect a leader. */
  lemma EvenUnsafe(c: Config) returns (s: System)
    requires c.WellFormed() && c.configured == {} && |c.cluster| % 2 == 0
    ensures Reach(c, s) && !OneLeaderPerTerm(s)
  {
    var a, b, left, right := Halves(c.cluster);
    s := Contest(c, a, b, left, right);
    assert Win(1, a) in s.won && Win(1, b) in s.won;
  }

  lemma Invited(c: Config, s1: System, s2: System, a: Name, b: Name, left: set<Name>, right: set<Name>)
    requires c.WellFormed() && c.configured == {} && Quorum(|c.cluster|) > 1
    requires a in c.cluster && b in c.cluster && a != b && left + right <= c.cluster - {a, b}
    requires Undisturbed(c, Boot(c), s1, a, {}) && Undisturbed(c, s1, s2, b, {})
    requires s1.net >= VoteReqs(c, a, 1, 0) && s2.net >= s1.net + VoteReqs(c, b, 1, 0)
    requires s1.peers[a].role == Candidate && s1.peers[a].term == 1 && s1.peers[a].votes == 1
    requires s2.peers[b].role == Candidate && s2.peers[b].term == 1 && s2.peers[b].votes == 1
    ensures Standing(c, s2, a, left) && Standing(c, s2, b, right)
  {
    forall v | v in left + right
      ensures s2.peers[v] == Blank && VoteReq(1, a, v, 0) in s2.net && VoteReq(1, b, v, 0) in s2.net
    {
      assert VoteReq(1, a, v, 0) in VoteReqs(c, a, 1, 0);
      assert VoteReq(1, b, v, 0) in VoteReqs(c, b, 1, 0);
    }
  }

  lemma StillStanding(c: Config, s: System, s': System, a: Name, left: set<Name>, b: Name, right: set<Name>)
    requires Standing(c, s, b, right) && Undisturbed(c, s, s', a, left)
    requires a != b && a !in right && b !in left && left !! right
    ensures Standing(c, s', b, right) && s'.peers[b] == s.peers[b]
  {
  }

  /** A leader by configuration holds term 1, in which the other nodes can still elect one of themselves. */
  lemma ConfiguredUnsafe(c: Config) returns (s: System)
    requires c.WellFormed() && c.configured != {} && |c.cluster| >= 2
    ensures Reach(c, s) && !OneLeaderPerTerm(s)
  {
    ReachBoot(c);
    var d :| d in c.configured;
    assert Win(1, d) in Boot(c).won;
    if exists e :: e in c.configured && e != d {
      var e :| e in c.configured && e != d;
      assert Win(1, e) in Boot(c).won;
      s := Boot(c);
    } else {
      assert c.configured == {d};
      var others := c.cluster - {d};
      assert |others| == |c.cluster| - 1;
      var b :| b in others;
      var open := others - {b};
      s := Stand(c, Boot(c), b);
      if Quorum(|c.cluster|) > 1 {
        assert Standing(c, s, b, open);
        s := Campaign(c, s, b, open);
      }
      assert Win(1, d) in s.won && Win(1, b) in s.won;
    }
  }

  lemma {:induction false} WinnersAreMembers(c: Config, steps: seq<Step>)
    requires c.WellFormed() && Run(c, steps)
    ensures forall w :: w in StateAfter(c, steps).won ==> w.node in c.cluster
    decreases |steps|
  {
    if steps != [] {
      WinnersAreMembers(c, steps[..|steps| - 1]);
    }
  }

  /** No two nodes ever lead in the same term if and only if there is one node, or the number of nodes is odd and
      none of them is configured as leader. */
  lemma SafeIff(c: Config)
    requires c.WellFormed()
    ensures Safe(c) <==> |c.cluster| == 1 || (|c.cluster| % 2 == 1 && c.configured == {})
  {
    if |c.cluster| == 1 {
      forall steps | Run(c, steps)
        ensures OneLeaderPerTerm(StateAfter(c, steps))
      {
        WinnersAreMembers(c, steps);
        var x :| x in c.cluster;
        assert |c.cluster - {x}| == 0;
        assert c.cluster == {x};
      }
    } else if c.configured != {} {
      var s := ConfiguredUnsafe(c);
    } else if |c.cluster| % 2 == 0 {
      var s := EvenUnsafe(c);
    } else {
      forall steps | Run(c, steps)
        ensures OneLeaderPerTerm(StateAfter(c, steps))
      {
        Safety(c, steps);
      }
    }
  }
}
