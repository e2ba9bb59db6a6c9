/** What each step does to a node, and why any node can come to lead the cluster, whatever has happened before. */
module ElectionProgress {
  import opened Bytes
  import opened Election
  import opened ElectionSafety

  // ---------------------------------------------------------------- one step, field by field

  /** Nothing but node `i` changes. */
  ghost predicate OnlyNode(s: System, s': System, i: Name) {
    s'.peers.Keys == s.peers.Keys && forall j :: j in s.peers && j != i ==> s'.peers[j] == s.peers[j]
  }

  /** The state file of a node, and the vote it remembers, stay. */
  ghost predicate SameVote(p: Peer, q: Peer) {
    q.votedFor == p.votedFor && q.savedTerm == p.savedTerm && q.savedVote == p.savedVote
  }

  lemma {:induction false} NextState(c: Config, steps: seq<Step>, step: Step)
    requires Run(c, steps) && Enabled(c, StateAfter(c, steps), step)
    ensures Run(c, steps + [step]) && StateAfter(c, steps + [step]) == Apply(c, StateAfter(c, steps), step)
  {
    var more := steps + [step];
    assert more[..|more| - 1] == steps;
  }

  /**
   * In an odd cluster without configured leaders a heartbeat of an earlier term changes nothing;
   * any other makes the node a follower of the sender in the term of the heartbeat. A later term
   * is saved without a vote; in the same term no vote is touched.
   */
  lemma {:induction false} HeartbeatObeyed(c: Config, steps: seq<Step>, m: Msg, lsn: nat)
    requires c.WellFormed() && c.configured == {} && |c.cluster| % 2 == 1
    requires Run(c, steps) && m.Heartbeat? && Enabled(c, StateAfter(c, steps), Deliver(m, lsn))
    ensures Run(c, steps + [Deliver(m, lsn)])
    ensures var s, s' := StateAfter(c, steps), StateAfter(c, steps + [Deliver(m, lsn)]);
            && s'.net == s.net && OnlyNode(s, s', m.to)
            && var p, q := s.peers[m.to], s'.peers[m.to];
               && (m.term < p.term ==> q == p)
               && (m.term >= p.term ==> q.term == m.term && q.role == Follower && q.leader == m.from && q.votes == p.votes)
               && (m.term > p.term ==> q.votedFor == [] && q.savedTerm == m.term && q.savedVote == [])
               && (m.term == p.term ==> SameVote(p, q))
  {
    NextState(c, steps, Deliver(m, lsn));
    RunInv(c, steps);
    var s := StateAfter(c, steps);
    if s.peers[m.to].role == Leader {
      NoRivalHeartbeat(c, s, m);
    }
  }

  /**
   * A vote request is answered once. It is granted exactly if the candidate's log is not behind
   * and its term is new to the node, or the node's own with no vote for another; a grant is saved.
   */
  lemma {:induction false} VoteReqAnswered(c: Config, s: System, m: Msg, lsn: nat)
    requires m.VoteReq? && Enabled(c, s, Deliver(m, lsn))
    ensures var s' := Apply(c, s, Deliver(m, lsn));
            && OnlyNode(s, s', m.to)
            && var p, q := s.peers[m.to], s'.peers[m.to];
               var later := m.term > p.term;
               var grant := m.lsn >= lsn && (later || (m.term == p.term && (p.votedFor == [] || p.votedFor == m.from)));
               && s'.net == s.net - {m} + {VoteResp(m.term, m.to, m.from, grant)}
               && q.term == (if later then m.term else p.term) && q.role == (if later then Follower else p.role)
               && q.leader == p.leader && q.votes == p.votes
               && if grant then q.votedFor == m.from && q.savedTerm == m.term && q.savedVote == m.from
                  else q.savedTerm == p.savedTerm && q.savedVote == p.savedVote
                       && q.votedFor == if later then [] else p.votedFor
  {
  }

  /**
   * An answer of a later term ends a candidacy or a leadership. A vote granted in its own term
   * counts for a candidate, who leads from half of the cluster on and then tells all others.
   * Any other answer changes nothing.
   */
  lemma {:induction false} VoteRespCounted(c: Config, s: System, m: Msg, lsn: nat)
    requires m.VoteResp? && Enabled(c, s, Deliver(m, lsn))
    ensures var s' := Apply(c, s, Deliver(m, lsn));
            && OnlyNode(s, s', m.to)
            && var p, q := s.peers[m.to], s'.peers[m.to];
               var counts := m.term == p.term && p.role == Candidate && m.granted;
               var leads := counts && 2 * (p.votes + 1) >= |c.cluster|;
               && (m.term > p.term ==> q == p.(term := m.term, votedFor := [], role := Follower, leader := []))
               && (leads ==> q == p.(role := Leader, leader := m.to, votes := 0))
               && (counts && !leads ==> q == p.(votes := p.votes + 1))
               && (m.term <= p.term && !counts ==> q == p)
               && (forall x :: x in s'.net <==>
                     (x in s.net && x != m) || (leads && x.Heartbeat? && x.term == m.term && x.from == m.to && x.to in c.cluster - {m.to}))
  {
  }

  lemma {:induction false} TimeoutPeer(c: Config, s: System, i: Name, lsn: nat)
    requires i in s.peers && s.peers[i].role != Leader
    ensures var s' := ApplyTimeout(c, s, i, lsn);
            && OnlyNode(s, s', i)
            && var p, q := s.peers[i], s'.peers[i];
               && q.term == p.term + 1 && q.votedFor == i && q.savedTerm == p.term + 1 && q.savedVote == i
               && (if |c.cluster| <= 2 then q.role == Leader && q.leader == i && q.votes == 0
                   else q.role == Candidate && q.leader == p.leader && q.votes == 1)
  {
    hide VoteReqs, Heartbeats;
  }

  lemma {:induction false} TimeoutNet(c: Config, s: System, i: Name, lsn: nat, x: Msg)
    requires i in s.peers && s.peers[i].role != Leader
    ensures var s' := ApplyTimeout(c, s, i, lsn);
            (x in s'.net <==>
             || x in s.net
             || (&& x.from == i && x.to in c.cluster - {i} && x.term == s'.peers[i].term
                 && ((x.VoteReq? && x.lsn == lsn) || (x.Heartbeat? && s'.peers[i].role == Leader))))
  {
  }

  /**
   * A node that does not lead stands in the next term: it votes for itself, saves that, and asks
   * every other node. Where one vote is half of the cluster it leads at once.
   */
  lemma {:induction false} TimeoutStands(c: Config, s: System, i: Name, lsn: nat)
    requires Enabled(c, s, Timeout(i, lsn)) && s.peers[i].role != Leader
    ensures var s' := Apply(c, s, Timeout(i, lsn));
            && OnlyNode(s, s', i)
            && var p, q := s.peers[i], s'.peers[i];
               && q.term == p.term + 1 && q.votedFor == i && q.savedTerm == p.term + 1 && q.savedVote == i
               && (if |c.cluster| <= 2 then q.role == Leader && q.leader == i && q.votes == 0
                   else q.role == Candidate && q.leader == p.leader && q.votes == 1)
               && (forall x :: x in s'.net <==>
                     || x in s.net
                     || (&& x.from == i && x.to in c.cluster - {i} && x.term == q.term
                         && ((x.VoteReq? && x.lsn == lsn) || (x.Heartbeat? && q.role == Leader))))
  {
    assert Apply(c, s, Timeout(i, lsn)) == ApplyTimeout(c, s, i, lsn);
    TimeoutPeer(c, s, i, lsn);
    hide *;
    forall x: Msg {
      TimeoutNet(c, s, i, lsn, x);
    }
  }

  /** A restarted node has the term and vote of its state file, and follows nobody. */
  lemma {:induction false} RestartReads(c: Config, s: System, i: Name)
    requires Enabled(c, s, Restart(i)) && i !in c.configured
    ensures var s' := Apply(c, s, Restart(i));
            && OnlyNode(s, s', i) && s'.net == s.net
            && var p, q := s.peers[i], s'.peers[i];
               && q.term == q.savedTerm == p.savedTerm && q.votedFor == q.savedVote == p.savedVote
               && q.role == Follower && q.leader == [] && q.votes == 0
  {
  }

  /** A leader's timeout sends its heartbeats and changes no node. */
  lemma {:induction false} LeaderBeats(c: Config, s: System, i: Name, lsn: nat)
    requires Enabled(c, s, Timeout(i, lsn)) && s.peers[i].role == Leader
    ensures var s' := Apply(c, s, Timeout(i, lsn));
            && s'.peers == s.peers
            && (forall x :: x in s'.net <==>
                  x in s.net || (x.Heartbeat? && x.from == i && x.term == s.peers[i].term && x.to in c.cluster - {i}))
  {
    assert s.peers[i := s.peers[i]] == s.peers;
  }

  // ---------------------------------------------------------------- going on from a state

  /** The steps lead from one state to the other. */
  ghost predicate Path(c: Config, s: System, steps: seq<Step>, s': System)
    decreases |steps|
  {
    if steps == [] then s == s' else Enabled(c, s, steps[0]) && Path(c, Apply(c, s, steps[0]), steps[1..], s')
  }

  ghost predicate Reaches(c: Config, s: System, s': System) {
    exists steps :: Path(c, s, steps, s')
  }

  lemma {:induction false} ReachesStep(c: Config, s: System, step: Step)
    requires Enabled(c, s, step)
    ensures Reaches(c, s, Apply(c, s, step))
  {
    hide Apply, Enabled;
    assert Path(c, Apply(c, s, step), [step][1..], Apply(c, s, step));
    assert Path(c, s, [step], Apply(c, s, step));
  }

  lemma {:induction false} ReachesSelf(c: Config, s: System)
    ensures Reaches(c, s, s)
  {
    assert Path(c, s, [], s);
  }

  lemma {:induction false} PathTwice(c: Config, s: System, a: seq<Step>, s1: System, b: seq<Step>, s2: System)
    requires Path(c, s, a, s1) && Path(c, s1, b, s2)
    ensures Path(c, s, a + b, s2)
    decreases |a|
  {
    hide Apply, Enabled;
    if a == [] {
      assert a + b == b;
    } else {
      PathTwice(c, Apply(c, s, a[0]), a[1..], s1, b, s2);
      assert (a + b)[1..] == a[1..] + b;
    }
  }

  lemma {:induction false} ReachesTwice(c: Config, s: System, s1: System, s2: System)
    requires Reaches(c, s, s1) && Reaches(c, s1, s2)
    ensures Reaches(c, s, s2)
  {
    var a :| Path(c, s, a, s1);
    var b :| Path(c, s1, b, s2);
    PathTwice(c, s, a, s1, b, s2);
  }

  /** A path from the end of a run makes a longer run. */
  lemma {:induction false} PathRuns(c: Config, steps: seq<Step>, more: seq<Step>, s': System)
    requires Run(c, steps) && Path(c, StateAfter(c, steps), more, s')
    ensures Run(c, steps + more) && StateAfter(c, steps + more) == s'
    decreases |more|
  {
    hide Apply, Enabled, Run, StateAfter;
    if more == [] {
      assert steps + more == steps;
    } else {
      NextState(c, steps, more[0]);
      PathRuns(c, steps + [more[0]], more[1..], s');
      assert steps + [more[0]] + more[1..] == steps + more;
    }
  }

  // ---------------------------------------------------------------- a run that makes a leader

  /** Node `i` has just stood in term `t`, or has already won it, and has asked every other node. */
  ghost predicate Stood(c: Config, s: System, i: Name, t: nat) {
    && s.peers.Keys == c.cluster && i in c.cluster
    && s.peers[i].term == t == s.peers[i].savedTerm
    && (forall j :: j in c.cluster && j != i ==> VoteReq(t, i, j, 0) in s.net)
    && if |c.cluster| <= 2 then s.peers[i].role == Leader && Announced(c, s, i, t)
       else s.peers[i].role == Candidate && s.peers[i].votes == 1
  }

  ghost predicate Announced(c: Config, s: System, i: Name, t: nat) {
    forall j :: j in c.cluster && j != i ==> Heartbeat(t, i, j) in s.net
  }

  lemma {:induction false} StandAgain(c: Config, s: System, i: Name) returns (s': System)
    requires s.peers.Keys == c.cluster && i in c.cluster - c.configured
    ensures Reaches(c, s, s') && Stood(c, s', i, s.peers[i].savedTerm + 1) && OnlyNode(s, s', i)
  {
    RestartReads(c, s, i);
    ReachesStep(c, s, Restart(i));
    var s1 := Apply(c, s, Restart(i));
    TimeoutStands(c, s1, i, 0);
    ReachesStep(c, s1, Timeout(i, 0));
    s' := Apply(c, s1, Timeout(i, 0));
    ReachesTwice(c, s, s1, s');
    hide Apply, Reaches;
  }

  /** By restarting and standing again and again a node reaches any later term. */
  lemma {:induction false} StandAt(c: Config, s: System, i: Name, t: nat) returns (s': System)
    requires s.peers.Keys == c.cluster && i in c.cluster - c.configured && s.peers[i].savedTerm < t
    ensures Reaches(c, s, s') && Stood(c, s', i, t) && OnlyNode(s, s', i)
    decreases t - s.peers[i].savedTerm
  {
    hide Reaches;
    s' := StandAgain(c, s, i);
    if s'.peers[i].savedTerm < t {
      var s1 := s';
      s' := StandAt(c, s1, i, t);
      ReachesTwice(c, s, s1, s');
    }
  }

  /** `i` stands in term `t`; the nodes of `open` are behind and have been asked, the others are not ahead. */
  ghost predicate Campaigning(c: Config, s: System, i: Name, t: nat, open: set<Name>) {
    && s.peers.Keys == c.cluster && i in c.cluster && i !in open && open <= c.cluster
    && s.peers[i].term == t && s.peers[i].role == Candidate
    && (forall j :: j in c.cluster ==> s.peers[j].term <= t)
    && (forall j :: j in open ==> s.peers[j].term < t && VoteReq(t, i, j, 0) in s.net)
  }

  /** `i` leads in term `t`, has told every other node, and no node is ahead. */
  ghost predicate Leading(c: Config, s: System, i: Name, t: nat) {
    && s.peers.Keys == c.cluster && i in c.cluster
    && s.peers[i].term == t && s.peers[i].role == Leader && Announced(c, s, i, t)
    && forall j :: j in c.cluster ==> s.peers[j].term <= t
  }

  /** A node that is behind and has been asked grants its vote. */
  lemma {:induction false} Ask(c: Config, s: System, i: Name, t: nat, open: set<Name>, v: Name) returns (s': System)
    requires Campaigning(c, s, i, t, open) && v in open
    ensures Reaches(c, s, s') && Campaigning(c, s', i, t, open - {v})
    ensures s'.peers[i] == s.peers[i] && VoteResp(t, v, i, true) in s'.net
  {
    var m := VoteReq(t, i, v, 0);
    VoteReqAnswered(c, s, m, 0);
    ReachesStep(c, s, Deliver(m, 0));
    s' := Apply(c, s, Deliver(m, 0));
    hide Apply, Reaches;
    forall j | j in c.cluster
      ensures s'.peers[j].term <= t && (j in open - {v} ==> s'.peers[j].term < t && VoteReq(t, i, j, 0) in s'.net)
    {
      if j != v {
        assert s'.peers[j] == s.peers[j];
      }
    }
  }

  lemma {:induction false} CountVote(c: Config, s: System, i: Name, t: nat, open: set<Name>, v: Name) returns (s': System)
    requires Campaigning(c, s, i, t, open) && VoteResp(t, v, i, true) in s.net
    ensures Reaches(c, s, s')
    ensures if 2 * (s.peers[i].votes + 1) >= |c.cluster| then Leading(c, s', i, t)
            else Campaigning(c, s', i, t, open) && s'.peers[i].votes == s.peers[i].votes + 1
  {
    var m := VoteResp(t, v, i, true);
    VoteRespCounted(c, s, m, 0);
    ReachesStep(c, s, Deliver(m, 0));
    s' := Apply(c, s, Deliver(m, 0));
    hide Apply, Reaches;
    forall j | j in c.cluster
      ensures s'.peers[j].term <= t && (j in open ==> s'.peers[j].term < t && VoteReq(t, i, j, 0) in s'.net)
    {
      if j != i {
        assert s'.peers[j] == s.peers[j];
      }
    }
  }

  lemma {:induction false} WinAll(c: Config, s: System, i: Name, t: nat, open: set<Name>) returns (s': System)
    requires Campaigning(c, s, i, t, open) && 2 * s.peers[i].votes < |c.cluster| <= 2 * (s.peers[i].votes + |open|)
    ensures Reaches(c, s, s') && Leading(c, s', i, t)
    decreases |open|
  {
    var v :| v in open;
    var rest := open - {v};
    assert |rest| == |open| - 1;
    var s1 := Ask(c, s, i, t, open, v);
    s' := CountVote(c, s1, i, t, rest, v);
    hide Reaches, Leading;
    ReachesTwice(c, s, s1, s');
    if 2 * (s.peers[i].votes + 1) < |c.cluster| {
      var s2 := s';
      s' := WinAll(c, s2, i, t, rest);
      ReachesTwice(c, s, s2, s');
    }
  }

  /** `i` leads in term `t`, and the nodes outside `open` follow it. */
  ghost predicate Followed(c: Config, s: System, i: Name, t: nat, open: set<Name>) {
    && Leading(c, s, i, t)
    && forall j :: j in c.cluster && j != i && j !in open ==> s.peers[j].role == Follower && s.peers[j].leader == i && s.peers[j].term == t
  }

  /** A heartbeat of a term in which nobody is ahead makes its receiver follow. */
  lemma {:induction false} FollowOne(c: Config, s: System, i: Name, t: nat, open: set<Name>, v: Name) returns (s': System)
    requires Followed(c, s, i, t, open) && v in c.cluster - {i}
    ensures Reaches(c, s, s') && Followed(c, s', i, t, open - {v})
  {
    var step := Deliver(Heartbeat(t, i, v), 0);
    ReachesStep(c, s, step);
    s' := Apply(c, s, step);
    assert s'.peers[v].term == t && s'.peers[v].role == Follower && s'.peers[v].leader == i;
    assert s'.net == s.net && OnlyNode(s, s', v);
    hide Apply, AfterHeartbeat, Reaches;
  }

  lemma {:induction false} FollowAll(c: Config, s: System, i: Name, t: nat, open: set<Name>) returns (s': System)
    requires Followed(c, s, i, t, open) && open <= c.cluster - {i}
    ensures Reaches(c, s, s') && Followed(c, s', i, t, {})
    decreases |open|
  {
    if open == {} {
      ReachesSelf(c, s);
      s' := s;
    } else {
      var v :| v in open;
      var s1 := FollowOne(c, s, i, t, open, v);
      hide Reaches, Followed;
      assert |open - {v}| == |open| - 1;
      s' := FollowAll(c, s1, i, t, open - {v});
      ReachesTwice(c, s, s1, s');
    }
  }

  /** A term beyond that of every node of a set, and beyond what `i` has saved. */
  lemma {:induction false} TermBeyond(s: System, nodes: set<Name>, i: Name) returns (t: nat)
    requires nodes <= s.peers.Keys && i in s.peers
    ensures s.peers[i].savedTerm < t && forall j :: j in nodes ==> s.peers[j].term < t
    decreases |nodes|
  {
    if nodes == {} {
      t := s.peers[i].savedTerm + 1;
    } else {
      var j :| j in nodes;
      t := TermBeyond(s, nodes - {j}, i);
      if t <= s.peers[j].term {
        t := s.peers[j].term + 1;
      }
    }
  }

  /** A leader whom every other node follows, in a term beyond all of before. */
  ghost predicate Reigns(c: Config, before: System, s: System, i: Name) {
    && before.peers.Keys == s.peers.Keys == c.cluster && i in c.cluster && s.peers[i].role == Leader
    && (forall j :: j in c.cluster ==> before.peers[j].term < s.peers[i].term)
    && (forall j :: j in c.cluster && j != i ==>
          s.peers[j].role == Follower && s.peers[j].leader == i && s.peers[j].term == s.peers[i].term)
  }

  lemma {:induction false} StoodBeyond(c: Config, s: System, s': System, i: Name, t: nat)
    requires s.peers.Keys == c.cluster && Stood(c, s', i, t) && OnlyNode(s, s', i)
    requires forall j :: j in c.cluster ==> s.peers[j].term < t
    ensures if |c.cluster| <= 2 then Leading(c, s', i, t)
            else Campaigning(c, s', i, t, c.cluster - {i}) && s'.peers[i].votes == 1
  {
  }

  lemma {:induction false} Elect(c: Config, s: System, i: Name, t: nat) returns (s': System)
    requires s.peers.Keys == c.cluster && i in c.cluster - c.configured && s.peers[i].savedTerm < t
    requires forall j :: j in c.cluster ==> s.peers[j].term < t
    ensures Reaches(c, s, s') && Leading(c, s', i, t)
  {
    var s1 := StandAt(c, s, i, t);
    StoodBeyond(c, s, s1, i, t);
    hide Reaches, Leading, Campaigning, OnlyNode;
    s' := s1;
    if |c.cluster| > 2 {
      var others := c.cluster - {i};
      assert |others| == |c.cluster| - 1;
      s' := WinAll(c, s1, i, t, others);
      ReachesTwice(c, s, s1, s');
    }
  }

  lemma {:induction false} Members(c: Config, steps: seq<Step>)
    requires c.WellFormed() && Run(c, steps)
    ensures StateAfter(c, steps).peers.Keys == c.cluster
    decreases |steps|
  {
    if steps != [] {
      Members(c, steps[..|steps| - 1]);
      hide AfterHeartbeat, AfterVoteReq, AfterVoteResp, AfterTimeout, AfterStart, Grants;
    }
  }

  /**
   * Whatever has happened, the cluster can go on so that a given node, unless it is configured
   * as leader, leads it in a term beyond all before, and every other node follows it there.
   */
  lemma {:induction false} CanLead(c: Config, steps: seq<Step>, i: Name) returns (more: seq<Step>)
    requires c.WellFormed() && Run(c, steps) && i in c.cluster - c.configured
    ensures Run(c, steps + more) && Reigns(c, StateAfter(c, steps), StateAfter(c, steps + more), i)
  {
    Members(c, steps);
    var s := StateAfter(c, steps);
    var t := TermBeyond(s, c.cluster, i);
    var s1 := Elect(c, s, i, t);
    var s2 := FollowAll(c, s1, i, t, c.cluster - {i});
    ReachesTwice(c, s, s1, s2);
    more :| Path(c, s, more, s2);
    PathRuns(c, steps, more, s2);
    hide Path, Run, StateAfter;
  }
}
