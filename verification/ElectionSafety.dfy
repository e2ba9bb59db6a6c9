/** The cluster: managers exchanging messages, in any interleaving of timeouts, deliveries, losses and restarts. */
module ElectionSafety {
  import opened Bytes
  import opened Election

  /** The members of the cluster and those among them configured to start as leader. */
  datatype Config = Config(cluster: set<Name>, configured: set<Name>) {
    ghost predicate WellFormed() {
      cluster != {} && [] !in cluster && configured <= cluster
    }
  }

  /** History: a vote of `voter` for `candidate`, with the position the candidate advertised and the voter's own. */
  datatype Grant = Grant(voter: Name, term: nat, candidate: Name, advertised: nat, own: nat)
  /** History: a vote that the candidate has counted. */
  datatype Ballot = Ballot(voter: Name, term: nat, candidate: Name)
  /** History: a node held office in a term. */
  datatype Win = Win(term: nat, node: Name)

  datatype System = System(
    peers: map<Name, Peer>, net: set<Msg>,
    grants: set<Grant>, counted: set<Ballot>, won: set<Win>)

  /** Vote messages are consumed by their delivery; a heartbeat may be delivered any number of times; any message
      may be lost by never being delivered. `lsn` is the log position the acting node reads during the step. */
  datatype Step = Timeout(node: Name, lsn: nat) | Deliver(msg: Msg, lsn: nat) | Restart(node: Name)

  const Blank := Peer(0, [], Follower, [], 0, 0, [])

  ghost function Holds(i: Name, p: Peer): set<Win> {
    if p.role == Leader then {Win(p.term, i)} else {}
  }

  ghost function Heartbeats(c: Config, i: Name, p: Peer): set<Msg> {
    if p.role == Leader then set j | j in c.cluster && j != i :: Heartbeat(p.term, i, j) else {}
  }

  ghost function VoteReqs(c: Config, i: Name, term: nat, lsn: nat): set<Msg> {
    set j | j in c.cluster && j != i :: VoteReq(term, i, j, lsn)
  }

  ghost function Boot(c: Config): System {
    System(map i | i in c.cluster :: AfterStart(Blank, i, i in c.configured), {}, {}, {},
           set i | i in c.configured :: Win(1, i))
  }

  ghost predicate Enabled(c: Config, s: System, step: Step) {
    && s.peers.Keys == c.cluster
    && match step
       case Timeout(i, _) => i in c.cluster
       case Deliver(m, _) => m in s.net && m.to in c.cluster
       case Restart(i) => i in c.cluster
  }

  ghost function Update(c: Config, s: System, i: Name, p: Peer): System {
    s.(peers := s.peers[i := p], won := s.won + Holds(i, p))
  }

  ghost function ApplyTimeout(c: Config, s: System, i: Name, lsn: nat): System
    requires i in s.peers
  {
    var p := s.peers[i];
    var q := AfterTimeout(p, i, |c.cluster|);
    var s' := Update(c, s, i, q);
    if p.role == Leader then s'.(net := s.net + Heartbeats(c, i, q))
    else
      s'.(net := s.net + VoteReqs(c, i, q.term, lsn) + Heartbeats(c, i, q),
          grants := s.grants + {Grant(i, q.term, i, lsn, lsn)},
          counted := s.counted + {Ballot(i, q.term, i)})
  }

  ghost function ApplyVoteReq(c: Config, s: System, m: Msg, lsn: nat): System
    requires m.VoteReq? && m.to in s.peers
  {
    var p := s.peers[m.to];
    var g := Grants(p, m.term, m.from, m.lsn, lsn);
    Update(c, s, m.to, AfterVoteReq(p, m.term, m.from, m.lsn, lsn)).(
      net := s.net - {m} + {VoteResp(m.term, m.to, m.from, g)},
      grants := s.grants + if g then {Grant(m.to, m.term, m.from, m.lsn, lsn)} else {})
  }

  /** Whether the response is one more vote for the node that receives it. */
  ghost predicate Counts(p: Peer, m: Msg)
    requires m.VoteResp?
  {
    m.granted && p.role == Candidate && m.term == p.term
  }

  ghost function ApplyVoteResp(c: Config, s: System, m: Msg): System
    requires m.VoteResp? && m.to in s.peers
  {
    var p := s.peers[m.to];
    var q := AfterVoteResp(p, m.to, |c.cluster|, m.term, m.granted);
    Update(c, s, m.to, q).(
      net := s.net - {m} + (if p.role != Leader then Heartbeats(c, m.to, q) else {}),
      counted := s.counted + if Counts(p, m) then {Ballot(m.from, m.term, m.to)} else {})
  }

  ghost function Apply(c: Config, s: System, step: Step): System
    requires Enabled(c, s, step)
  {
    match step
    case Timeout(i, lsn) => ApplyTimeout(c, s, i, lsn)
    case Deliver(m, lsn) =>
      (match m
       case Heartbeat(t, from, to) => Update(c, s, to, AfterHeartbeat(s.peers[to], to, t, from))
       case VoteReq(_, _, _, _) => ApplyVoteReq(c, s, m, lsn)
       case VoteResp(_, _, _, _) => ApplyVoteResp(c, s, m))
    case Restart(i) => Update(c, s, i, AfterStart(s.peers[i], i, i in c.configured))
  }

  /** A run of the cluster: each step is enabled in the state that the steps before it lead to. */
  ghost predicate Run(c: Config, steps: seq<Step>)
    decreases |steps|, 0
  {
    steps == [] ||
    (Run(c, steps[..|steps| - 1]) && Enabled(c, StateAfter(c, steps[..|steps| - 1]), steps[|steps| - 1]))
  }

  ghost function StateAfter(c: Config, steps: seq<Step>): System
    requires Run(c, steps)
    decreases |steps|, 1
  {
    if steps == [] then Boot(c)
    else Apply(c, StateAfter(c, steps[..|steps| - 1]), steps[|steps| - 1])
  }

  // ---------------------------------------------------------------- what every step keeps

  /** The saved term never runs ahead; until the term is saved the node has neither voted nor stood in it. */
  ghost predicate PeerOk(p: Peer) {
    && p.savedTerm <= p.term
    && (p.savedTerm == p.term ==> p.votedFor == p.savedVote)
    && (p.savedTerm < p.term ==> p.votedFor == [] && p.role == Follower)
  }

  ghost predicate PeersOk(c: Config, s: System) {
    && s.peers.Keys == c.cluster
    && forall i :: i in c.cluster ==> PeerOk(s.peers[i])
  }

  /** Every vote cast is covered by the state file: by the saved vote, or by a later saved term. */
  ghost predicate Remembered(c: Config, s: System, g: Grant)
    requires s.peers.Keys == c.cluster
  {
    && g.voter in c.cluster && g.candidate in c.cluster
    && s.peers[g.voter].savedTerm >= g.term && s.peers[g.candidate].savedTerm >= g.term
    && (s.peers[g.voter].savedTerm == g.term ==> s.peers[g.voter].savedVote == g.candidate)
    && g.own <= g.advertised
    && Grant(g.candidate, g.term, g.candidate, g.advertised, g.advertised) in s.grants
  }

  ghost predicate GrantsOk(c: Config, s: System)
    requires s.peers.Keys == c.cluster
  {
    && (forall g :: g in s.grants ==> Remembered(c, s, g))
    && OneVotePerTerm(s)
  }

  ghost predicate OneVotePerTerm(s: System) {
    forall g, h :: g in s.grants && h in s.grants && g.voter == h.voter && g.term == h.term ==> g == h
  }

  ghost predicate Voted(s: System, voter: Name, term: nat, candidate: Name) {
    exists adv, own :: Grant(voter, term, candidate, adv, own) in s.grants
  }

  /** A vote travels once: as a request, then as a response, then as a counted ballot. */
  ghost predicate MsgOk(c: Config, s: System, m: Msg)
    requires s.peers.Keys == c.cluster
  {
    && m.from in c.cluster && m.to in c.cluster && m.from != m.to
    && match m
       case Heartbeat(t, from, _) => Win(t, from) in s.won
       case VoteReq(t, from, to, lsn) =>
         && t <= s.peers[from].savedTerm
         && Grant(from, t, from, lsn, lsn) in s.grants
         && !Voted(s, to, t, from)
         && VoteResp(t, to, from, true) !in s.net
         && Ballot(to, t, from) !in s.counted
       case VoteResp(t, from, to, granted) =>
         && t <= s.peers[to].savedTerm
         && (granted ==> Voted(s, from, t, to) && Ballot(from, t, to) !in s.counted)
  }

  ghost predicate NetOk(c: Config, s: System)
    requires s.peers.Keys == c.cluster
  {
    forall m :: m in s.net ==> MsgOk(c, s, m)
  }

  ghost function Electors(c: Config, s: System, term: nat, candidate: Name): set<Name> {
    set v | v in c.cluster && Ballot(v, term, candidate) in s.counted
  }

  ghost predicate BallotsBacked(c: Config, s: System) {
    forall b :: b in s.counted ==> b.voter in c.cluster && Voted(s, b.voter, b.term, b.candidate)
  }

  ghost predicate BallotsOk(c: Config, s: System)
    requires s.peers.Keys == c.cluster
  {
    && BallotsBacked(c, s)
    && (forall i :: i in c.cluster && s.peers[i].role == Candidate ==>
          s.peers[i].votes == |Electors(c, s, s.peers[i].term, i)|)
  }

  ghost predicate Elected(c: Config, s: System, w: Win) {
    |Electors(c, s, w.term, w.node)| >= Quorum(|c.cluster|)
  }

  ghost predicate WinsOk(c: Config, s: System)
    requires s.peers.Keys == c.cluster
  {
    && (forall w :: w in s.won ==> w.node in c.cluster && Elected(c, s, w))
    && (forall i :: i in c.cluster && s.peers[i].role == Leader ==> Win(s.peers[i].term, i) in s.won)
  }

  ghost predicate Inv(c: Config, s: System) {
    && PeersOk(c, s) && GrantsOk(c, s) && NetOk(c, s) && BallotsOk(c, s) && WinsOk(c, s)
  }

  // ---------------------------------------------------------------- two quorums of an odd cluster meet

  lemma Overlap(a: set<Name>, b: set<Name>, all: set<Name>) returns (x: Name)
    requires a <= all && b <= all && |a| + |b| > |all|
    ensures x in a && x in b
  {
    if a * b == {} {
      assert |a + b| == |a| + |b|;
      SubsetSize(a + b, all);
    }
    x :| x in a * b;
  }

  lemma SubsetSize(a: set<Name>, b: set<Name>)
    requires a <= b
    ensures |a| <= |b|
  {
    assert b == a + (b - a);
  }

  lemma OneWinner(c: Config, s: System, v: Win, w: Win)
    requires |c.cluster| % 2 == 1 && OneVotePerTerm(s) && BallotsBacked(c, s)
    requires Elected(c, s, v) && Elected(c, s, w) && v.term == w.term
    ensures v == w
  {
    var x := Overlap(Electors(c, s, v.term, v.node), Electors(c, s, w.term, w.node), c.cluster);
    var b, d := Ballot(x, v.term, v.node), Ballot(x, w.term, w.node);
    assert b in s.counted && d in s.counted;
    assert Voted(s, b.voter, b.term, b.candidate) && Voted(s, d.voter, d.term, d.candidate);
  }

  // ---------------------------------------------------------------- what any step may change

  /** A node's state file only moves forward, and a vote saved in it stays while its term stays. */
  ghost predicate Advances(p: Peer, q: Peer) {
    && p.savedTerm <= q.savedTerm
    && (p.savedTerm == q.savedTerm && p.savedVote != [] ==> q.savedVote == p.savedVote)
  }

  ghost predicate Extends(c: Config, s: System, s': System) {
    && s.peers.Keys == s'.peers.Keys == c.cluster
    && (forall i :: i in c.cluster ==> Advances(s.peers[i], s'.peers[i]))
    && s.grants <= s'.grants && s.counted <= s'.counted && s.won <= s'.won
  }

  lemma UpdateExtends(c: Config, s: System, i: Name, q: Peer)
    requires s.peers.Keys == c.cluster && i in c.cluster && Advances(s.peers[i], q)
    ensures Extends(c, s, Update(c, s, i, q))
  {
  }

  lemma OldGrants(c: Config, s: System, s': System)
    requires c.WellFormed() && Extends(c, s, s') && GrantsOk(c, s)
    ensures forall g :: g in s.grants ==> Remembered(c, s', g)
  {
    forall g | g in s.grants
      ensures Remembered(c, s', g)
    {
      assert Remembered(c, s, g);
      assert Advances(s.peers[g.voter], s'.peers[g.voter]);
      assert Advances(s.peers[g.candidate], s'.peers[g.candidate]);
    }
  }

  lemma OldWins(c: Config, s: System, s': System)
    requires Extends(c, s, s') && WinsOk(c, s)
    ensures forall w :: w in s.won ==> w.node in c.cluster && Elected(c, s', w)
  {
    forall w | w in s.won
      ensures w.node in c.cluster && Elected(c, s', w)
    {
      assert w.node in c.cluster && Elected(c, s, w);
      SubsetSize(Electors(c, s, w.term, w.node), Electors(c, s', w.term, w.node));
    }
  }

  lemma OldBallots(c: Config, s: System, s': System)
    requires Extends(c, s, s') && BallotsBacked(c, s)
    ensures forall b :: b in s.counted ==> b.voter in c.cluster && Voted(s', b.voter, b.term, b.candidate)
  {
    forall b | b in s.counted
      ensures Voted(s', b.voter, b.term, b.candidate)
    {
      assert Voted(s, b.voter, b.term, b.candidate);
      var adv, own :| Grant(b.voter, b.term, b.candidate, adv, own) in s.grants;
      assert Grant(b.voter, b.term, b.candidate, adv, own) in s'.grants;
    }
  }

  /** No one has voted in, or for a candidate of, a term later than its saved one. */
  lemma NoVoteAhead(c: Config, s: System, voter: Name, term: nat, candidate: Name)
    requires s.peers.Keys == c.cluster && GrantsOk(c, s) && Voted(s, voter, term, candidate)
    ensures voter in c.cluster && candidate in c.cluster
    ensures term <= s.peers[voter].savedTerm && term <= s.peers[candidate].savedTerm
  {
    var adv, own :| Grant(voter, term, candidate, adv, own) in s.grants;
    assert Remembered(c, s, Grant(voter, term, candidate, adv, own));
  }

  // ---------------------------------------------------------------- the steps, one by one

  lemma BootInv(c: Config)
    requires c.WellFormed() && c.configured == {}
    ensures Inv(c, Boot(c))
  {
  }

  lemma QuietNet(c: Config, s: System, s': System)
    requires Extends(c, s, s') && NetOk(c, s)
    requires s'.net == s.net && s'.grants == s.grants && s'.counted == s.counted
    ensures NetOk(c, s')
  {
    forall m | m in s'.net
      ensures MsgOk(c, s', m)
    {
      assert MsgOk(c, s, m);
      assert Advances(s.peers[m.from], s'.peers[m.from]) && Advances(s.peers[m.to], s'.peers[m.to]);
    }
  }

  lemma QuietBallots(c: Config, s: System, s': System)
    requires Extends(c, s, s') && BallotsOk(c, s) && s'.counted == s.counted
    requires forall i :: i in c.cluster && s'.peers[i].role == Candidate ==>
               s.peers[i].role == Candidate && s'.peers[i].term == s.peers[i].term && s'.peers[i].votes == s.peers[i].votes
    ensures BallotsOk(c, s')
  {
    forall j | j in c.cluster && s'.peers[j].role == Candidate
      ensures s'.peers[j].votes == |Electors(c, s', s'.peers[j].term, j)|
    {
      assert Electors(c, s', s'.peers[j].term, j) == Electors(c, s, s.peers[j].term, j);
    }
    OldBallots(c, s, s');
  }

  lemma QuietGrants(c: Config, s: System, s': System)
    requires c.WellFormed() && Extends(c, s, s') && GrantsOk(c, s) && s'.grants == s.grants
    ensures GrantsOk(c, s')
  {
    OldGrants(c, s, s');
  }

  lemma QuietPeers(c: Config, s: System, i: Name, q: Peer)
    requires PeersOk(c, s) && i in c.cluster && PeerOk(q)
    ensures PeersOk(c, s.(peers := s.peers[i := q]))
  {
  }

  lemma QuietWins(c: Config, s: System, i: Name, q: Peer)
    requires s.peers.Keys == c.cluster && WinsOk(c, s) && i in c.cluster && Advances(s.peers[i], q)
    requires q.role == Leader ==> Win(q.term, i) in s.won
    ensures Update(c, s, i, q) == s.(peers := s.peers[i := q])
    ensures WinsOk(c, Update(c, s, i, q))
  {
    assert s.won + Holds(i, q) == s.won;
    UpdateExtends(c, s, i, q);
    OldWins(c, s, Update(c, s, i, q));
  }

  /** A step that changes one node and sends, grants and counts nothing. */
  lemma QuietInv(c: Config, s: System, i: Name, q: Peer)
    requires c.WellFormed() && Inv(c, s) && i in c.cluster
    requires PeerOk(q) && Advances(s.peers[i], q)
    requires q.role == Candidate ==> q.term == s.peers[i].term && q.votes == s.peers[i].votes && s.peers[i].role == Candidate
    requires q.role == Leader ==> Win(q.term, i) in s.won
    ensures Inv(c, Update(c, s, i, q))
  {
    hide MsgOk, Remembered, OneVotePerTerm, BallotsBacked, Elected, Electors, PeerOk;
    var s' := Update(c, s, i, q);
    UpdateExtends(c, s, i, q);
    QuietWins(c, s, i, q);
    QuietPeers(c, s, i, q);
    QuietGrants(c, s, s');
    QuietNet(c, s, s');
    QuietBallots(c, s, s');
  }

  lemma HeartbeatInv(c: Config, s: System, m: Msg)
    requires c.WellFormed() && |c.cluster| % 2 == 1 && Inv(c, s) && m in s.net && m.Heartbeat?
    ensures Inv(c, Update(c, s, m.to, AfterHeartbeat(s.peers[m.to], m.to, m.term, m.from)))
  {
    var p := s.peers[m.to];
    assert MsgOk(c, s, m);
    if p.role == Leader && p.term == m.term {
      NoRivalHeartbeat(c, s, m);
    }
    QuietInv(c, s, m.to, AfterHeartbeat(p, m.to, m.term, m.from));
  }

  /** The branch that erases a saved vote (a leader hearing another leader of its own term) is never taken. */
  lemma NoRivalHeartbeat(c: Config, s: System, m: Msg)
    requires c.WellFormed() && |c.cluster| % 2 == 1 && Inv(c, s) && m in s.net && m.Heartbeat?
    requires m.to in c.cluster && s.peers[m.to].role == Leader
    ensures m.term != s.peers[m.to].term
  {
    assert MsgOk(c, s, m);
    if m.term == s.peers[m.to].term {
      OneWinner(c, s, Win(m.term, m.from), Win(m.term, m.to));
      assert false;
    }
  }

  lemma RestartInv(c: Config, s: System, i: Name)
    requires c.WellFormed() && Inv(c, s) && i in c.cluster
    ensures Inv(c, Update(c, s, i, AfterStart(s.peers[i], i, false)))
  {
    QuietInv(c, s, i, AfterStart(s.peers[i], i, false));
  }

  // A node that times out and stands for election.

  lemma StandExtends(c: Config, s: System, i: Name, lsn: nat)
    requires PeersOk(c, s) && i in c.cluster && s.peers[i].role != Leader
    ensures var s' := ApplyTimeout(c, s, i, lsn); PeersOk(c, s') && Extends(c, s, s')
  {
  }

  lemma StandGrants(c: Config, s: System, i: Name, lsn: nat)
    requires c.WellFormed() && PeersOk(c, s) && GrantsOk(c, s) && i in c.cluster && s.peers[i].role != Leader
    ensures var s' := ApplyTimeout(c, s, i, lsn); s'.peers.Keys == c.cluster && GrantsOk(c, s')
  {
    hide NetOk, BallotsOk, WinsOk;
    var s' := ApplyTimeout(c, s, i, lsn);
    StandExtends(c, s, i, lsn);
    OldGrants(c, s, s');
    forall g | g in s.grants
      ensures !(g.voter == i && g.term == s.peers[i].term + 1)
    {
      assert Remembered(c, s, g) && PeerOk(s.peers[i]);
    }
  }

  /** No message or ballot of a term that the candidate has not yet stood in. */
  lemma NothingAhead(c: Config, s: System, i: Name, j: Name, t: nat)
    requires s.peers.Keys == c.cluster && GrantsOk(c, s) && NetOk(c, s) && BallotsBacked(c, s)
    requires i in c.cluster && s.peers[i].savedTerm < t
    ensures !Voted(s, j, t, i) && VoteResp(t, j, i, true) !in s.net && Ballot(j, t, i) !in s.counted
  {
    if Voted(s, j, t, i) {
      NoVoteAhead(c, s, j, t, i);
    }
    var m, b := VoteResp(t, j, i, true), Ballot(j, t, i);
    assert m in s.net ==> MsgOk(c, s, m);
    assert b in s.counted ==> Voted(s, b.voter, b.term, b.candidate);
  }

  lemma StandOldMsg(c: Config, s: System, i: Name, lsn: nat, m: Msg)
    requires PeersOk(c, s) && i in c.cluster && s.peers[i].role != Leader
    requires m in s.net && MsgOk(c, s, m)
    ensures var s' := ApplyTimeout(c, s, i, lsn); s'.peers.Keys == c.cluster && MsgOk(c, s', m)
  {
    var s' := ApplyTimeout(c, s, i, lsn);
    StandExtends(c, s, i, lsn);
    assert Advances(s.peers[m.from], s'.peers[m.from]) && Advances(s.peers[m.to], s'.peers[m.to]);
    if m.VoteResp? && m.granted {
      var adv, own :| Grant(m.from, m.term, m.to, adv, own) in s.grants;
      assert Grant(m.from, m.term, m.to, adv, own) in s'.grants;
    }
  }

  lemma StandNewMsg(c: Config, s: System, i: Name, lsn: nat, m: Msg)
    requires PeersOk(c, s) && GrantsOk(c, s) && NetOk(c, s) && BallotsBacked(c, s)
    requires i in c.cluster && s.peers[i].role != Leader
    requires m in ApplyTimeout(c, s, i, lsn).net && m !in s.net
    ensures var s' := ApplyTimeout(c, s, i, lsn); s'.peers.Keys == c.cluster && MsgOk(c, s', m)
  {
    var t := s.peers[i].term + 1;
    assert PeerOk(s.peers[i]);
    NothingAhead(c, s, i, m.to, t);
  }

  lemma StandNet(c: Config, s: System, i: Name, lsn: nat)
    requires PeersOk(c, s) && GrantsOk(c, s) && NetOk(c, s) && BallotsBacked(c, s)
    requires i in c.cluster && s.peers[i].role != Leader
    ensures var s' := ApplyTimeout(c, s, i, lsn); s'.peers.Keys == c.cluster && NetOk(c, s')
  {
    var s' := ApplyTimeout(c, s, i, lsn);
    forall m | m in s'.net
      ensures MsgOk(c, s', m)
    {
      if m in s.net {
        StandOldMsg(c, s, i, lsn, m);
      } else {
        StandNewMsg(c, s, i, lsn, m);
      }
    }
  }

  lemma StandBallots(c: Config, s: System, i: Name, lsn: nat)
    requires PeersOk(c, s) && GrantsOk(c, s) && NetOk(c, s) && BallotsOk(c, s)
    requires i in c.cluster && s.peers[i].role != Leader
    ensures var s' := ApplyTimeout(c, s, i, lsn);
            s'.peers.Keys == c.cluster && BallotsOk(c, s') && Electors(c, s', s.peers[i].term + 1, i) == {i}
  {
    var s' := ApplyTimeout(c, s, i, lsn);
    StandExtends(c, s, i, lsn);
    OldBallots(c, s, s');
    StandElectors(c, s, i, lsn);
    hide GrantsOk, NetOk, Extends, PeersOk;
    assert Grant(i, s.peers[i].term + 1, i, lsn, lsn) in s'.grants;
    assert Voted(s', i, s.peers[i].term + 1, i);
    forall j | j in c.cluster && s'.peers[j].role == Candidate
      ensures s'.peers[j].votes == |Electors(c, s', s'.peers[j].term, j)|
    {
      if j != i {
        assert Electors(c, s', s'.peers[j].term, j) == Electors(c, s, s.peers[j].term, j);
      }
    }
  }

  /** A node that stands has one elector, itself. */
  lemma StandElectors(c: Config, s: System, i: Name, lsn: nat)
    requires PeersOk(c, s) && GrantsOk(c, s) && NetOk(c, s) && BallotsBacked(c, s)
    requires i in c.cluster && s.peers[i].role != Leader
    ensures Electors(c, ApplyTimeout(c, s, i, lsn), s.peers[i].term + 1, i) == {i}
  {
    var s' := ApplyTimeout(c, s, i, lsn);
    var t := s.peers[i].term + 1;
    assert PeerOk(s.peers[i]);
    forall v | v in Electors(c, s', t, i)
      ensures v == i
    {
      NothingAhead(c, s, i, v, t);
    }
  }

  lemma StandWins(c: Config, s: System, i: Name, lsn: nat)
    requires PeersOk(c, s) && WinsOk(c, s) && i in c.cluster && s.peers[i].role != Leader
    requires Electors(c, ApplyTimeout(c, s, i, lsn), s.peers[i].term + 1, i) == {i}
    ensures var s' := ApplyTimeout(c, s, i, lsn); s'.peers.Keys == c.cluster && WinsOk(c, s')
  {
    var s' := ApplyTimeout(c, s, i, lsn);
    StandExtends(c, s, i, lsn);
    OldWins(c, s, s');
  }

  lemma TimeoutInv(c: Config, s: System, i: Name, lsn: nat)
    requires c.WellFormed() && Inv(c, s) && i in c.cluster
    ensures Inv(c, ApplyTimeout(c, s, i, lsn))
  {
    if s.peers[i].role == Leader {
      BeatInv(c, s, i, lsn);
    } else {
      StandExtends(c, s, i, lsn);
      StandGrants(c, s, i, lsn);
      StandNet(c, s, i, lsn);
      StandBallots(c, s, i, lsn);
      StandWins(c, s, i, lsn);
    }
  }

  /** A leader that times out only repeats its heartbeats. */
  lemma BeatInv(c: Config, s: System, i: Name, lsn: nat)
    requires c.WellFormed() && Inv(c, s) && i in c.cluster && s.peers[i].role == Leader
    ensures Inv(c, ApplyTimeout(c, s, i, lsn))
  {
    var s' := ApplyTimeout(c, s, i, lsn);
    assert s'.peers == s.peers && s'.won == s.won;
    BeatNet(c, s, i, s');
    SameHistory(c, s, s');
  }

  lemma SameHistory(c: Config, s: System, s': System)
    requires c.WellFormed() && Inv(c, s)
    requires s' == s.(net := s'.net)
    ensures PeersOk(c, s') && GrantsOk(c, s') && BallotsOk(c, s') && WinsOk(c, s')
  {
    assert Extends(c, s, s');
    QuietGrants(c, s, s');
    QuietBallots(c, s, s');
    OldWins(c, s, s');
  }

  lemma BeatNet(c: Config, s: System, i: Name, s': System)
    requires s.peers.Keys == c.cluster && NetOk(c, s) && i in c.cluster && Win(s.peers[i].term, i) in s.won
    requires s' == s.(net := s.net + Heartbeats(c, i, s.peers[i]))
    ensures NetOk(c, s')
  {
    forall m | m in s'.net
      ensures MsgOk(c, s', m)
    {
      assert m in s.net ==> MsgOk(c, s, m);
    }
  }

  // A node that answers a vote request.

  lemma AnswerExtends(c: Config, s: System, m: Msg, lsn: nat)
    requires c.WellFormed() && PeersOk(c, s) && m.VoteReq? && m.to in c.cluster
    ensures var s' := ApplyVoteReq(c, s, m, lsn); PeersOk(c, s') && Extends(c, s, s')
  {
    var p := s.peers[m.to];
    var q := AfterVoteReq(p, m.term, m.from, m.lsn, lsn);
    assert PeerOk(p) && PeerOk(q) && Advances(p, q);
  }

  /** A vote is granted only where none was granted before. */
  lemma FreshVote(c: Config, s: System, m: Msg, lsn: nat, h: Grant)
    requires c.WellFormed() && PeersOk(c, s) && GrantsOk(c, s) && m.VoteReq? && MsgOk(c, s, m)
    requires Grants(s.peers[m.to], m.term, m.from, m.lsn, lsn)
    requires h in s.grants && h.voter == m.to
    ensures h.term != m.term
  {
    assert Remembered(c, s, h) && PeerOk(s.peers[m.to]);
    if h.term == m.term {
      assert h == Grant(m.to, m.term, m.from, h.advertised, h.own);
      assert Voted(s, m.to, m.term, m.from);
      assert false;
    }
  }

  lemma AnswerGrants(c: Config, s: System, m: Msg, lsn: nat)
    requires c.WellFormed() && PeersOk(c, s) && GrantsOk(c, s) && m.VoteReq? && MsgOk(c, s, m)
    ensures var s' := ApplyVoteReq(c, s, m, lsn); s'.peers.Keys == c.cluster && GrantsOk(c, s')
  {
    var s' := ApplyVoteReq(c, s, m, lsn);
    AnswerExtends(c, s, m, lsn);
    OldGrants(c, s, s');
    if Grants(s.peers[m.to], m.term, m.from, m.lsn, lsn) {
      var g := Grant(m.to, m.term, m.from, m.lsn, lsn);
      assert Remembered(c, s', g) by {
        assert PeerOk(s.peers[m.to]);
      }
      forall h | h in s.grants && h.voter == g.voter
        ensures h.term != g.term
      {
        FreshVote(c, s, m, lsn, h);
      }
    } else {
      assert s'.grants == s.grants;
    }
  }

  lemma AnswerOldMsg(c: Config, s: System, m: Msg, lsn: nat, k: Msg)
    requires c.WellFormed() && PeersOk(c, s) && OneVotePerTerm(s) && m.VoteReq? && MsgOk(c, s, m)
    requires k in s.net && k != m && MsgOk(c, s, k)
    ensures var s' := ApplyVoteReq(c, s, m, lsn); s'.peers.Keys == c.cluster && MsgOk(c, s', k)
  {
    var s' := ApplyVoteReq(c, s, m, lsn);
    AnswerExtends(c, s, m, lsn);
    assert Advances(s.peers[k.from], s'.peers[k.from]) && Advances(s.peers[k.to], s'.peers[k.to]);
    if k.VoteResp? && k.granted {
      var adv, own :| Grant(k.from, k.term, k.to, adv, own) in s.grants;
      assert Grant(k.from, k.term, k.to, adv, own) in s'.grants;
    }
  }

  lemma AnswerNet(c: Config, s: System, m: Msg, lsn: nat)
    requires c.WellFormed() && PeersOk(c, s) && OneVotePerTerm(s) && NetOk(c, s) && m.VoteReq? && m in s.net
    ensures var s' := ApplyVoteReq(c, s, m, lsn); s'.peers.Keys == c.cluster && NetOk(c, s')
  {
    var s' := ApplyVoteReq(c, s, m, lsn);
    assert MsgOk(c, s, m);
    AnswerExtends(c, s, m, lsn);
    forall k | k in s'.net
      ensures MsgOk(c, s', k)
    {
      if k in s.net && k != m {
        assert MsgOk(c, s, k);
        AnswerOldMsg(c, s, m, lsn, k);
      } else {
        assert k == VoteResp(m.term, m.to, m.from, Grants(s.peers[m.to], m.term, m.from, m.lsn, lsn));
        if k.granted {
          assert Grant(m.to, m.term, m.from, m.lsn, lsn) in s'.grants;
        }
      }
    }
  }

  lemma VoteReqInv(c: Config, s: System, m: Msg, lsn: nat)
    requires c.WellFormed() && Inv(c, s) && m in s.net && m.VoteReq?
    ensures Inv(c, ApplyVoteReq(c, s, m, lsn))
  {
    var s' := ApplyVoteReq(c, s, m, lsn);
    assert MsgOk(c, s, m);
    AnswerExtends(c, s, m, lsn);
    AnswerGrants(c, s, m, lsn);
    AnswerNet(c, s, m, lsn);
    AnswerTally(c, s, m, lsn);
  }

  lemma AnswerTally(c: Config, s: System, m: Msg, lsn: nat)
    requires c.WellFormed() && PeersOk(c, s) && BallotsOk(c, s) && WinsOk(c, s) && m.VoteReq? && m.to in c.cluster
    ensures var s' := ApplyVoteReq(c, s, m, lsn); s'.peers.Keys == c.cluster && BallotsOk(c, s') && WinsOk(c, s')
  {
    var s' := ApplyVoteReq(c, s, m, lsn);
    AnswerExtends(c, s, m, lsn);
    OldWins(c, s, s');
    QuietBallots(c, s, s');
  }

  // A node that receives the answer to its request.

  /** The term of an answer is one the receiver has saved, so it never makes the receiver step down. */
  lemma AnswerIsOld(c: Config, s: System, m: Msg)
    requires PeersOk(c, s) && m.VoteResp? && MsgOk(c, s, m)
    ensures m.term <= s.peers[m.to].term
  {
    assert PeerOk(s.peers[m.to]);
  }

  lemma CountExtends(c: Config, s: System, m: Msg)
    requires PeersOk(c, s) && m.VoteResp? && MsgOk(c, s, m)
    ensures var s' := ApplyVoteResp(c, s, m); PeersOk(c, s') && Extends(c, s, s')
  {
    assert PeerOk(s.peers[m.to]);
  }

  lemma CountElectors(c: Config, s: System, m: Msg, t: nat, i: Name)
    requires PeersOk(c, s) && m.VoteResp? && MsgOk(c, s, m)
    ensures var s' := ApplyVoteResp(c, s, m);
            |Electors(c, s', t, i)| ==
            |Electors(c, s, t, i)| + if Counts(s.peers[m.to], m) && t == m.term && i == m.to then 1 else 0
  {
    var s' := ApplyVoteResp(c, s, m);
    var e := Electors(c, s, t, i);
    if Counts(s.peers[m.to], m) && t == m.term && i == m.to {
      assert Electors(c, s', t, i) == e + {m.from};
    } else {
      assert Electors(c, s', t, i) == e;
    }
  }

  lemma CountBallots(c: Config, s: System, m: Msg)
    requires PeersOk(c, s) && BallotsOk(c, s) && m.VoteResp? && MsgOk(c, s, m)
    ensures var s' := ApplyVoteResp(c, s, m); s'.peers.Keys == c.cluster && BallotsOk(c, s')
  {
    var s' := ApplyVoteResp(c, s, m);
    CountExtends(c, s, m);
    AnswerIsOld(c, s, m);
    OldBallots(c, s, s');
    forall j | j in c.cluster && s'.peers[j].role == Candidate
      ensures s'.peers[j].votes == |Electors(c, s', s'.peers[j].term, j)|
    {
      CountElectors(c, s, m, s'.peers[j].term, j);
    }
    assert Voted(s, m.from, m.term, m.to) ==> Voted(s', m.from, m.term, m.to);
  }

  lemma CountWins(c: Config, s: System, m: Msg)
    requires PeersOk(c, s) && BallotsOk(c, s) && WinsOk(c, s) && m.VoteResp? && MsgOk(c, s, m)
    ensures var s' := ApplyVoteResp(c, s, m); s'.peers.Keys == c.cluster && WinsOk(c, s')
  {
    var s' := ApplyVoteResp(c, s, m);
    CountExtends(c, s, m);
    AnswerIsOld(c, s, m);
    OldWins(c, s, s');
    CountElectors(c, s, m, m.term, m.to);
  }

  lemma CountNet(c: Config, s: System, m: Msg)
    requires PeersOk(c, s) && NetOk(c, s) && WinsOk(c, s) && m.VoteResp? && m in s.net
    ensures var s' := ApplyVoteResp(c, s, m); s'.peers.Keys == c.cluster && NetOk(c, s')
  {
    var s' := ApplyVoteResp(c, s, m);
    assert MsgOk(c, s, m);
    CountExtends(c, s, m);
    forall k | k in s'.net
      ensures MsgOk(c, s', k)
    {
      if k in s.net {
        assert MsgOk(c, s, k);
        assert Advances(s.peers[k.from], s'.peers[k.from]) && Advances(s.peers[k.to], s'.peers[k.to]);
        assert Voted(s, k.from, k.term, k.to) ==> Voted(s', k.from, k.term, k.to);
        assert Voted(s', k.to, k.term, k.from) ==> Voted(s, k.to, k.term, k.from);
      }
    }
  }

  lemma VoteRespInv(c: Config, s: System, m: Msg)
    requires c.WellFormed() && Inv(c, s) && m in s.net && m.VoteResp?
    ensures Inv(c, ApplyVoteResp(c, s, m))
  {
    assert MsgOk(c, s, m);
    CountExtends(c, s, m);
    QuietGrants(c, s, ApplyVoteResp(c, s, m));
    CountNet(c, s, m);
    CountBallots(c, s, m);
    CountWins(c, s, m);
  }

  // ---------------------------------------------------------------- safety over whole runs

  lemma StepInv(c: Config, s: System, step: Step)
    requires c.WellFormed() && c.configured == {} && |c.cluster| % 2 == 1 && Inv(c, s) && Enabled(c, s, step)
    ensures Inv(c, Apply(c, s, step))
  {
    match step
    case Timeout(i, lsn) => TimeoutInv(c, s, i, lsn);
    case Restart(i) => RestartInv(c, s, i);
    case Deliver(m, lsn) =>
      match m
      case Heartbeat(_, _, _) => HeartbeatInv(c, s, m);
      case VoteReq(_, _, _, _) => VoteReqInv(c, s, m, lsn);
      case VoteResp(_, _, _, _) => VoteRespInv(c, s, m);
  }

  lemma {:induction false} RunInv(c: Config, steps: seq<Step>)
    requires c.WellFormed() && c.configured == {} && |c.cluster| % 2 == 1 && Run(c, steps)
    ensures Inv(c, StateAfter(c, steps))
    decreases |steps|
  {
    if steps == [] {
      BootInv(c);
    } else {
      var before := steps[..|steps| - 1];
      RunInv(c, before);
      StepInv(c, StateAfter(c, before), steps[|steps| - 1]);
    }
  }

  /** At most one node ever holds office in a term. */
  ghost predicate OneLeaderPerTerm(s: System) {
    forall v, w :: v in s.won && w in s.won && v.term == w.term ==> v == w
  }

  /** `v` voted for the winner while its own log was not ahead of the advertised position. */
  ghost predicate Behind(s: System, v: Name, w: Win, advertised: nat) {
    exists own: nat :: own <= advertised && Grant(v, w.term, w.node, advertised, own) in s.grants
  }

  ghost predicate Majority(c: Config, s: System, w: Win, voters: set<Name>, advertised: nat) {
    && voters <= c.cluster && 2 * |voters| > |c.cluster|
    && forall v :: v in voters ==> Behind(s, v, w, advertised)
  }

  /** A majority voted for the winner, and none of them was ahead of the position it advertised to all of them. */
  ghost predicate UpToDate(c: Config, s: System, w: Win) {
    exists voters, advertised :: Majority(c, s, w, voters, advertised)
  }

  lemma WinnerUpToDate(c: Config, s: System, w: Win)
    requires |c.cluster| % 2 == 1 && s.peers.Keys == c.cluster && GrantsOk(c, s) && BallotsBacked(c, s)
    requires Elected(c, s, w)
    ensures UpToDate(c, s, w)
  {
    var voters := Electors(c, s, w.term, w.node);
    var x :| x in voters;
    var b := Ballot(x, w.term, w.node);
    assert b in s.counted && Voted(s, b.voter, b.term, b.candidate);
    var adv, own :| Grant(x, w.term, w.node, adv, own) in s.grants;
    forall v | v in voters
      ensures Behind(s, v, w, adv)
    {
      SameAdvert(c, s, w, v, x, adv, own);
    }
    assert Majority(c, s, w, voters, adv);
  }

  lemma SameAdvert(c: Config, s: System, w: Win, v: Name, x: Name, adv: nat, own: nat)
    requires s.peers.Keys == c.cluster && GrantsOk(c, s) && BallotsBacked(c, s)
    requires Ballot(v, w.term, w.node) in s.counted && Grant(x, w.term, w.node, adv, own) in s.grants
    ensures Behind(s, v, w, adv)
  {
    var b := Ballot(v, w.term, w.node);
    assert Voted(s, b.voter, b.term, b.candidate);
    var adv', own' :| Grant(v, w.term, w.node, adv', own') in s.grants;
    assert Remembered(c, s, Grant(v, w.term, w.node, adv', own'));
    assert Remembered(c, s, Grant(x, w.term, w.node, adv, own));
    assert Grant(w.node, w.term, w.node, adv, adv) == Grant(w.node, w.term, w.node, adv', adv');
  }

  /** Election safety, over every run of an odd cluster whose nodes all start as followers. */
  lemma Safety(c: Config, steps: seq<Step>)
    requires c.WellFormed() && c.configured == {} && |c.cluster| % 2 == 1 && Run(c, steps)
    ensures var s := StateAfter(c, steps);
            && OneVotePerTerm(s)
            && OneLeaderPerTerm(s)
            && forall w :: w in s.won ==> UpToDate(c, s, w)
  {
    var s := StateAfter(c, steps);
    RunInv(c, steps);
    forall v, w | v in s.won && w in s.won && v.term == w.term
      ensures v == w
    {
      OneWinner(c, s, v, w);
    }
    forall w | w in s.won
      ensures UpToDate(c, s, w)
    {
      WinnerUpToDate(c, s, w);
    }
  }
}
