/** One election manager: what each handler does to the state of a node and to its state file. */
module Election {
  import opened Bytes

  datatype Role = Follower | Candidate | Leader

  /** The fields of an election manager together with the term and vote held in its state file. */
  datatype Peer = Peer(
    term: nat, votedFor: Name, role: Role, leader: Name, votes: nat,
    savedTerm: nat, savedVote: Name)

  datatype Msg =
    | Heartbeat(term: nat, from: Name, to: Name)
    | VoteReq(term: nat, from: Name, to: Name, lsn: nat)
    | VoteResp(term: nat, from: Name, to: Name, granted: bool)

  /** The number of votes, its own included, with which a candidate of a cluster of `n` takes office. */
  function Quorum(n: nat): (q: nat) {
    (n + 1) / 2
  }

  // ---------------------------------------------------------------- handlers, as functions

  function AfterHeartbeat(p: Peer, self: Name, term: nat, from: Name): Peer {
    if term < p.term then p
    else if term > p.term then
      p.(term := term, votedFor := [], role := Follower, leader := from, savedTerm := term, savedVote := [])
    else
      match p.role
      case Candidate => p.(role := Follower, leader := from)
      case Follower => p.(leader := from)
      case Leader =>
        if from == self then p
        else
          var q := p.(role := Follower, leader := from);
          if p.term > 0 then q.(savedTerm := p.term, savedVote := []) else q
  }

  /** A vote request of a later term first moves the node to that term, without saving it. */
  function Adopt(p: Peer, term: nat): Peer {
    if term > p.term then p.(term := term, votedFor := [], role := Follower) else p
  }

  predicate Grants(p: Peer, term: nat, from: Name, lsn: nat, myLsn: nat) {
    var q := Adopt(p, term);
    term >= q.term && lsn >= myLsn && (q.votedFor == [] || q.votedFor == from)
  }

  function AfterVoteReq(p: Peer, term: nat, from: Name, lsn: nat, myLsn: nat): Peer {
    var q := Adopt(p, term);
    if Grants(p, term, from, lsn, myLsn) then q.(votedFor := from, savedTerm := q.term, savedVote := from) else q
  }

  function AfterVoteResp(p: Peer, self: Name, n: nat, term: nat, granted: bool): Peer {
    var q := if term > p.term then p.(term := term, votedFor := [], role := Follower, leader := []) else p;
    if q.role != Candidate || term < q.term || !granted then q
    else if q.votes + 1 < Quorum(n) then q.(votes := q.votes + 1)
    else q.(role := Leader, leader := self, votes := 0)
  }

  function AfterTimeout(p: Peer, self: Name, n: nat): Peer {
    if p.role == Leader then p
    else
      var q := p.(term := p.term + 1, votedFor := self, votes := 1, role := Candidate,
                  savedTerm := p.term + 1, savedVote := self);
      if 1 >= Quorum(n) then q.(role := Leader, leader := self, votes := 0) else q
  }

  /** A restart forgets everything but the state file; a node configured as leader takes office without a vote. */
  function AfterStart(p: Peer, self: Name, configured: bool): Peer {
    var q := Peer(p.savedTerm, p.savedVote, Follower, [], 0, p.savedTerm, p.savedVote);
    if configured then q.(role := Leader, term := if q.term == 0 then 1 else q.term, leader := self) else q
  }

  // ---------------------------------------------------------------- the state file

  function EncodeState(term: nat, vote: Name): seq<byte> {
    PutLe(term, 8) + PutLe(|vote|, 2) + vote
  }

  /** Reading the state file: too short a header leaves the defaults, a cut vote reads as no vote. */
  function DecodeState(file: seq<byte>): (r: (nat, Name)) {
    if |file| < 10 then (0, [])
    else
      var vlen := ReadLe(file[8..10]);
      (ReadLe(file[..8]), if |file| < 10 + vlen then [] else file[10..10 + vlen])
  }

  lemma StateRoundTrip(term: nat, vote: Name)
    requires term < TWO_64 && |vote| < TWO_16
    ensures DecodeState(EncodeState(term, vote)) == (term, vote)
  {
    var f := EncodeState(term, vote);
    assert f[..8] == PutLe(term, 8);
    assert f[8..10] == PutLe(|vote|, 2);
    assert f[10..10 + |vote|] == vote;
    Widths();
    ReadPutLe(term, 8);
    ReadPutLe(|vote|, 2);
  }

  lemma {:induction false} StateBytes()
    ensures EncodeState(3, [97]) == [3, 0, 0, 0, 0, 0, 0, 0, 1, 0, 97]
  {
    SmallLe(3);
    SmallLe(1);
  }

  /** A crash while the temporary file is written leaves a shorter file only before the rename; were such a prefix
      read, it would never name a candidate that was not voted for. */
  lemma TornStateNamesNoOther(term: nat, vote: Name, cut: nat)
    requires term < TWO_64 && |vote| < TWO_16 && cut <= |EncodeState(term, vote)|
    ensures var r := DecodeState(EncodeState(term, vote)[..cut]);
            (r.0 == term || (cut < 10 && r.0 == 0)) &&
            (r.1 == [] || (cut == |EncodeState(term, vote)| && r.1 == vote))
  {
    var f := EncodeState(term, vote);
    StateRoundTrip(term, vote);
    if cut >= 10 {
      assert f[..cut][..8] == f[..8];
      assert f[..cut][8..10] == f[8..10];
      if cut == |f| {
        assert f[..cut] == f;
      }
    }
  }

  // ---------------------------------------------------------------- the manager itself

  class ElectionManager {
    const nodeId: Name
    const peers: seq<Name>     // the other members of the cluster
    const clusterSize: nat
    var currentTerm: nat
    var votedFor: Name
    var currentLeader: Name
    var role: Role
    var votesReceived: nat
    var file: seq<byte>        // contents of election_state.bin; empty when there is none

    ghost predicate Valid()
      reads this
    {
      && nodeId != [] && |nodeId| < TWO_16
      && currentTerm < TWO_64 && |votedFor| < TWO_16
    }

    ghost function View(): (p: Peer)
      reads this
    {
      var saved := DecodeState(file);
      Peer(currentTerm, votedFor, role, currentLeader, votesReceived, saved.0, saved.1)
    }

    constructor (id: Name, members: seq<Name>, stateFile: seq<byte>)
      requires id != [] && |id| < TWO_16
      ensures Valid() && nodeId == id && file == stateFile
      ensures clusterSize == (if |members| == 0 then 1 else |members|)
      ensures forall m :: m in peers <==> m in members && m != id
      ensures View() == Peer(0, [], Follower, [], 0, DecodeState(stateFile).0, DecodeState(stateFile).1)
    {
      nodeId, file := id, stateFile;
      currentTerm, votedFor, currentLeader, role, votesReceived := 0, [], [], Follower, 0;
      clusterSize := if |members| == 0 then 1 else |members|;
      var others: seq<Name> := [];
      for i := 0 to |members|
        invariant forall m :: m in others <==> m in members[..i] && m != id
      {
        if members[i] != id {
          others := others + [members[i]];
        }
      }
      assert members[..|members|] == members;
      peers := others;
    }

    method PersistState(term: nat, vote: Name)
      requires term < TWO_64 && |vote| < TWO_16
      modifies this`file
      ensures View() == old(View()).(savedTerm := term, savedVote := vote)
    {
      file := PutLe(term, 8) + PutLe(|vote|, 2);
      if vote != [] {
        file := file + vote;
      }
      assert file == EncodeState(term, vote);
      StateRoundTrip(term, vote);
    }

    method Start(configured: bool)
      requires Valid() && currentTerm == 0 && votedFor == [] && role == Follower && currentLeader == []
      requires votesReceived == 0
      modifies this
      ensures Valid() && file == old(file)
      ensures View() == AfterStart(old(View()), nodeId, configured)
      ensures votedFor == DecodeState(file).1 && votesReceived == 0
      ensures if configured
              then role == Leader && currentLeader == nodeId && currentTerm == if DecodeState(file).0 == 0 then 1 else DecodeState(file).0
              else role == Follower && currentLeader == [] && currentTerm == DecodeState(file).0
    {
      Widths();
      if |file| >= 10 {
        currentTerm := ReadLe(file[..8]);
        PutReadLe(file[..8]);
        PutReadLe(file[8..10]);
        var vlen := ReadLe(file[8..10]);
        if vlen > 0 {
          votedFor := if |file| - 10 < vlen then [] else file[10..10 + vlen];
        } else {
          assert file[10..10 + vlen] == [];
        }
      }
      if configured {
        role := Leader;
        if currentTerm == 0 {
          currentTerm := 1;
        }
        currentLeader := nodeId;
      }
    }

    method HandleHeartbeat(term: nat, from: Name)
      requires Valid() && term < TWO_64
      modifies this
      ensures Valid() && View() == AfterHeartbeat(old(View()), nodeId, term, from)
      ensures votesReceived == old(votesReceived)
      ensures term < old(currentTerm) || (term == old(currentTerm) && old(role) == Leader && from == nodeId) ==>
                View() == old(View()) && file == old(file)
      ensures term > old(currentTerm) ==>
                && currentTerm == term && role == Follower && currentLeader == from
                && votedFor == [] && DecodeState(file) == (term, [])
      ensures term == old(currentTerm) && !(old(role) == Leader && from == nodeId) ==>
                && currentTerm == term && role == Follower && currentLeader == from && votedFor == old(votedFor)
                && if old(role) == Leader && term > 0 then DecodeState(file) == (term, []) else file == old(file)
    {
      var persistTerm := 0;
      if term < currentTerm {
        return;
      }
      if term > currentTerm {
        currentTerm := term;
        votedFor := [];
        persistTerm := currentTerm;
        if role != Follower {
          role := Follower;
        }
        currentLeader := from;
      } else if role == Candidate {
        role := Follower;
        currentLeader := from;
      } else if role == Follower {
        currentLeader := from;
      } else if role == Leader && from != nodeId {
        role := Follower;
        currentLeader := from;
        persistTerm := currentTerm;
      }
      if persistTerm > 0 {
        PersistState(persistTerm, []);
      }
    }

    method HandleVoteReq(term: nat, from: Name, lsn: nat, myLsn: nat) returns (grant: bool)
      requires Valid() && term < TWO_64 && |from| < TWO_16
      modifies this
      ensures Valid() && grant == Grants(old(View()), term, from, lsn, myLsn)
      ensures View() == AfterVoteReq(old(View()), term, from, lsn, myLsn)
      ensures grant <==> lsn >= myLsn && (term > old(currentTerm) || (term == old(currentTerm) && old(votedFor) in {[], from}))
      ensures currentTerm == (if term > old(currentTerm) then term else old(currentTerm))
      ensures role == (if term > old(currentTerm) then Follower else old(role))
      ensures currentLeader == old(currentLeader) && votesReceived == old(votesReceived)
      ensures if grant then votedFor == from && DecodeState(file) == (currentTerm, from)
              else file == old(file) && votedFor == if term > old(currentTerm) then [] else old(votedFor)
    {
      grant := false;
      if term > currentTerm {
        currentTerm := term;
        votedFor := [];
        if role != Follower {
          role := Follower;
        }
      }
      if term >= currentTerm && lsn >= myLsn && (votedFor == [] || votedFor == from) {
        grant := true;
        votedFor := from;
        PersistState(currentTerm, votedFor);
      }
    }

    method BecomeLeader() returns (sent: seq<Msg>)
      modifies this`role, this`currentLeader, this`votesReceived
      ensures View() == old(View()).(role := Leader, leader := nodeId, votes := 0)
      ensures forall m :: m in sent <==> m.Heartbeat? && m.term == currentTerm && m.from == nodeId && m.to in peers
    {
      role := Leader;
      currentLeader := nodeId;
      votesReceived := 0;
      sent := [];
      for i := 0 to |peers|
        invariant forall m :: m in sent <==> m.Heartbeat? && m.term == currentTerm && m.from == nodeId && m.to in peers[..i]
      {
        sent := sent + [Heartbeat(currentTerm, nodeId, peers[i])];
      }
      assert peers[..|peers|] == peers;
    }

    method HandleVoteResp(term: nat, granted: bool) returns (sent: seq<Msg>)
      requires Valid() && term < TWO_64
      modifies this
      ensures Valid() && View() == AfterVoteResp(old(View()), nodeId, clusterSize, term, granted)
      ensures file == old(file)
      ensures term > old(currentTerm) ==>
                && currentTerm == term && role == Follower && votedFor == [] && currentLeader == []
                && votesReceived == old(votesReceived)
      ensures term < old(currentTerm) || (term == old(currentTerm) && (old(role) != Candidate || !granted)) ==>
                View() == old(View())
      ensures term == old(currentTerm) && old(role) == Candidate && granted ==>
                && currentTerm == term && votedFor == old(votedFor)
                && if 2 * (old(votesReceived) + 1) < clusterSize
                   then role == Candidate && votesReceived == old(votesReceived) + 1 && currentLeader == old(currentLeader)
                   else role == Leader && votesReceived == 0 && currentLeader == nodeId
      ensures forall m :: m in sent <==>
                old(role) == Candidate && role == Leader && m.Heartbeat? && m.term == currentTerm && m.from == nodeId && m.to in peers
    {
      sent := [];
      if term > currentTerm {
        currentTerm := term;
        votedFor := [];
        role := Follower;
        currentLeader := [];
      }
      if role != Candidate || term < currentTerm {
        return;
      }
      if !granted {
        return;
      }
      votesReceived := votesReceived + 1;
      var majority := (clusterSize + 1) / 2;
      if votesReceived < majority {
        return;
      }
      sent := BecomeLeader();
    }

    method StartElection(lsn: nat) returns (sent: seq<Msg>)
      requires Valid() && role != Leader && currentTerm + 1 < TWO_64
      modifies this
      ensures Valid() && View() == AfterTimeout(old(View()), nodeId, clusterSize)
      ensures currentTerm == old(currentTerm) + 1 && votedFor == nodeId && DecodeState(file) == (currentTerm, nodeId)
      ensures if clusterSize <= 2 then role == Leader && currentLeader == nodeId && votesReceived == 0
              else role == Candidate && currentLeader == old(currentLeader) && votesReceived == 1
      ensures forall m :: m in sent <==>
                && m.from == nodeId && m.term == currentTerm && m.to in peers
                && ((m.VoteReq? && m.lsn == lsn) || (m.Heartbeat? && role == Leader))
    {
      currentTerm := currentTerm + 1;
      votedFor := nodeId;
      votesReceived := 1;
      role := Candidate;
      PersistState(currentTerm, nodeId);
      sent := [];
      for i := 0 to |peers|
        invariant forall m :: m in sent <==> m.VoteReq? && m.from == nodeId && m.term == currentTerm && m.lsn == lsn && m.to in peers[..i]
      {
        sent := sent + [VoteReq(currentTerm, nodeId, peers[i], lsn)];
      }
      assert peers[..|peers|] == peers;
      var majority := (clusterSize + 1) / 2;
      if 1 >= majority {
        var beats := BecomeLeader();
        sent := sent + beats;
      }
    }
  }
}
