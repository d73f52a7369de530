/**
 One participant of the leader election in internal/distributed/coordination/coordination.go: the
 handlers and timers as functions on node states, and the mutable Node that implements them.
 */
module RaftNode {
  import opened Wrappers
  import Text

  type NodeId = string

  datatype Role = Follower | Candidate | Leader

  datatype MessageKind = RequestVote | RequestVoteResp | AppendEntries | AppendEntriesResp

  datatype Message = Message(kind: MessageKind, term: nat, from: NodeId, to: NodeId,
                             granted: bool, success: bool, leaderId: NodeId)

  datatype Config = Config(id: NodeId, peers: seq<NodeId>, heartbeatTicks: nat,
                           quorumLossTicks: nat, quorumAckTicks: nat)
  {
    function Majority(): nat { (|peers| + 1) / 2 + 1 }
  }

  /** A timing field, or its default where it is not positive. */
  function OrDefault(ticks: int, default: nat): nat {
    if ticks <= 0 then default else ticks
  }

  /** A nil vote or acknowledgement map is None. */
  datatype NodeState = NodeState(
    role: Role, term: nat, votedFor: NodeId, leaderId: NodeId,
    electionTimeout: int, electionElapsed: int, votes: Option<set<NodeId>>,
    heartbeatElapsed: int, acks: Option<map<NodeId, nat>>, quorumMissTicks: int,
    tick: nat, outbox: seq<Message>)
  {
    function Send(m: Message): NodeState { this.(outbox := outbox + [m]) }
  }

  /** The maps a candidate and a leader write to are allocated. */
  predicate Allocated(s: NodeState) {
    && (s.role == Candidate ==> s.votes.Some?)
    && (s.role == Leader ==> s.acks.Some?)
  }

  function Fresh(electionTimeout: int): NodeState {
    NodeState(Follower, 0, "", "", electionTimeout, 0, None, 0, None, 0, 0, [])
  }

  function BecomeFollower(s: NodeState, term: nat): NodeState {
    s.(role := Follower, term := term, leaderId := "", votedFor := "", votes := None, acks := None,
       electionElapsed := 0)
  }

  function OwnAck(cfg: Config, tick: nat): map<NodeId, nat> { map[cfg.id := tick] }

  function BecomeLeader(cfg: Config, s: NodeState): NodeState {
    s.(role := Leader, leaderId := cfg.id, votedFor := cfg.id, acks := Some(OwnAck(cfg, s.tick)),
       quorumMissTicks := 0, heartbeatElapsed := cfg.heartbeatTicks)
  }

  function Requests(cfg: Config, term: nat, n: nat): seq<Message>
    requires n <= |cfg.peers|
  {
    seq(n, i requires 0 <= i < n => Message(RequestVote, term, cfg.id, cfg.peers[i], false, false, ""))
  }

  function Heartbeats(cfg: Config, term: nat, n: nat): seq<Message>
    requires n <= |cfg.peers|
  {
    seq(n, i requires 0 <= i < n => Message(AppendEntries, term, cfg.id, cfg.peers[i], false, false, cfg.id))
  }

  /** A new term, a vote for itself, and a request to every peer; `timeout` is the next random timeout. */
  function StartElection(cfg: Config, s: NodeState, timeout: int): NodeState {
    var t := s.(role := Candidate, term := s.term + 1, votedFor := cfg.id, leaderId := "", votes := Some({cfg.id}),
                electionTimeout := timeout, electionElapsed := 0,
                outbox := s.outbox + Requests(cfg, s.term + 1, |cfg.peers|));
    if 1 >= cfg.Majority() then BecomeLeader(cfg, t) else t
  }

  function HandleRequestVote(cfg: Config, s: NodeState, m: Message): NodeState {
    var t := if m.term > s.term then s.(term := m.term, role := Follower, votedFor := "", leaderId := "") else s;
    var granted := m.term == t.term && (t.votedFor == "" || t.votedFor == m.from);
    var u := if granted then t.(votedFor := m.from, leaderId := "", electionElapsed := 0) else t;
    u.Send(Message(RequestVoteResp, u.term, cfg.id, m.from, granted, false, ""))
  }

  function HandleRequestVoteResp(cfg: Config, s: NodeState, m: Message): NodeState
    requires Allocated(s)
  {
    if m.term > s.term then BecomeFollower(s, m.term)
    else if s.role != Candidate || m.term != s.term || !m.granted then s
    else
      var t := s.(votes := Some(s.votes.value + {m.from}));
      if |t.votes.value| >= cfg.Majority() then BecomeLeader(cfg, t) else t
  }

  function HandleAppendEntries(cfg: Config, s: NodeState, m: Message): NodeState {
    if m.term < s.term then s.Send(Message(AppendEntriesResp, s.term, cfg.id, m.from, false, false, ""))
    else
      var t := if m.term > s.term then s.(term := m.term, votedFor := "") else s;
      t.(role := Follower, leaderId := m.leaderId, electionElapsed := 0)
       .Send(Message(AppendEntriesResp, t.term, cfg.id, m.leaderId, false, true, ""))
  }

  function HandleAppendEntriesResp(s: NodeState, m: Message): NodeState
    requires Allocated(s)
  {
    if m.term > s.term then BecomeFollower(s, m.term)
    else if s.role != Leader || m.term != s.term || !m.success then s
    else s.(acks := Some(s.acks.value[m.from := s.tick]))
  }

  function Handle(cfg: Config, s: NodeState, m: Message): (t: NodeState)
    requires Allocated(s)
    ensures Allocated(t)
  {
    match m.kind
    case RequestVote => HandleRequestVote(cfg, s, m)
    case RequestVoteResp => HandleRequestVoteResp(cfg, s, m)
    case AppendEntries => HandleAppendEntries(cfg, s, m)
    case AppendEntriesResp => HandleAppendEntriesResp(s, m)
  }

  function HandleAll(cfg: Config, s: NodeState, inbox: seq<Message>): (t: NodeState)
    requires Allocated(s)
    ensures Allocated(t)
    decreases |inbox|
  {
    if inbox == [] then s
    else Handle(cfg, HandleAll(cfg, s, inbox[..|inbox| - 1]), inbox[|inbox| - 1])
  }

  /** A peer whose acknowledgement lies within the freshness window. */
  predicate IsFresh(cfg: Config, s: NodeState, peer: NodeId) {
    s.acks.Some? && peer in s.acks.value
    && s.acks.value[peer] <= s.tick && s.tick - s.acks.value[peer] <= cfg.quorumAckTicks
  }

  function CountFresh(cfg: Config, s: NodeState, n: nat): nat
    requires n <= |cfg.peers|
  {
    if n == 0 then 0 else CountFresh(cfg, s, n - 1) + if IsFresh(cfg, s, cfg.peers[n - 1]) then 1 else 0
  }

  predicate HasQuorum(cfg: Config, s: NodeState) {
    1 + CountFresh(cfg, s, |cfg.peers|) >= cfg.Majority()
  }

  function StepTimers(cfg: Config, s: NodeState, timeout: int): NodeState {
    if s.role != Leader then
      var t := s.(electionElapsed := s.electionElapsed + 1);
      if t.electionElapsed >= t.electionTimeout then StartElection(cfg, t, timeout) else t
    else
      var t := if s.heartbeatElapsed + 1 >= cfg.heartbeatTicks
               then s.(heartbeatElapsed := 0, outbox := s.outbox + Heartbeats(cfg, s.term, |cfg.peers|))
               else s.(heartbeatElapsed := s.heartbeatElapsed + 1);
      if HasQuorum(cfg, t) then t.(quorumMissTicks := 0)
      else
        var u := t.(quorumMissTicks := t.quorumMissTicks + 1);
        if u.quorumMissTicks >= cfg.quorumLossTicks then BecomeFollower(u, u.term) else u
  }

  /** One tick: drain the inbox, then advance the timers. The outbox is sent afterwards. */
  function Tick(cfg: Config, s: NodeState, inbox: seq<Message>, timeout: int): (t: NodeState)
    requires Allocated(s)
    ensures Allocated(t)
  {
    StepTimers(cfg, HandleAll(cfg, s.(tick := s.tick + 1), inbox), timeout)
  }

  lemma NextIndex(i: nat, n: nat)
    requires i < n
    ensures (i + 1) % n == if i + 1 == n then 0 else i + 1
  {
  }

  // ----- the node -----

  class Node {
    const cfg: Config
    const members: seq<NodeId>

    var role: Role
    var currentTerm: nat
    var votedFor: NodeId
    var leaderId: NodeId
    var electionTimeout: int
    var electionElapsed: int
    var votes: Option<set<NodeId>>
    var heartbeatElapsed: int
    var acks: Option<map<NodeId, nat>>
    var quorumMissTicks: int
    var tick: nat
    var inbox: seq<Message>
    var outbox: seq<Message>
    var rrIndex: int
    var nodeLoad: map<NodeId, nat>

    ghost function View(): NodeState
      reads this
    {
      NodeState(role, currentTerm, votedFor, leaderId, electionTimeout, electionElapsed, votes,
                heartbeatElapsed, acks, quorumMissTicks, tick, outbox)
    }

    ghost predicate Valid()
      reads this
    {
      Allocated(View())
    }

    /** Non-positive timing fields fall back to the defaults. */
    constructor (id: NodeId, peers: seq<NodeId>, heartbeatTicks: int, quorumLossTicks: int, quorumAckTicks: int,
                 timeout: int)
      ensures cfg.id == id && cfg.peers == peers
      ensures cfg.heartbeatTicks == if heartbeatTicks > 0 then heartbeatTicks else 1
      ensures cfg.quorumLossTicks == if quorumLossTicks > 0 then quorumLossTicks else 5
      ensures cfg.quorumAckTicks == if quorumAckTicks > 0 then quorumAckTicks else 3
      ensures Text.InOrder(members) && multiset(members) == multiset([id] + peers)
      ensures Valid() && View() == Fresh(timeout) && inbox == []
      ensures role == Follower && currentTerm == 0 && votedFor == "" && leaderId == "" && outbox == []
      ensures electionTimeout == timeout && electionElapsed == 0 && tick == 0 && votes.None? && acks.None?
      ensures 0 <= rrIndex < |members| && RoundRobin()
    {
      cfg := Config(id, peers, OrDefault(heartbeatTicks, 1), OrDefault(quorumLossTicks, 5),
                    OrDefault(quorumAckTicks, 3));
      var sorted := Text.SortList([id] + peers);
      assert |multiset(sorted)| == |[id] + peers|;
      members := sorted;
      role, currentTerm, votedFor, leaderId := Follower, 0, "", "";
      electionTimeout, electionElapsed := timeout, 0;
      votes, acks := None, None;
      heartbeatElapsed, quorumMissTicks, tick := 0, 0, 0;
      inbox, outbox := [], [];
      rrIndex, nodeLoad := |sorted| - 1, map[];
    }

    method Receive(m: Message)
      modifies this`inbox
      ensures inbox == old(inbox) + [m]
    {
      inbox := inbox + [m];
    }

    /** Drains the inbox, advances the timers, and hands over the messages to send. */
    method TickOnce(timeout: int) returns (sent: seq<Message>)
      requires Valid() && outbox == []
      modifies `role, `currentTerm, `votedFor, `leaderId, `electionElapsed, `votes, `acks, `quorumMissTicks,
               `heartbeatElapsed, `electionTimeout, `tick, `inbox, `outbox
      ensures Valid() && inbox == [] && outbox == []
      ensures var t := Tick(cfg, old(View()), old(inbox), timeout);
              sent == t.outbox && View() == t.(outbox := [])
    {
      Process(timeout);
      sent := outbox;
      outbox := [];
    }

    method Process(timeout: int)
      requires Valid()
      modifies `role, `currentTerm, `votedFor, `leaderId, `electionElapsed, `votes, `acks, `quorumMissTicks,
               `heartbeatElapsed, `electionTimeout, `tick, `inbox, `outbox
      ensures inbox == [] && View() == Tick(cfg, old(View()), old(inbox), timeout)
    {
      hide HandleAll, StepTimers;
      tick := tick + 1;
      var queue := inbox;
      inbox := [];
      HandleMessages(queue);
      StepTimersNow(timeout);
    }

    method HandleMessages(queue: seq<Message>)
      requires Valid()
      modifies `role, `currentTerm, `votedFor, `leaderId, `electionElapsed, `votes, `acks, `quorumMissTicks,
               `heartbeatElapsed, `outbox
      ensures Valid() && View() == HandleAll(cfg, old(View()), queue)
    {
      hide Handle;
      var k := 0;
      while k < |queue|
        invariant 0 <= k <= |queue| && Valid()
        invariant View() == HandleAll(cfg, old(View()), queue[..k])
      {
        assert queue[..k + 1][..k] == queue[..k];
        HandleMessage(queue[k]);
        k := k + 1;
      }
      assert queue[..k] == queue;
    }

    method HandleMessage(m: Message)
      requires Valid()
      modifies `role, `currentTerm, `votedFor, `leaderId, `electionElapsed, `votes, `acks, `quorumMissTicks,
               `heartbeatElapsed, `outbox
      ensures Valid() && View() == Handle(cfg, old(View()), m)
    {
      match m.kind
      case RequestVote => OnRequestVote(m);
      case RequestVoteResp => OnRequestVoteResp(m);
      case AppendEntries => OnAppendEntries(m);
      case AppendEntriesResp => OnAppendEntriesResp(m);
    }

    method OnRequestVote(m: Message)
      requires Valid()
      modifies `role, `currentTerm, `votedFor, `leaderId, `electionElapsed, `outbox
      ensures View() == HandleRequestVote(cfg, old(View()), m)
    {
      if m.term > currentTerm {
        currentTerm, role, votedFor, leaderId := m.term, Follower, "", "";
      }
      var granted := false;
      if m.term == currentTerm && (votedFor == "" || votedFor == m.from) {
        votedFor, leaderId, electionElapsed := m.from, "", 0;
        granted := true;
      }
      outbox := outbox + [Message(RequestVoteResp, currentTerm, cfg.id, m.from, granted, false, "")];
    }

    method OnRequestVoteResp(m: Message)
      requires Valid()
      modifies `role, `currentTerm, `votedFor, `leaderId, `electionElapsed, `votes, `acks, `quorumMissTicks,
               `heartbeatElapsed
      ensures View() == HandleRequestVoteResp(cfg, old(View()), m)
    {
      if m.term > currentTerm {
        BecomeFollowerNow(m.term);
        return;
      }
      if role != Candidate || m.term != currentTerm || !m.granted { return; }
      votes := Some(votes.value + {m.from});
      if |votes.value| >= cfg.Majority() {
        BecomeLeaderNow();
      }
    }

    method OnAppendEntries(m: Message)
      requires Valid()
      modifies `role, `currentTerm, `votedFor, `leaderId, `electionElapsed, `outbox
      ensures View() == HandleAppendEntries(cfg, old(View()), m)
    {
      if m.term < currentTerm {
        outbox := outbox + [Message(AppendEntriesResp, currentTerm, cfg.id, m.from, false, false, "")];
        return;
      }
      if m.term > currentTerm {
        currentTerm, votedFor := m.term, "";
      }
      role, leaderId, electionElapsed := Follower, m.leaderId, 0;
      outbox := outbox + [Message(AppendEntriesResp, currentTerm, cfg.id, m.leaderId, false, true, "")];
    }

    method OnAppendEntriesResp(m: Message)
      requires Valid()
      modifies `role, `currentTerm, `votedFor, `leaderId, `electionElapsed, `votes, `acks
      ensures View() == HandleAppendEntriesResp(old(View()), m)
    {
      if m.term > currentTerm {
        BecomeFollowerNow(m.term);
        return;
      }
      if role != Leader || m.term != currentTerm { return; }
      if m.success {
        acks := Some(acks.value[m.from := tick]);
      }
    }

    method BecomeFollowerNow(term: nat)
      modifies `role, `currentTerm, `votedFor, `leaderId, `electionElapsed, `votes, `acks
      ensures View() == BecomeFollower(old(View()), term)
    {
      role, currentTerm, leaderId, votedFor := Follower, term, "", "";
      votes, acks, electionElapsed := None, None, 0;
    }

    method BecomeLeaderNow()
      modifies `role, `leaderId, `votedFor, `acks, `quorumMissTicks, `heartbeatElapsed
      ensures View() == BecomeLeader(cfg, old(View()))
    {
      role, leaderId, votedFor := Leader, cfg.id, cfg.id;
      acks, quorumMissTicks := Some(OwnAck(cfg, tick)), 0;
      heartbeatElapsed := cfg.heartbeatTicks;
    }

    method StepTimersNow(timeout: int)
      requires Valid()
      modifies `role, `currentTerm, `votedFor, `leaderId, `electionElapsed, `votes, `acks, `quorumMissTicks,
               `heartbeatElapsed, `electionTimeout, `outbox
      ensures View() == StepTimers(cfg, old(View()), timeout)
    {
      if role != Leader {
        electionElapsed := electionElapsed + 1;
        if electionElapsed >= electionTimeout {
          StartElectionNow(timeout);
        }
      } else {
        heartbeatElapsed := heartbeatElapsed + 1;
        if heartbeatElapsed >= cfg.heartbeatTicks {
          BroadcastHeartbeat();
          heartbeatElapsed := 0;
        }
        var quorum := CheckQuorum();
        if quorum {
          quorumMissTicks := 0;
        } else {
          quorumMissTicks := quorumMissTicks + 1;
          if quorumMissTicks >= cfg.quorumLossTicks {
            BecomeFollowerNow(currentTerm);
          }
        }
      }
    }

    method StartElectionNow(timeout: int)
      modifies `role, `currentTerm, `votedFor, `leaderId, `electionElapsed, `votes, `acks, `quorumMissTicks,
               `heartbeatElapsed, `electionTimeout, `outbox
      ensures View() == StartElection(cfg, old(View()), timeout)
    {
      hide Requests, OwnAck;
      role, currentTerm := Candidate, currentTerm + 1;
      votedFor, leaderId, votes := cfg.id, "", Some({cfg.id});
      electionTimeout, electionElapsed := timeout, 0;
      RequestVotes();
      if |votes.value| >= cfg.Majority() {
        BecomeLeaderNow();
      }
    }

    method RequestVotes()
      modifies this`outbox
      ensures outbox == old(outbox) + Requests(cfg, currentTerm, |cfg.peers|)
    {
      var k := 0;
      while k < |cfg.peers|
        invariant 0 <= k <= |cfg.peers|
        invariant outbox == old(outbox) + Requests(cfg, currentTerm, k)
      {
        var request := Message(RequestVote, currentTerm, cfg.id, cfg.peers[k], false, false, "");
        assert Requests(cfg, currentTerm, k + 1) == Requests(cfg, currentTerm, k) + [request];
        outbox := outbox + [request];
        k := k + 1;
      }
    }

    method BroadcastHeartbeat()
      modifies this`outbox
      ensures outbox == old(outbox) + Heartbeats(cfg, currentTerm, |cfg.peers|)
    {
      var k := 0;
      while k < |cfg.peers|
        invariant 0 <= k <= |cfg.peers|
        invariant outbox == old(outbox) + Heartbeats(cfg, currentTerm, k)
      {
        var beat := Message(AppendEntries, currentTerm, cfg.id, cfg.peers[k], false, false, cfg.id);
        assert Heartbeats(cfg, currentTerm, k + 1) == Heartbeats(cfg, currentTerm, k) + [beat];
        outbox := outbox + [beat];
        k := k + 1;
      }
    }

    method CheckQuorum() returns (quorum: bool)
      ensures quorum == HasQuorum(cfg, View())
    {
      var count := 1;
      var k := 0;
      while k < |cfg.peers|
        invariant 0 <= k <= |cfg.peers|
        invariant count == 1 + CountFresh(cfg, View(), k)
      {
        var peer := cfg.peers[k];
        if acks.Some? && peer in acks.value && acks.value[peer] <= tick
          && tick - acks.value[peer] <= cfg.quorumAckTicks {
          count := count + 1;
        }
        k := k + 1;
      }
      return count >= cfg.Majority();
    }

    // ----- work distribution -----

    function Load(member: NodeId): nat
      reads this
    {
      if member in nodeLoad then nodeLoad[member] else 0
    }

    /** Members up to the last one served have one item more than the others. */
    ghost predicate RoundRobin()
      reads this
    {
      && 0 <= rrIndex < |members|
      && var last := |members| - 1;
      forall j :: 0 <= j < |members| ==>
        Load(members[j]) == Load(members[last]) + (if j <= rrIndex < last then 1 else 0)
    }

    ghost predicate NoRepeats() {
      forall i, j :: 0 <= i < j < |members| ==> members[i] != members[j]
    }

    /** Hands one item to the next member; only a leader may. Loads stay even where the members do not repeat. */
    method Assign() returns (target: Option<NodeId>)
      requires 0 <= rrIndex < |members|
      modifies this`rrIndex, this`nodeLoad
      ensures 0 <= rrIndex < |members|
      ensures target.Some? <==> role == Leader
      ensures target.None? ==> rrIndex == old(rrIndex) && nodeLoad == old(nodeLoad)
      ensures target.Some? ==>
              && rrIndex == (if old(rrIndex) + 1 == |members| then 0 else old(rrIndex) + 1)
              && target.value == members[rrIndex]
              && nodeLoad == old(nodeLoad)[target.value := old(Load(target.value)) + 1]
      ensures NoRepeats() && old(RoundRobin()) ==>
              && RoundRobin()
              && forall i, j :: 0 <= i < |members| && 0 <= j < |members| ==> Load(members[i]) <= Load(members[j]) + 1
    {
      if role != Leader { return None; }
      NextIndex(rrIndex, |members|);
      rrIndex := (rrIndex + 1) % |members|;
      var member := members[rrIndex];
      nodeLoad := nodeLoad[member := Load(member) + 1];
      assert NoRepeats() ==>
          forall j :: 0 <= j < |members| && j != rrIndex ==> Load(members[j]) == old(Load(members[j]));
      return Some(member);
    }
  }
}
