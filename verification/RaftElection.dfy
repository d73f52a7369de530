/**
 How elections begin, are won and become known: what every exchange of messages between two nodes leaves behind,
 when exactly a silent follower stands for election and a candidate wins, and whom a node may call its leader.
 */
module RaftElection {
  import opened Wrappers
  import opened RaftNode
  import opened RaftSafety
  import opened RaftStepDown
  import opened RaftTenure

  // ----- terms -----

  /** Whatever it says, a message of a newer term makes its receiver a follower of that term. */
  lemma NewerTermUnseats(cfg: Config, s: NodeState, m: Message)
    requires Allocated(s) && m.term > s.term
    ensures var t := Handle(cfg, s, m);
            && t.role == Follower && t.term == m.term && t.electionElapsed == 0
            && t.votedFor == (if m.kind == RequestVote then m.from else "")
            && t.leaderId == (if m.kind == AppendEntries then m.leaderId else "")
  {
  }

  /** A message of an older term changes nothing; a request of one is refused, and told the newer term. */
  lemma OlderTermRefused(cfg: Config, s: NodeState, m: Message)
    requires Allocated(s) && m.term < s.term
    ensures Handle(cfg, s, m).(outbox := s.outbox) == s
    ensures Handle(cfg, s, m).outbox == s.outbox +
            match m.kind
            case RequestVote => [Message(RequestVoteResp, s.term, cfg.id, m.from, false, false, "")]
            case AppendEntries => [Message(AppendEntriesResp, s.term, cfg.id, m.from, false, false, "")]
            case _ => []
  {
    assert s.outbox + [] == s.outbox;
  }

  lemma HandleNeverGoesBack(cfg: Config, s: NodeState, m: Message)
    requires Allocated(s)
    ensures Handle(cfg, s, m).term >= s.term
  {
  }

  lemma {:induction false} HandleAllNeverGoesBack(cfg: Config, s: NodeState, inbox: seq<Message>)
    requires Allocated(s)
    ensures HandleAll(cfg, s, inbox).term >= s.term
    decreases |inbox|
  {
    hide Handle;
    if inbox != [] {
      var n := |inbox| - 1;
      HandleAllNeverGoesBack(cfg, s, inbox[..n]);
      HandleNeverGoesBack(cfg, HandleAll(cfg, s, inbox[..n]), inbox[n]);
    }
  }

  lemma TickNeverGoesBack(cfg: Config, s: NodeState, inbox: seq<Message>, timeout: int)
    requires Allocated(s)
    ensures Tick(cfg, s, inbox, timeout).term >= s.term
  {
    hide HandleAll, HasQuorum;
    HandleAllNeverGoesBack(cfg, s.(tick := s.tick + 1), inbox);
  }

  // ----- one exchange between two nodes -----

  /** The answer a message draws is the last thing its receiver has to send. */
  function Answer(s: NodeState): Message
    requires s.outbox != []
  {
    s.outbox[|s.outbox| - 1]
  }

  /**
   A heartbeat and its answer: a peer of no newer term follows the leader from then on, waits anew and counts as
   heard from when its answer arrives; a peer of a newer term unseats the leader.
   */
  lemma HeartbeatExchange(leader: Config, peer: Config, f: NodeState, term: nat, later: NodeState)
    requires Allocated(f) && Allocated(later) && later.role == Leader && later.term == term
    ensures var heartbeat := Message(AppendEntries, term, leader.id, peer.id, false, false, leader.id);
            var g := Handle(peer, f, heartbeat);
            && g.outbox != [] && g.outbox[..|g.outbox| - 1] == f.outbox && Answer(g).to == leader.id
            && var back := Handle(leader, later, Answer(g));
            if f.term <= term
            then && g.role == Follower && g.term == term && g.leaderId == leader.id && g.electionElapsed == 0
                 && (f.term == term ==> g.votedFor == f.votedFor)
                 && Answer(g) == Message(AppendEntriesResp, term, peer.id, leader.id, false, true, "")
                 && back == later.(acks := Some(later.acks.value[peer.id := later.tick]))
            else && g.(outbox := f.outbox) == f
                 && back.role == Follower && back.term == f.term && back.votedFor == "" && back.leaderId == ""
  {
    var heartbeat := Message(AppendEntries, term, leader.id, peer.id, false, false, leader.id);
    assert Handle(peer, f, heartbeat).outbox[..|f.outbox|] == f.outbox;
  }

  /**
   A request for a vote and its answer: a peer of an older term, or of this one with its vote free or already the
   candidate's, gives it and waits anew, and the vote is counted; a peer of a newer term unseats the candidate.
   */
  lemma VoteExchange(candidate: Config, peer: Config, f: NodeState, term: nat, later: NodeState)
    requires Allocated(f) && Allocated(later) && later.role == Candidate && later.term == term
    ensures var request := Message(RequestVote, term, candidate.id, peer.id, false, false, "");
            var g := Handle(peer, f, request);
            var free := f.term < term || (f.term == term && f.votedFor in {"", candidate.id});
            && g.outbox != [] && g.outbox[..|g.outbox| - 1] == f.outbox && Answer(g).to == candidate.id
            && Answer(g).granted == free
            && (free ==> g.term == term && g.votedFor == candidate.id && g.leaderId == "" && g.electionElapsed == 0)
            && (!free ==> g.(outbox := f.outbox) == f)
            && var back := Handle(candidate, later, Answer(g));
               if free then back.term == term && back.votes == Some(later.votes.value + {peer.id})
               else if f.term > term then back.role == Follower && back.term == f.term && back.votedFor == ""
               else back == later
  {
    var request := Message(RequestVote, term, candidate.id, peer.id, false, false, "");
    assert Handle(peer, f, request).outbox[..|f.outbox|] == f.outbox;
  }

  // ----- winning -----

  predicate IsVote(m: Message, term: nat) {
    IsGrant(m) && m.term == term
  }

  function Voters(inbox: seq<Message>, term: nat): set<NodeId> {
    set m | m in inbox && IsVote(m, term) :: m.from
  }

  /** What a candidate has become once these voters have been heard: the leader as soon as they are a majority. */
  predicate Polled(cfg: Config, s: NodeState, t: NodeState, voters: set<NodeId>) {
    && t.term == s.term && t.votedFor == cfg.id && Allocated(t) && s.votes.Some?
    && if |s.votes.value + voters| >= cfg.Majority()
       then t.role == Leader && t.leaderId == cfg.id && t.heartbeatElapsed == cfg.heartbeatTicks
       else t.role == Candidate && t.votes == Some(s.votes.value + voters)
  }

  lemma HandlePolls(cfg: Config, s: NodeState, t: NodeState, voters: set<NodeId>, m: Message)
    requires cfg.id != "" && Polled(cfg, s, t, voters) && Harmless(m, s.term)
    requires m.kind == RequestVote ==> m.from != cfg.id
    ensures Polled(cfg, s, Handle(cfg, t, m), voters + if IsVote(m, s.term) then {m.from} else {})
  {
    var more := voters + if IsVote(m, s.term) then {m.from} else {};
    FewerSupporters(s.votes.value + voters, s.votes.value + more);
    if IsVote(m, s.term) {
      assert s.votes.value + more == s.votes.value + voters + {m.from};
    } else {
      assert more == voters;
    }
  }

  /** A candidate that meets no newer term and no leader wins exactly when the votes it receives make a majority. */
  lemma {:induction false} WinsExactly(cfg: Config, s: NodeState, inbox: seq<Message>)
    requires cfg.id != "" && Quiet(inbox, s.term)
    requires forall m :: m in inbox && m.kind == RequestVote ==> m.from != cfg.id
    requires s.role == Candidate && s.votes.Some? && s.votedFor == cfg.id && |s.votes.value| < cfg.Majority()
    ensures Polled(cfg, s, HandleAll(cfg, s, inbox), Voters(inbox, s.term))
    decreases |inbox|
  {
    hide Handle, Harmless, IsVote, Polled, Voters;
    VotersOf(inbox, s.term);
    if inbox == [] {
      PolledNobody(cfg, s);
    } else {
      var n := |inbox| - 1;
      WinsExactly(cfg, s, inbox[..n]);
      HandlePolls(cfg, s, HandleAll(cfg, s, inbox[..n]), Voters(inbox[..n], s.term), inbox[n]);
    }
  }

  lemma VotersOf(inbox: seq<Message>, term: nat)
    ensures inbox == [] ==> Voters(inbox, term) == {}
    ensures inbox != [] ==>
            var n := |inbox| - 1;
            Voters(inbox, term) == Voters(inbox[..n], term) + if IsVote(inbox[n], term) then {inbox[n].from} else {}
  {
    hide IsVote;
    if inbox != [] { assert inbox == inbox[..|inbox| - 1] + [inbox[|inbox| - 1]]; }
  }

  lemma PolledNobody(cfg: Config, s: NodeState)
    requires s.role == Candidate && s.votes.Some? && s.votedFor == cfg.id && |s.votes.value| < cfg.Majority()
    ensures Polled(cfg, s, s, {})
  {
    assert s.votes.value + {} == s.votes.value;
  }

  /** A new candidacy: the next term, its own vote, a fresh wait, a request to each peer; alone, it leads at once. */
  lemma StandsForElection(cfg: Config, s: NodeState, timeout: int)
    ensures var t := StartElection(cfg, s, timeout);
            && t.term == s.term + 1 && t.votedFor == cfg.id && t.votes == Some({cfg.id})
            && t.electionTimeout == timeout && t.electionElapsed == 0
            && s.outbox <= t.outbox && |t.outbox| == |s.outbox| + |cfg.peers|
            && (forall k :: 0 <= k < |cfg.peers| ==>
                  t.outbox[|s.outbox| + k] == Message(RequestVote, s.term + 1, cfg.id, cfg.peers[k], false, false, ""))
            && (if cfg.peers == [] then t.role == Leader && t.leaderId == cfg.id
                else t.role == Candidate && t.leaderId == "" && |{cfg.id}| < cfg.Majority())
  {
  }

  /** A leader elected by what it receives on a tick announces itself to every peer on that tick. */
  lemma WinnerAnnounces(cfg: Config, s: NodeState, inbox: seq<Message>, timeout: int, p: NodeId)
    requires cfg.id != "" && Quiet(inbox, s.term)
    requires forall m :: m in inbox && m.kind == RequestVote ==> m.from != cfg.id
    requires s.role == Candidate && s.votes.Some? && s.votedFor == cfg.id && |s.votes.value| < cfg.Majority()
    requires |s.votes.value + Voters(inbox, s.term)| >= cfg.Majority() && p in cfg.peers
    ensures Message(AppendEntries, s.term, cfg.id, p, false, false, cfg.id) in Tick(cfg, s, inbox, timeout).outbox
  {
    hide HandleAll, HasQuorum, Quiet, Voters;
    var ticked := s.(tick := s.tick + 1);
    WinsExactly(cfg, ticked, inbox);
    var mid := HandleAll(cfg, ticked, inbox);
    HeartbeatToEach(cfg, mid.term, p);
    var t := Tick(cfg, s, inbox, timeout);
    assert t.outbox == mid.outbox + Heartbeats(cfg, mid.term, |cfg.peers|);
  }

  lemma HeartbeatToEach(cfg: Config, term: nat, p: NodeId)
    requires p in cfg.peers
    ensures Message(AppendEntries, term, cfg.id, p, false, false, cfg.id) in Heartbeats(cfg, term, |cfg.peers|)
  {
    var k :| 0 <= k < |cfg.peers| && cfg.peers[k] == p;
    assert Heartbeats(cfg, term, |cfg.peers|)[k].to == p;
  }

  // ----- waiting -----

  predicate IsHeartbeat(m: Message, term: nat) {
    m.kind == AppendEntries && m.term == term
  }

  /** A message that brings a follower no newer term and asks for no vote it could give. */
  predicate Uneventful(m: Message, term: nat, vote: NodeId) {
    m.term < term || (m.term == term && !(m.kind == RequestVote && (vote == "" || m.from == vote)))
  }

  predicate Beats(inbox: seq<Message>, term: nat) {
    exists m :: m in inbox && IsHeartbeat(m, term)
  }

  predicate Calm(inbox: seq<Message>, term: nat, vote: NodeId) {
    forall m :: m in inbox ==> Uneventful(m, term, vote)
  }

  /** Still the same follower, its wait begun anew if a heartbeat came. */
  predicate Waits(s: NodeState, t: NodeState, beaten: bool) {
    && t.role == Follower && t.term == s.term && t.votedFor == s.votedFor && t.electionTimeout == s.electionTimeout
    && t.electionElapsed == if beaten then 0 else s.electionElapsed
  }

  lemma HandleUneventful(cfg: Config, s: NodeState, t: NodeState, beaten: bool, m: Message)
    requires Allocated(t) && Waits(s, t, beaten) && Uneventful(m, s.term, s.votedFor)
    ensures Waits(s, Handle(cfg, t, m), beaten || IsHeartbeat(m, s.term))
  {
  }

  lemma {:induction false} HandleAllCalm(cfg: Config, s: NodeState, inbox: seq<Message>)
    requires Allocated(s) && s.role == Follower && Calm(inbox, s.term, s.votedFor)
    ensures Waits(s, HandleAll(cfg, s, inbox), Beats(inbox, s.term))
    decreases |inbox|
  {
    hide Handle, Uneventful, IsHeartbeat, Waits;
    if inbox == [] {
      WaitsOn(s);
    } else {
      var n := |inbox| - 1;
      assert inbox == inbox[..n] + [inbox[n]];
      HandleAllCalm(cfg, s, inbox[..n]);
      HandleUneventful(cfg, s, HandleAll(cfg, s, inbox[..n]), Beats(inbox[..n], s.term), inbox[n]);
      BeatsNext(inbox[..n], inbox[n], s.term);
    }
  }

  lemma WaitsOn(s: NodeState)
    requires s.role == Follower
    ensures Waits(s, s, false)
  {
  }

  lemma BeatsNext(inbox: seq<Message>, m: Message, term: nat)
    ensures Beats(inbox + [m], term) <==> Beats(inbox, term) || IsHeartbeat(m, term)
  {
    hide IsHeartbeat;
    assert m in inbox + [m];
    if Beats(inbox, term) {
      var h :| h in inbox && IsHeartbeat(h, term);
      assert h in inbox + [m];
    }
  }

  /** The ticks since the last of these that brought a heartbeat, that one included. */
  function Waited(s: NodeState, inputs: seq<TickInput>): int
    decreases |inputs|
  {
    if inputs == [] then s.electionElapsed
    else if Beats(inputs[|inputs| - 1].inbox, s.term) then 1
    else Waited(s, inputs[..|inputs| - 1]) + 1
  }

  /** At no point of these ticks has the wait reached the election timeout. */
  predicate Patient(s: NodeState, inputs: seq<TickInput>) {
    forall n :: 0 < n <= |inputs| ==> Waited(s, inputs[..n]) < s.electionTimeout
  }

  predicate WaitsStill(s: NodeState, t: NodeState, inputs: seq<TickInput>) {
    && t.role == Follower && t.term == s.term && t.votedFor == s.votedFor && t.electionTimeout == s.electionTimeout
    && t.electionElapsed == Waited(s, inputs)
  }

  lemma TickOfFollower(cfg: Config, s: NodeState, t: NodeState, inputs: seq<TickInput>, last: TickInput)
    requires Allocated(t) && WaitsStill(s, t, inputs) && Calm(last.inbox, s.term, s.votedFor)
    ensures var u := Tick(cfg, t, last.inbox, last.timeout);
            if Waited(s, inputs + [last]) < s.electionTimeout then WaitsStill(s, u, inputs + [last])
            else u.term == s.term + 1
  {
    hide HandleAll, Calm, Beats;
    assert (inputs + [last])[..|inputs|] == inputs;
    HandleAllCalm(cfg, t.(tick := t.tick + 1), last.inbox);
  }

  lemma PatientNext(s: NodeState, inputs: seq<TickInput>)
    requires inputs != []
    ensures Patient(s, inputs) <==>
              Patient(s, inputs[..|inputs| - 1]) && Waited(s, inputs) < s.electionTimeout
  {
    hide Waited;
    var before := inputs[..|inputs| - 1];
    assert inputs[..|inputs|] == inputs;
    assert forall n :: 0 <= n < |inputs| ==> inputs[..n] == before[..n];
  }

  /**
   A follower that is brought no newer term and asked for no vote it could give stands for election exactly when its
   election timeout passes without a heartbeat of its term; until then it is the same follower, with the same vote.
   */
  lemma {:induction false} ElectsExactly(cfg: Config, s: NodeState, inputs: seq<TickInput>)
    requires Allocated(s) && s.role == Follower
    requires forall k :: 0 <= k < |inputs| ==> Calm(inputs[k].inbox, s.term, s.votedFor)
    ensures var t := Ticks(cfg, s, inputs);
            if Patient(s, inputs) then WaitsStill(s, t, inputs) else t.term > s.term
    decreases |inputs|
  {
    hide Tick, Calm, Patient, Waited;
    if inputs == [] {
      WaitsFirst(s);
    } else {
      var init, last := inputs[..|inputs| - 1], inputs[|inputs| - 1];
      ElectsExactly(cfg, s, init);
      PatientNext(s, inputs);
      assert init + [last] == inputs;
      var mid := Ticks(cfg, s, init).(outbox := []);
      if Patient(s, init) {
        TickOfFollower(cfg, s, mid, init, last);
      } else {
        TickNeverGoesBack(cfg, mid, last.inbox, last.timeout);
      }
    }
  }

  lemma WaitsFirst(s: NodeState)
    requires s.role == Follower
    ensures WaitsStill(s, s, []) && Patient(s, [])
  {
  }

  /** A leader that loses its quorum steps down cleanly: it names nobody, has its vote back and waits a full timeout. */
  lemma StepDownWaits(cfg: Config, s: NodeState, timeout: int)
    requires s.role == Leader && StepTimers(cfg, s, timeout).role != Leader
    ensures var t := StepTimers(cfg, s, timeout);
            && t.role == Follower && t.term == s.term && t.votedFor == "" && t.leaderId == ""
            && t.electionElapsed == 0 && t.electionTimeout == s.electionTimeout && t.acks.None? && t.votes.None?
  {
    hide HasQuorum;
  }

  // ----- whom a node calls its leader -----

  /** A node has sent a heartbeat of this term in its own name. */
  ghost predicate Announced(sent: set<Message>, j: NodeId, term: nat) {
    exists m :: m in sent && m.kind == AppendEntries && m.from == j && m.term == term
  }

  /** A node that calls itself leader is one, and any other it names has announced itself in this very term. */
  ghost predicate NamesRightly(i: NodeId, s: NodeState, sent: set<Message>) {
    && (s.leaderId == i <==> s.role == Leader)
    && (s.role == Leader ==> s.votedFor == i)
    && (s.leaderId != "" && s.leaderId != i ==> Announced(sent, s.leaderId, s.term))
  }

  /** A heartbeat is sent by the leader it names, to another node. */
  predicate OwnHeartbeat(m: Message) {
    m.kind == AppendEntries ==> m.leaderId == m.from && m.to != m.from
  }

  predicate OwnHeartbeats(i: NodeId, outbox: seq<Message>) {
    forall k :: 0 <= k < |outbox| ==> OwnHeartbeat(outbox[k]) && outbox[k].from == i
  }

  lemma HandleNamesRightly(cfg: Config, s: NodeState, sent: set<Message>, m: Message)
    requires cfg.id != "" && Allocated(s) && NamesRightly(cfg.id, s, sent) && OwnHeartbeats(cfg.id, s.outbox)
    requires m in sent && OwnHeartbeat(m) && m.to == cfg.id && (m.kind == RequestVote ==> m.from != cfg.id)
    ensures var t := Handle(cfg, s, m); NamesRightly(cfg.id, t, sent) && OwnHeartbeats(cfg.id, t.outbox)
  {
  }

  lemma {:induction false} HandleAllNamesRightly(cfg: Config, s: NodeState, sent: set<Message>, inbox: seq<Message>)
    requires cfg.id != "" && Allocated(s) && NamesRightly(cfg.id, s, sent) && OwnHeartbeats(cfg.id, s.outbox)
    requires forall m :: m in inbox ==>
               m in sent && OwnHeartbeat(m) && m.to == cfg.id && (m.kind == RequestVote ==> m.from != cfg.id)
    ensures var t := HandleAll(cfg, s, inbox); NamesRightly(cfg.id, t, sent) && OwnHeartbeats(cfg.id, t.outbox)
    decreases |inbox|
  {
    hide Handle, NamesRightly, OwnHeartbeats, OwnHeartbeat;
    if inbox != [] {
      var n := |inbox| - 1;
      HandleAllNamesRightly(cfg, s, sent, inbox[..n]);
      HandleNamesRightly(cfg, HandleAll(cfg, s, inbox[..n]), sent, inbox[n]);
    }
  }

  lemma TimersNameRightly(cfg: Config, s: NodeState, sent: set<Message>, timeout: int)
    requires cfg.id != "" && cfg.id !in cfg.peers
    requires NamesRightly(cfg.id, s, sent) && OwnHeartbeats(cfg.id, s.outbox)
    ensures var t := StepTimers(cfg, s, timeout); NamesRightly(cfg.id, t, sent) && OwnHeartbeats(cfg.id, t.outbox)
  {
    hide HasQuorum;
  }

  ghost predicate AllNameRightly(c: Cluster) {
    && (forall m :: m in c.sent ==> OwnHeartbeat(m))
    && forall i :: i in c.nodes ==> NamesRightly(i, c.nodes[i], c.sent)
  }

  lemma TickNamesRightly(cfgs: map<NodeId, Config>, c: Cluster, i: NodeId, timeout: int)
    requires Membership(cfgs) && Inv(cfgs, c) && AllNameRightly(c) && Enabled(cfgs, c, Ticked(i, timeout))
    ensures var t := Tick(cfgs[i], c.nodes[i], c.inboxes[i], timeout);
            NamesRightly(i, t, c.sent) && OwnHeartbeats(i, t.outbox)
  {
    hide HandleAll, StepTimers, Safe, NamesRightly;
    var s := c.nodes[i].(tick := c.nodes[i].tick + 1);
    SameNaming(i, c.nodes[i], s, c.sent);
    InboxIsSent(cfgs, c, i);
    HandleAllNamesRightly(cfgs[i], s, c.sent, c.inboxes[i]);
    TimersNameRightly(cfgs[i], HandleAll(cfgs[i], s, c.inboxes[i]), c.sent, timeout);
  }

  lemma InboxIsSent(cfgs: map<NodeId, Config>, c: Cluster, i: NodeId)
    requires Inv(cfgs, c) && i in c.inboxes
    ensures forall m :: m in c.inboxes[i] ==> m in c.sent && m.to == i && (m.kind == RequestVote ==> m.from != i)
  {
  }

  lemma SameNaming(i: NodeId, s: NodeState, t: NodeState, sent: set<Message>)
    requires NamesRightly(i, s, sent)
    requires t.role == s.role && t.leaderId == s.leaderId && t.term == s.term && t.votedFor == s.votedFor
    ensures NamesRightly(i, t, sent)
  {
  }

  lemma MoreSent(i: NodeId, s: NodeState, sent: set<Message>, more: set<Message>)
    requires NamesRightly(i, s, sent) && sent <= more
    ensures NamesRightly(i, s, more)
  {
    if s.leaderId != "" && s.leaderId != i {
      var m :| m in sent && m.kind == AppendEntries && m.from == s.leaderId && m.term == s.term;
      assert m in more;
    }
  }

  lemma StepNamesRightly(cfgs: map<NodeId, Config>, c: Cluster, d: Cluster)
    requires Membership(cfgs) && Inv(cfgs, c) && AllNameRightly(c) && Steps(cfgs, c, d)
    ensures AllNameRightly(d)
  {
    hide Tick, NamesRightly, Inv, Membership, OwnHeartbeat;
    var e :| Enabled(cfgs, c, e) && d == Next(cfgs, c, e);
    if e.Ticked? {
      TickNamesRightly(cfgs, c, e.node, e.timeout);
      var t := Tick(cfgs[e.node], c.nodes[e.node], c.inboxes[e.node], e.timeout);
      forall i | i in d.nodes
        ensures NamesRightly(i, d.nodes[i], d.sent)
      {
        if i == e.node {
          SameNaming(i, t, d.nodes[i], c.sent);
        }
        MoreSent(i, d.nodes[i], c.sent, d.sent);
      }
      forall m | m in d.sent
        ensures OwnHeartbeat(m)
      {
        if m !in c.sent { var k :| 0 <= k < |t.outbox| && t.outbox[k] == m; }
      }
    }
  }

  /** In every run, whoever names a leader leads itself, or names a node that announced itself in that term. */
  lemma {:induction false} LeadersAreKnownRightly(cfgs: map<NodeId, Config>, trace: seq<Cluster>, n: nat)
    requires Membership(cfgs) && Run(cfgs, trace) && n < |trace|
    ensures AllNameRightly(trace[n])
    decreases n
  {
    hide Membership, Inv, Steps, AllNameRightly;
    if n == 0 {
      NobodyNamed(cfgs, trace[0]);
    } else {
      LeadersAreKnownRightly(cfgs, trace, n - 1);
      RunKeepsInv(cfgs, trace, n - 1);
      assert Steps(cfgs, trace[n - 1], trace[n - 1 + 1]);
      StepNamesRightly(cfgs, trace[n - 1], trace[n]);
    }
  }

  lemma NobodyNamed(cfgs: map<NodeId, Config>, c: Cluster)
    requires Membership(cfgs) && Init(cfgs, c)
    ensures AllNameRightly(c)
  {
  }
}
