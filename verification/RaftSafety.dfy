/**
 Election safety over every run of a cluster. Messages are never removed from the set of sent
 messages, so delivery in any order, any number of times, or never, is covered.
 */
module RaftSafety {
  import opened Wrappers
  import opened RaftNode

  // ----- what one node keeps -----

  predicate IsGrant(m: Message) {
    m.kind == RequestVoteResp && m.granted
  }

  /** Once a node has granted a vote its term never falls back; within that term it stays bound to its choice. */
  predicate Bound(g: Message, s: NodeState) {
    g.term <= s.term && (g.term == s.term ==> s.role == Follower && s.votedFor == g.to)
  }

  /** Vote counts of a node that is not a follower. */
  predicate Campaigning(cfg: Config, s: NodeState) {
    && Allocated(s)
    && (s.role != Follower ==> s.votedFor == cfg.id && s.votes.Some?)
    && (s.role == Leader ==> |s.votes.value| >= cfg.Majority())
  }

  /** A vote is the candidate's own, was counted before in the same term, or comes from the message just handled. */
  predicate Counted(cfg: Config, s: NodeState, handled: Option<Message>, t: NodeState, v: NodeId) {
    || v == cfg.id
    || (s.role != Follower && s.votes.Some? && s.term == t.term && v in s.votes.value)
    || (handled.Some? && IsGrant(handled.value) && handled.value.from == v && handled.value.term == t.term)
  }

  /** A message a node may emit while moving from s to t. */
  predicate Emitted(cfg: Config, s: NodeState, t: NodeState, m: Message) {
    && m.from == cfg.id
    && (m.kind == RequestVote ==> m.to in cfg.peers)
    && (IsGrant(m) ==>
          && m.to != "" && m.to != cfg.id
          && m.term == t.term && t.role == Follower && t.votedFor == m.to
          && (s.term == t.term ==> s.votedFor == "" || s.votedFor == m.to))
  }

  /** The whole of what safety needs from one handler or timer step. */
  ghost predicate SafeStep(cfg: Config, s: NodeState, handled: Option<Message>, t: NodeState) {
    && Campaigning(cfg, t)
    && s.outbox <= t.outbox
    && (forall k :: |s.outbox| <= k < |t.outbox| ==> Emitted(cfg, s, t, t.outbox[k]))
    && (forall g: Message :: g.to != "" && g.to != cfg.id && Bound(g, s) ==> Bound(g, t))
    && (t.role != Follower ==> forall v :: v in t.votes.value ==> Counted(cfg, s, handled, t, v))
  }

  lemma HandleIsSafe(cfg: Config, s: NodeState, m: Message)
    requires cfg.id != "" && Campaigning(cfg, s)
    requires m.kind == RequestVote ==> m.from != cfg.id && m.from != ""
    ensures SafeStep(cfg, s, Some(m), Handle(cfg, s, m))
  {
    hide SafeStep;
    match m.kind
    case RequestVote => RequestVoteIsSafe(cfg, s, m);
    case RequestVoteResp => RequestVoteRespIsSafe(cfg, s, m);
    case AppendEntries => AppendEntriesIsSafe(cfg, s, m);
    case AppendEntriesResp => AppendEntriesRespIsSafe(cfg, s, m);
  }

  lemma RequestVoteIsSafe(cfg: Config, s: NodeState, m: Message)
    requires cfg.id != "" && Campaigning(cfg, s) && m.from != cfg.id && m.from != ""
    ensures SafeStep(cfg, s, Some(m), HandleRequestVote(cfg, s, m))
  {
  }

  lemma RequestVoteRespIsSafe(cfg: Config, s: NodeState, m: Message)
    requires cfg.id != "" && Campaigning(cfg, s) && m.kind == RequestVoteResp
    ensures SafeStep(cfg, s, Some(m), HandleRequestVoteResp(cfg, s, m))
  {
  }

  lemma AppendEntriesIsSafe(cfg: Config, s: NodeState, m: Message)
    requires cfg.id != "" && Campaigning(cfg, s)
    ensures SafeStep(cfg, s, Some(m), HandleAppendEntries(cfg, s, m))
  {
  }

  lemma AppendEntriesRespIsSafe(cfg: Config, s: NodeState, m: Message)
    requires cfg.id != "" && Campaigning(cfg, s)
    ensures SafeStep(cfg, s, Some(m), HandleAppendEntriesResp(s, m))
  {
  }

  lemma TimersAreSafe(cfg: Config, s: NodeState, timeout: int)
    requires cfg.id != "" && Campaigning(cfg, s)
    ensures SafeStep(cfg, s, None, StepTimers(cfg, s, timeout))
  {
    hide HasQuorum;
  }

  // ----- the cluster -----

  /** Every node's state and inbox, and every message ever sent. */
  datatype Cluster = Cluster(nodes: map<NodeId, NodeState>, inboxes: map<NodeId, seq<Message>>, sent: set<Message>)

  /** One configuration per member; each lists all other members once. */
  ghost predicate Membership(cfgs: map<NodeId, Config>) {
    && "" !in cfgs
    && forall i :: i in cfgs ==>
         && cfgs[i].id == i
         && (forall p :: p in cfgs[i].peers <==> p in cfgs && p != i)
         && |cfgs[i].peers| + 1 == |cfgs|
  }

  ghost predicate Init(cfgs: map<NodeId, Config>, c: Cluster) {
    && c.nodes.Keys == c.inboxes.Keys == cfgs.Keys
    && c.sent == {}
    && forall i :: i in cfgs ==> c.inboxes[i] == [] && exists timeout: int :: c.nodes[i] == Fresh(timeout)
  }

  function Outgoing(s: NodeState): set<Message> {
    set m | m in s.outbox
  }

  datatype Event =
    | Deliver(to: NodeId, message: Message)
    | Ticked(node: NodeId, timeout: int)

  ghost predicate Enabled(cfgs: map<NodeId, Config>, c: Cluster, e: Event) {
    match e
    case Deliver(i, m) => i in cfgs && i in c.inboxes && m in c.sent && m.to == i
    case Ticked(i, _) => i in cfgs && i in c.nodes && i in c.inboxes && Allocated(c.nodes[i])
  }

  ghost function Next(cfgs: map<NodeId, Config>, c: Cluster, e: Event): Cluster
    requires Enabled(cfgs, c, e)
  {
    match e
    case Deliver(i, m) => c.(inboxes := c.inboxes[i := c.inboxes[i] + [m]])
    case Ticked(i, timeout) =>
      var t := Tick(cfgs[i], c.nodes[i], c.inboxes[i], timeout);
      Cluster(c.nodes[i := t.(outbox := [])], c.inboxes[i := []], c.sent + Outgoing(t))
  }

  /** A run: an initial cluster, then one enabled event after another. */
  ghost predicate Run(cfgs: map<NodeId, Config>, trace: seq<Cluster>) {
    && trace != []
    && Init(cfgs, trace[0])
    && forall k :: 0 <= k < |trace| - 1 ==> Steps(cfgs, trace[k], trace[k + 1])
  }

  ghost predicate Steps(cfgs: map<NodeId, Config>, c: Cluster, d: Cluster) {
    exists e :: Enabled(cfgs, c, e) && d == Next(cfgs, c, e)
  }

  // ----- the invariant -----

  ghost predicate SentSafely(cfgs: map<NodeId, Config>, nodes: map<NodeId, NodeState>, sent: set<Message>) {
    && (forall m :: m in sent ==> m.from in cfgs)
    && (forall m :: m in sent && m.kind == RequestVote ==> m.to != m.from)
    && (forall g :: g in sent && IsGrant(g) ==>
          g.to != "" && g.to != g.from && g.from in nodes && Bound(g, nodes[g.from]))
    && (forall g, h :: g in sent && h in sent && IsGrant(g) && IsGrant(h) && g.from == h.from && g.term == h.term
          ==> g.to == h.to)
  }

  /** Every counted vote was granted by its voter in this term. */
  ghost predicate VotesBacked(i: NodeId, s: NodeState, sent: set<Message>) {
    s.role != Follower && s.votes.Some? ==>
      forall v :: v in s.votes.value ==> v == i || Granted(sent, v, i, s.term)
  }

  ghost predicate Granted(sent: set<Message>, voter: NodeId, candidate: NodeId, term: nat) {
    exists g :: g in sent && IsGrant(g) && g.from == voter && g.to == candidate && g.term == term
  }

  ghost predicate NodesSafe(cfgs: map<NodeId, Config>, nodes: map<NodeId, NodeState>, sent: set<Message>) {
    && nodes.Keys == cfgs.Keys
    && forall i :: i in nodes ==> Campaigning(cfgs[i], nodes[i]) && VotesBacked(i, nodes[i], sent)
  }

  ghost predicate Safe(cfgs: map<NodeId, Config>, nodes: map<NodeId, NodeState>, sent: set<Message>) {
    SentSafely(cfgs, nodes, sent) && NodesSafe(cfgs, nodes, sent)
  }

  ghost predicate Inv(cfgs: map<NodeId, Config>, c: Cluster) {
    && Safe(cfgs, c.nodes, c.sent)
    && c.inboxes.Keys == cfgs.Keys
    && (forall i :: i in c.nodes ==> c.nodes[i].outbox == [])
    && (forall i, k :: i in c.inboxes && 0 <= k < |c.inboxes[i]| ==>
          c.inboxes[i][k] in c.sent && c.inboxes[i][k].to == i)
  }

  /** A safe step of one node keeps the cluster safe. */
  lemma SafeStepKeepsSent(cfgs: map<NodeId, Config>, nodes: map<NodeId, NodeState>, sent: set<Message>,
                          i: NodeId, handled: Option<Message>, t: NodeState)
    requires Membership(cfgs) && Safe(cfgs, nodes, sent) && i in nodes
    requires Outgoing(nodes[i]) <= sent
    requires SafeStep(cfgs[i], nodes[i], handled, t)
    ensures SentSafely(cfgs, nodes[i := t], sent + Outgoing(t))
  {
    var s, sent', nodes' := nodes[i], sent + Outgoing(t), nodes[i := t];
    forall m | m in sent' && m !in sent
      ensures Emitted(cfgs[i], s, t, m)
    {
      var k :| 0 <= k < |t.outbox| && t.outbox[k] == m;
      assert forall n :: 0 <= n < |s.outbox| ==> s.outbox[n] in Outgoing(s) && t.outbox[n] == s.outbox[n];
    }
    forall g | g in sent' && IsGrant(g)
      ensures g.to != "" && g.to != g.from && g.from in nodes' && Bound(g, nodes'[g.from])
    {
    }
    forall g, h | g in sent' && h in sent' && IsGrant(g) && IsGrant(h) && g.from == h.from && g.term == h.term
      ensures g.to == h.to
    {
      if g in sent && h !in sent { assert Bound(g, s); }
      if h in sent && g !in sent { assert Bound(h, s); }
    }
  }

  lemma SafeStepKeepsNodes(cfgs: map<NodeId, Config>, nodes: map<NodeId, NodeState>, sent: set<Message>,
                           i: NodeId, handled: Option<Message>, t: NodeState)
    requires Membership(cfgs) && Safe(cfgs, nodes, sent) && i in nodes
    requires handled.Some? ==> handled.value in sent && handled.value.to == i
    requires SafeStep(cfgs[i], nodes[i], handled, t)
    ensures NodesSafe(cfgs, nodes[i := t], sent + Outgoing(t))
  {
    var s, sent' := nodes[i], sent + Outgoing(t);
    forall j | j in nodes
      ensures VotesBacked(j, nodes[j], sent')
    {
      if nodes[j].role != Follower {
        forall v | v in nodes[j].votes.value
          ensures v == j || Granted(sent', v, j, nodes[j].term)
        {
          if v != j { GrantedMonotone(sent, sent', v, j, nodes[j].term); }
        }
      }
    }
    if t.role != Follower {
      forall v | v in t.votes.value
        ensures v == i || Granted(sent', v, i, t.term)
      {
        assert Counted(cfgs[i], s, handled, t, v);
        if v != i && handled.Some? && IsGrant(handled.value) && handled.value.from == v
          && handled.value.term == t.term {
          assert Granted(sent', v, i, t.term);
        }
      }
    }
  }

  lemma GrantedMonotone(sent: set<Message>, sent': set<Message>, voter: NodeId, candidate: NodeId, term: nat)
    requires sent <= sent' && Granted(sent, voter, candidate, term)
    ensures Granted(sent', voter, candidate, term)
  {
  }

  /** Handling a queue of delivered messages keeps the cluster safe. */
  lemma {:induction false} HandleAllIsSafe(cfgs: map<NodeId, Config>, nodes: map<NodeId, NodeState>, sent: set<Message>,
                                           i: NodeId, s: NodeState, queue: seq<Message>)
    requires Membership(cfgs) && i in cfgs && i in nodes && Safe(cfgs, nodes[i := s], sent) && Outgoing(s) <= sent
    requires forall k :: 0 <= k < |queue| ==> queue[k] in sent && queue[k].to == i
    ensures var t := HandleAll(cfgs[i], s, queue);
            Safe(cfgs, nodes[i := t], sent + Outgoing(t)) && Campaigning(cfgs[i], t)
    decreases |queue|
  {
    hide Handle;
    if queue == [] {
      assert sent + Outgoing(s) == sent;
      assert nodes[i := s][i] == s;
    } else {
      var init, m := queue[..|queue| - 1], queue[|queue| - 1];
      HandleAllIsSafe(cfgs, nodes, sent, i, s, init);
      var mid := HandleAll(cfgs[i], s, init);
      HandleIsSafe(cfgs[i], mid, m);
      StepIsSafe(cfgs, nodes, sent + Outgoing(mid), i, mid, Some(m), Handle(cfgs[i], mid, m));
      OutboxGrows(sent, mid, Handle(cfgs[i], mid, m));
    }
  }

  lemma OutboxGrows(sent: set<Message>, s: NodeState, t: NodeState)
    requires s.outbox <= t.outbox
    ensures sent + Outgoing(s) + Outgoing(t) == sent + Outgoing(t)
  {
    forall m | m in Outgoing(s)
      ensures m in Outgoing(t)
    {
      var k :| 0 <= k < |s.outbox| && s.outbox[k] == m;
      assert t.outbox[k] == m;
    }
  }

  lemma StepIsSafe(cfgs: map<NodeId, Config>, nodes: map<NodeId, NodeState>, sent: set<Message>,
                   i: NodeId, s: NodeState, handled: Option<Message>, t: NodeState)
    requires Membership(cfgs) && i in nodes && Safe(cfgs, nodes[i := s], sent) && Outgoing(s) <= sent
    requires handled.Some? ==> handled.value in sent && handled.value.to == i
    requires SafeStep(cfgs[i], s, handled, t)
    ensures Safe(cfgs, nodes[i := t], sent + Outgoing(t))
  {
    hide SafeStep, SentSafely, NodesSafe, Membership;
    var at := nodes[i := s];
    SafeStepKeepsSent(cfgs, at, sent, i, handled, t);
    SafeStepKeepsNodes(cfgs, at, sent, i, handled, t);
    assert at[i := t] == nodes[i := t];
  }

  lemma TickKeepsInv(cfgs: map<NodeId, Config>, c: Cluster, i: NodeId, timeout: int)
    requires Membership(cfgs) && Inv(cfgs, c) && i in cfgs
    ensures Enabled(cfgs, c, Ticked(i, timeout)) && Inv(cfgs, Next(cfgs, c, Ticked(i, timeout)))
  {
    hide HandleAll, StepTimers, SafeStep, SentSafely, NodesSafe, Membership, Campaigning;
    MemberFacts(cfgs, c, i);
    var s := c.nodes[i].(tick := c.nodes[i].tick + 1);
    ClockIsSafe(cfgs, c, i, s);
    HandleAllIsSafe(cfgs, c.nodes, c.sent, i, s, c.inboxes[i]);
    var mid := HandleAll(cfgs[i], s, c.inboxes[i]);
    var t := StepTimers(cfgs[i], mid, timeout);
    TimersAreSafe(cfgs[i], mid, timeout);
    StepIsSafe(cfgs, c.nodes, c.sent + Outgoing(mid), i, mid, None, t);
    SafeStepGrows(cfgs[i], mid, t);
    OutboxGrows(c.sent, mid, t);
    FlushIsSafe(cfgs, c.nodes, c.sent + Outgoing(t), i, t);
  }

  lemma MemberFacts(cfgs: map<NodeId, Config>, c: Cluster, i: NodeId)
    requires Membership(cfgs) && Inv(cfgs, c) && i in cfgs
    ensures cfgs[i].id == i != "" && c.nodes.Keys == cfgs.Keys && Allocated(c.nodes[i])
  {
    assert Campaigning(cfgs[i], c.nodes[i]);
  }

  lemma SafeStepGrows(cfg: Config, s: NodeState, t: NodeState)
    requires SafeStep(cfg, s, None, t)
    ensures s.outbox <= t.outbox
  {
  }

  lemma ClockIsSafe(cfgs: map<NodeId, Config>, c: Cluster, i: NodeId, s: NodeState)
    requires Inv(cfgs, c) && i in c.nodes && s == c.nodes[i].(tick := s.tick)
    ensures Safe(cfgs, c.nodes[i := s], c.sent) && Outgoing(s) == {}
  {
  }

  lemma FlushIsSafe(cfgs: map<NodeId, Config>, nodes: map<NodeId, NodeState>, sent: set<Message>, i: NodeId,
                    t: NodeState)
    requires Safe(cfgs, nodes[i := t], sent) && i in nodes
    ensures Safe(cfgs, nodes[i := t.(outbox := [])], sent)
  {
    var u, before := t.(outbox := []), nodes[i := t];
    forall g | g in sent && IsGrant(g)
      ensures g.from in nodes && Bound(g, nodes[i := u][g.from])
    {
      assert Bound(g, before[g.from]);
    }
    forall j | j in nodes
      ensures Campaigning(cfgs[j], nodes[i := u][j]) && VotesBacked(j, nodes[i := u][j], sent)
    {
      assert VotesBacked(j, before[j], sent);
    }
  }

  lemma StepKeepsInv(cfgs: map<NodeId, Config>, c: Cluster, d: Cluster)
    requires Membership(cfgs) && Inv(cfgs, c) && Steps(cfgs, c, d)
    ensures Inv(cfgs, d) && c.sent <= d.sent
  {
    hide Tick, Safe, Membership;
    var e :| Enabled(cfgs, c, e) && d == Next(cfgs, c, e);
    match e
    case Deliver(i, m) =>
    case Ticked(i, timeout) => TickKeepsInv(cfgs, c, i, timeout);
  }

  lemma {:induction false} RunKeepsInv(cfgs: map<NodeId, Config>, trace: seq<Cluster>, k: nat)
    requires Membership(cfgs) && Run(cfgs, trace) && k < |trace|
    ensures Inv(cfgs, trace[k])
    decreases k
  {
    hide Steps;
    if k > 0 {
      RunKeepsInv(cfgs, trace, k - 1);
      assert Steps(cfgs, trace[k - 1], trace[k - 1 + 1]);
      StepKeepsInv(cfgs, trace[k - 1], trace[k]);
    }
  }

  // ----- election safety -----

  lemma MajoritiesMeet(members: set<NodeId>, a: set<NodeId>, b: set<NodeId>) returns (v: NodeId)
    requires a <= members && b <= members
    requires |a| >= |members| / 2 + 1 && |b| >= |members| / 2 + 1
    ensures v in a && v in b
  {
    assert |a + b| == |a| + |b| - |a * b|;
    SubsetSize(a + b, members);
    v :| v in a * b;
  }

  lemma {:induction false} SubsetSize(a: set<NodeId>, b: set<NodeId>)
    requires a <= b
    ensures |a| <= |b|
    decreases |a|
  {
    if a != {} {
      var x :| x in a;
      SubsetSize(a - {x}, b - {x});
    }
  }

  /** In a safe cluster no two nodes lead the same term. */
  lemma OneLeader(cfgs: map<NodeId, Config>, c: Cluster, i: NodeId, j: NodeId)
    requires Membership(cfgs) && Inv(cfgs, c) && i in c.nodes && j in c.nodes
    requires c.nodes[i].role == Leader && c.nodes[j].role == Leader && c.nodes[i].term == c.nodes[j].term
    ensures i == j
  {
    VotersAreMembers(cfgs, c, i);
    VotersAreMembers(cfgs, c, j);
    var v := MajoritiesMeet(cfgs.Keys, c.nodes[i].votes.value, c.nodes[j].votes.value);
    if v != i { var g :| g in c.sent && IsGrant(g) && g.from == v && g.to == i && g.term == c.nodes[i].term; }
    if v != j { var h :| h in c.sent && IsGrant(h) && h.from == v && h.to == j && h.term == c.nodes[j].term; }
  }

  lemma VotersAreMembers(cfgs: map<NodeId, Config>, c: Cluster, i: NodeId)
    requires Membership(cfgs) && Inv(cfgs, c) && i in c.nodes && c.nodes[i].role == Leader
    ensures c.nodes[i].votes.Some? && c.nodes[i].votes.value <= cfgs.Keys
    ensures |c.nodes[i].votes.value| >= |cfgs.Keys| / 2 + 1
  {
    assert Campaigning(cfgs[i], c.nodes[i]) && VotesBacked(i, c.nodes[i], c.sent);
    forall v | v in c.nodes[i].votes.value
      ensures v in cfgs
    {
    }
  }

  /** Election safety: at every point of every run, each term has at most one leader. */
  lemma ElectionSafety(cfgs: map<NodeId, Config>, trace: seq<Cluster>, k: nat, i: NodeId, j: NodeId)
    requires Membership(cfgs) && Run(cfgs, trace) && k < |trace|
    requires i in trace[k].nodes && trace[k].nodes[i].role == Leader
    requires j in trace[k].nodes && trace[k].nodes[j].role == Leader
    requires trace[k].nodes[i].term == trace[k].nodes[j].term
    ensures i == j
  {
    RunKeepsInv(cfgs, trace, k);
    OneLeader(cfgs, trace[k], i, j);
  }

  lemma {:induction false} SentGrows(cfgs: map<NodeId, Config>, trace: seq<Cluster>, k: nat, n: nat)
    requires Membership(cfgs) && Run(cfgs, trace) && k <= n < |trace|
    ensures trace[k].sent <= trace[n].sent
    decreases n
  {
    hide Inv, Membership, Steps;
    if k < n {
      SentGrows(cfgs, trace, k, n - 1);
      RunKeepsInv(cfgs, trace, n - 1);
      assert Steps(cfgs, trace[n - 1], trace[n - 1 + 1]);
      StepKeepsInv(cfgs, trace[n - 1], trace[n]);
    }
  }

  /** Over a whole run a node votes for at most one other candidate per term, and follows in that term from then on. */
  lemma VotesOncePerTerm(cfgs: map<NodeId, Config>, trace: seq<Cluster>, k: nat, n: nat, g: Message, h: Message)
    requires Membership(cfgs) && Run(cfgs, trace) && k <= n < |trace|
    requires g in trace[k].sent && IsGrant(g)
    requires h in trace[n].sent && IsGrant(h) && h.from == g.from && h.term == g.term
    ensures h.to == g.to
    ensures g.from in trace[n].nodes && Bound(g, trace[n].nodes[g.from])
  {
    RunKeepsInv(cfgs, trace, n);
    SentGrows(cfgs, trace, k, n);
  }

  /**
   Leaders of one term at different times: a second node leads the term exactly when the first one
   has granted it its own vote in that term. A leader that steps down for lack of a quorum forgets
   its vote, so this does happen; see RaftRerun.
   */
  lemma LaterLeader(cfgs: map<NodeId, Config>, trace: seq<Cluster>, k: nat, n: nat, i: NodeId, j: NodeId)
    requires Membership(cfgs) && Run(cfgs, trace) && k <= n < |trace|
    requires i in trace[k].nodes && trace[k].nodes[i].role == Leader
    requires j in trace[n].nodes && trace[n].nodes[j].role == Leader
    requires trace[k].nodes[i].term == trace[n].nodes[j].term
    ensures i != j <==> Granted(trace[n].sent, i, j, trace[n].nodes[j].term)
  {
    RunKeepsInv(cfgs, trace, k);
    RunKeepsInv(cfgs, trace, n);
    SentGrows(cfgs, trace, k, n);
    LaterLeaderIn(cfgs, trace[k], trace[n], i, j);
  }

  lemma LaterLeaderIn(cfgs: map<NodeId, Config>, c: Cluster, d: Cluster, i: NodeId, j: NodeId)
    requires Membership(cfgs) && Inv(cfgs, c) && Inv(cfgs, d) && c.sent <= d.sent
    requires i in c.nodes && c.nodes[i].role == Leader
    requires j in d.nodes && d.nodes[j].role == Leader
    requires c.nodes[i].term == d.nodes[j].term
    ensures i != j <==> Granted(d.sent, i, j, d.nodes[j].term)
  {
    VotersAreMembers(cfgs, c, i);
    VotersAreMembers(cfgs, d, j);
    var v := MajoritiesMeet(cfgs.Keys, c.nodes[i].votes.value, d.nodes[j].votes.value);
    hide NodesSafe, Membership;
    if v != i {
      assert v in c.nodes[i].votes.value && Granted(c.sent, v, i, c.nodes[i].term);
      var g :| g in c.sent && IsGrant(g) && g.from == v && g.to == i && g.term == c.nodes[i].term;
      assert Bound(g, d.nodes[v]);
      if v != j {
        var h :| h in d.sent && IsGrant(h) && h.from == v && h.to == j && h.term == d.nodes[j].term;
      }
    }
  }
}
