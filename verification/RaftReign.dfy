/**
 How long the reign of a leader binds it, over whole runs: a leader can vote for another node in its term only
 after a tick on which it stepped down for lack of a quorum, so a term whose leader never does has one leader.
 And the bounded step-down of RaftStepDown, for a leader inside a run.
 */
module RaftReign {
  import opened Wrappers
  import opened RaftNode
  import opened RaftSafety
  import opened RaftStepDown

  // ----- what keeps a leader's vote -----

  /** The guard of the step-down branch: no quorum, and missed for long enough with this tick. */
  predicate LosesQuorum(cfg: Config, s: NodeState) {
    s.role == Leader && !HasQuorum(cfg, s) && s.quorumMissTicks + 1 >= cfg.quorumLossTicks
  }

  /** In this term the node holds on to its own vote, and it has sent no vote of this term to another. */
  predicate Loyal(cfg: Config, s: NodeState, term: nat) {
    && (s.term > term || (s.term == term && s.votedFor == cfg.id))
    && forall k :: 0 <= k < |s.outbox| ==> !(IsGrant(s.outbox[k]) && s.outbox[k].term == term)
  }

  lemma HandleStaysLoyal(cfg: Config, s: NodeState, m: Message, term: nat)
    requires Allocated(s) && Loyal(cfg, s, term) && cfg.id != ""
    requires m.kind == RequestVote ==> m.from != cfg.id
    ensures Loyal(cfg, Handle(cfg, s, m), term)
  {
  }

  lemma {:induction false} HandleAllStaysLoyal(cfg: Config, s: NodeState, inbox: seq<Message>, term: nat)
    requires Allocated(s) && Loyal(cfg, s, term) && cfg.id != ""
    requires forall k :: 0 <= k < |inbox| && inbox[k].kind == RequestVote ==> inbox[k].from != cfg.id
    ensures Loyal(cfg, HandleAll(cfg, s, inbox), term)
    decreases |inbox|
  {
    hide Handle, Loyal;
    if inbox != [] {
      var n := |inbox| - 1;
      HandleAllStaysLoyal(cfg, s, inbox[..n], term);
      HandleStaysLoyal(cfg, HandleAll(cfg, s, inbox[..n]), inbox[n], term);
    }
  }

  lemma {:induction false} SameFresh(cfg: Config, s: NodeState, t: NodeState, n: nat)
    requires n <= |cfg.peers| && s.acks == t.acks && s.tick == t.tick
    ensures CountFresh(cfg, s, n) == CountFresh(cfg, t, n)
    decreases n
  {
    if n > 0 { SameFresh(cfg, s, t, n - 1); }
  }

  lemma TimersStayLoyal(cfg: Config, s: NodeState, timeout: int, term: nat)
    requires Loyal(cfg, s, term) && !(s.term == term && LosesQuorum(cfg, s))
    ensures Loyal(cfg, StepTimers(cfg, s, timeout), term)
  {
    hide CountFresh;
    var beaten := if s.heartbeatElapsed + 1 >= cfg.heartbeatTicks
                  then s.(heartbeatElapsed := 0, outbox := s.outbox + Heartbeats(cfg, s.term, |cfg.peers|))
                  else s.(heartbeatElapsed := s.heartbeatElapsed + 1);
    SameFresh(cfg, s, beaten, |cfg.peers|);
  }

  lemma TickStaysLoyal(cfg: Config, s: NodeState, inbox: seq<Message>, timeout: int, term: nat)
    requires Allocated(s) && Loyal(cfg, s, term) && cfg.id != ""
    requires forall k :: 0 <= k < |inbox| && inbox[k].kind == RequestVote ==> inbox[k].from != cfg.id
    requires var mid := HandleAll(cfg, s.(tick := s.tick + 1), inbox); !(mid.term == term && LosesQuorum(cfg, mid))
    ensures Loyal(cfg, Tick(cfg, s, inbox, timeout), term)
  {
    hide HandleAll, StepTimers, LosesQuorum;
    HandleAllStaysLoyal(cfg, s.(tick := s.tick + 1), inbox, term);
    TimersStayLoyal(cfg, HandleAll(cfg, s.(tick := s.tick + 1), inbox), timeout, term);
  }

  // ----- every message names its sender -----

  predicate Signed(cfg: Config, s: NodeState) {
    forall k :: 0 <= k < |s.outbox| ==> s.outbox[k].from == cfg.id
  }

  lemma HandleSigned(cfg: Config, s: NodeState, m: Message)
    requires Allocated(s) && Signed(cfg, s)
    ensures Signed(cfg, Handle(cfg, s, m))
  {
  }

  lemma {:induction false} HandleAllSigned(cfg: Config, s: NodeState, inbox: seq<Message>)
    requires Allocated(s) && Signed(cfg, s)
    ensures Signed(cfg, HandleAll(cfg, s, inbox))
    decreases |inbox|
  {
    hide Handle, Signed;
    if inbox != [] {
      var n := |inbox| - 1;
      HandleAllSigned(cfg, s, inbox[..n]);
      HandleSigned(cfg, HandleAll(cfg, s, inbox[..n]), inbox[n]);
    }
  }

  lemma TickSigned(cfg: Config, s: NodeState, inbox: seq<Message>, timeout: int)
    requires Allocated(s) && Signed(cfg, s)
    ensures Signed(cfg, Tick(cfg, s, inbox, timeout))
  {
    hide HandleAll, HasQuorum;
    HandleAllSigned(cfg, s.(tick := s.tick + 1), inbox);
  }

  // ----- over a run -----

  /** Between these two points of a run node i ticks, in this term, and steps down for lack of a quorum. */
  ghost predicate StepsDownAt(cfgs: map<NodeId, Config>, trace: seq<Cluster>, m: nat, i: NodeId, term: nat)
    requires m + 1 < |trace|
  {
    var c := trace[m];
    && (exists timeout :: Enabled(cfgs, c, Ticked(i, timeout)) && trace[m + 1] == Next(cfgs, c, Ticked(i, timeout)))
    && i in cfgs && i in c.nodes && i in c.inboxes && Allocated(c.nodes[i])
    && var mid := HandleAll(cfgs[i], c.nodes[i].(tick := c.nodes[i].tick + 1), c.inboxes[i]);
       mid.term == term && LosesQuorum(cfgs[i], mid)
  }

  ghost predicate HasVotedAway(c: Cluster, i: NodeId, term: nat) {
    exists g :: g in c.sent && IsGrant(g) && g.from == i && g.term == term
  }

  /** Node i holds on to its own vote of this term, and none of its votes of this term has been sent. */
  ghost predicate Reigns(cfgs: map<NodeId, Config>, c: Cluster, i: NodeId, term: nat) {
    i in cfgs && i in c.nodes && Loyal(cfgs[i], c.nodes[i], term) && !HasVotedAway(c, i, term)
  }

  lemma LeaderReigns(cfgs: map<NodeId, Config>, c: Cluster, i: NodeId)
    requires Membership(cfgs) && Inv(cfgs, c) && i in c.nodes && c.nodes[i].role == Leader
    ensures Reigns(cfgs, c, i, c.nodes[i].term)
  {
    assert Campaigning(cfgs[i], c.nodes[i]);
    forall g | g in c.sent && IsGrant(g) && g.from == i
      ensures g.term != c.nodes[i].term
    {
      assert Bound(g, c.nodes[i]);
    }
  }

  lemma TickReigns(cfgs: map<NodeId, Config>, c: Cluster, j: NodeId, timeout: int, i: NodeId, term: nat)
    requires Membership(cfgs) && Inv(cfgs, c) && j in cfgs && Enabled(cfgs, c, Ticked(j, timeout))
    requires Reigns(cfgs, c, i, term)
    requires i == j ==> var mid := HandleAll(cfgs[i], c.nodes[i].(tick := c.nodes[i].tick + 1), c.inboxes[i]);
                        !(mid.term == term && LosesQuorum(cfgs[i], mid))
    ensures Reigns(cfgs, Next(cfgs, c, Ticked(j, timeout)), i, term)
  {
    hide Tick, LosesQuorum, HandleAll, Safe;
    MemberFacts(cfgs, c, j);
    var t := Tick(cfgs[j], c.nodes[j], c.inboxes[j], timeout);
    TickSigned(cfgs[j], c.nodes[j], c.inboxes[j], timeout);
    if i == j {
      InboxFromOthers(cfgs, c, i);
      TickStaysLoyal(cfgs[i], c.nodes[i], c.inboxes[i], timeout, term);
    }
    forall g | g in Outgoing(t)
      ensures !(IsGrant(g) && g.from == i && g.term == term)
    {
      var k :| 0 <= k < |t.outbox| && t.outbox[k] == g;
    }
  }

  lemma InboxFromOthers(cfgs: map<NodeId, Config>, c: Cluster, i: NodeId)
    requires Inv(cfgs, c) && i in c.inboxes
    ensures forall k :: 0 <= k < |c.inboxes[i]| && c.inboxes[i][k].kind == RequestVote ==> c.inboxes[i][k].from != i
  {
  }

  lemma StepReigns(cfgs: map<NodeId, Config>, trace: seq<Cluster>, m: nat, i: NodeId, term: nat)
    requires Membership(cfgs) && m + 1 < |trace| && Inv(cfgs, trace[m]) && Steps(cfgs, trace[m], trace[m + 1])
    requires Reigns(cfgs, trace[m], i, term) && !StepsDownAt(cfgs, trace, m, i, term)
    ensures Reigns(cfgs, trace[m + 1], i, term)
  {
    hide Tick, LosesQuorum, HandleAll, Safe, Membership, Loyal;
    var e :| Enabled(cfgs, trace[m], e) && trace[m + 1] == Next(cfgs, trace[m], e);
    match e
    case Deliver(j, msg) =>
    case Ticked(j, timeout) => TickReigns(cfgs, trace[m], j, timeout, i, term);
  }

  lemma {:induction false} ReignLasts(cfgs: map<NodeId, Config>, trace: seq<Cluster>, k: nat, n: nat, i: NodeId,
                                      term: nat)
    requires Membership(cfgs) && Run(cfgs, trace) && k <= n < |trace| && Reigns(cfgs, trace[k], i, term)
    requires forall m :: k <= m < n ==> !StepsDownAt(cfgs, trace, m, i, term)
    ensures Reigns(cfgs, trace[n], i, term)
    decreases n
  {
    hide Reigns, Membership, Inv, StepsDownAt, Steps;
    if k < n {
      ReignLasts(cfgs, trace, k, n - 1, i, term);
      RunKeepsInv(cfgs, trace, n - 1);
      assert Steps(cfgs, trace[n - 1], trace[n - 1 + 1]);
      StepReigns(cfgs, trace, n - 1, i, term);
    }
  }

  /** A leader votes for another node in its term only after a tick that found no quorum for long enough. */
  lemma VotesAwayOnlyAfterStepDown(cfgs: map<NodeId, Config>, trace: seq<Cluster>, k: nat, n: nat, i: NodeId)
    requires Membership(cfgs) && Run(cfgs, trace) && k <= n < |trace|
    requires i in trace[k].nodes && trace[k].nodes[i].role == Leader
    requires HasVotedAway(trace[n], i, trace[k].nodes[i].term)
    ensures exists m :: k <= m < n && StepsDownAt(cfgs, trace, m, i, trace[k].nodes[i].term)
  {
    hide Membership, Inv, StepsDownAt;
    RunKeepsInv(cfgs, trace, k);
    LeaderReigns(cfgs, trace[k], i);
    if forall m :: k <= m < n ==> !StepsDownAt(cfgs, trace, m, i, trace[k].nodes[i].term) {
      ReignLasts(cfgs, trace, k, n, i, trace[k].nodes[i].term);
    }
  }

  /** A term whose leader never takes that step has one leader over the whole run. */
  lemma OneLeaderEver(cfgs: map<NodeId, Config>, trace: seq<Cluster>, k: nat, n: nat, i: NodeId, j: NodeId)
    requires Membership(cfgs) && Run(cfgs, trace) && k <= n < |trace|
    requires i in trace[k].nodes && trace[k].nodes[i].role == Leader
    requires j in trace[n].nodes && trace[n].nodes[j].role == Leader
    requires trace[k].nodes[i].term == trace[n].nodes[j].term
    requires forall m :: k <= m < n ==> !StepsDownAt(cfgs, trace, m, i, trace[k].nodes[i].term)
    ensures i == j
  {
    hide Membership, Inv, StepsDownAt, Run;
    LaterLeader(cfgs, trace, k, n, i, j);
    if i != j {
      assert HasVotedAway(trace[n], i, trace[k].nodes[i].term);
      VotesAwayOnlyAfterStepDown(cfgs, trace, k, n, i);
    }
  }

  // ----- the bounded step-down inside a run -----

  /** Every node of every run keeps its records as the step-down needs them. */
  lemma {:induction false} RunWellKept(cfgs: map<NodeId, Config>, trace: seq<Cluster>, n: nat, i: NodeId)
    requires Membership(cfgs) && Run(cfgs, trace) && n < |trace| && i in cfgs
    ensures i in trace[n].nodes && i in trace[n].inboxes && WellKept(trace[n].nodes[i])
    decreases n
  {
    hide Tick, Membership, WellKept, Fresh;
    if n == 0 {
      var timeout :| trace[0].nodes[i] == Fresh(timeout);
      FreshWellKept(timeout);
    } else {
      RunWellKept(cfgs, trace, n - 1, i);
      assert Steps(cfgs, trace[n - 1], trace[n - 1 + 1]);
      var c := trace[n - 1];
      var e :| Enabled(cfgs, c, e) && trace[n] == Next(cfgs, c, e);
      if e.Ticked? && e.node == i {
        TickWellKept(cfgs[i], c.nodes[i], c.inboxes[i], e.timeout);
        FlushedWellKept(Tick(cfgs[i], c.nodes[i], c.inboxes[i], e.timeout));
      }
    }
  }

  lemma FlushedWellKept(s: NodeState)
    requires WellKept(s)
    ensures WellKept(s.(outbox := []))
  {
  }

  /** The peers whose acknowledgements of this term reach node i between two points. */
  ghost function HeardFrom(trace: seq<Cluster>, k: nat, n: nat, i: NodeId, term: nat): set<NodeId>
    requires k <= n < |trace|
  {
    set m, a | k <= m < n && i in trace[m].inboxes && a in trace[m].inboxes[i] && IsAck(a, term) :: a.from
  }

  lemma DistinctPeers(cfgs: map<NodeId, Config>, i: NodeId)
    requires Membership(cfgs) && i in cfgs
    ensures forall a, b :: 0 <= a < b < |cfgs[i].peers| ==> cfgs[i].peers[a] != cfgs[i].peers[b]
  {
    var peers := cfgs[i].peers;
    assert (set p | p in peers) == cfgs.Keys - {i};
    NoRepeats(peers);
  }

  /** A list with as many names as entries repeats none. */
  lemma {:induction false} NoRepeats(names: seq<NodeId>)
    requires |set x | x in names| == |names|
    ensures forall a, b :: 0 <= a < b < |names| ==> names[a] != names[b]
    decreases |names|
  {
    if names != [] {
      var n := |names| - 1;
      var all, rest := set x | x in names, set x | x in names[..n];
      assert names == names[..n] + [names[n]];
      assert all == rest + {names[n]};
      FewNames(names[..n]);
      assert names[n] !in rest;
      NoRepeats(names[..n]);
      forall a | 0 <= a < n
        ensures names[a] != names[n]
      {
        assert names[..n][a] in rest;
      }
    }
  }

  lemma {:induction false} FewNames(names: seq<NodeId>)
    ensures |set x | x in names| <= |names|
    decreases |names|
  {
    if names == [] {
      assert (set x | x in names) == {};
    } else {
      var n := |names| - 1;
      FewNames(names[..n]);
      assert names == names[..n] + [names[n]];
      assert (set x | x in names) == (set x | x in names[..n]) + {names[n]};
    }
  }

  lemma {:induction false} FadesInRun(cfgs: map<NodeId, Config>, trace: seq<Cluster>, k: nat, n: nat, i: NodeId,
                                      ackers: set<NodeId>)
    requires Membership(cfgs) && Run(cfgs, trace) && k <= n < |trace| && i in cfgs
    requires forall m :: 0 <= m < |trace| ==> i in trace[m].nodes && i in trace[m].inboxes
    requires trace[k].nodes[i].role == Leader && cfgs[i].quorumLossTicks > 0
    requires HeardFrom(trace, k, n, i, trace[k].nodes[i].term) <= ackers
    requires 1 + |set p | p in cfgs[i].peers && p in ackers| < cfgs[i].Majority()
    ensures var s, t := trace[k].nodes[i], trace[n].nodes[i];
            && Allocated(t) && s.tick <= t.tick
            && (Retired(t, s.term) || Fading(cfgs[i], t, s.term, s.tick, t.tick - s.tick, ackers))
    decreases n
  {
    hide Tick, Membership, Steps, HeardFrom, Retired, Fading;
    RunWellKept(cfgs, trace, k, i);
    if k == n {
      StartsFading(cfgs[i], trace[k].nodes[i], ackers);
    } else {
      HeardEarlier(trace, k, n, i, trace[k].nodes[i].term);
      FadesInRun(cfgs, trace, k, n - 1, i, ackers);
      DistinctPeers(cfgs, i);
      assert Steps(cfgs, trace[n - 1], trace[n - 1 + 1]);
      FadesOn(cfgs, trace, k, n, i, ackers);
    }
  }

  lemma StartsFading(cfg: Config, s: NodeState, ackers: set<NodeId>)
    requires WellKept(s) && s.role == Leader && cfg.quorumLossTicks > 0
    ensures Allocated(s) && Fading(cfg, s, s.term, s.tick, 0, ackers)
  {
  }

  lemma HeardEarlier(trace: seq<Cluster>, k: nat, n: nat, i: NodeId, term: nat)
    requires k < n < |trace| && forall m :: 0 <= m < |trace| ==> i in trace[m].inboxes
    ensures HeardFrom(trace, k, n - 1, i, term) <= HeardFrom(trace, k, n, i, term)
    ensures Ackers(trace[n - 1].inboxes[i], term) <= HeardFrom(trace, k, n, i, term)
  {
  }

  lemma FadesOn(cfgs: map<NodeId, Config>, trace: seq<Cluster>, k: nat, n: nat, i: NodeId, ackers: set<NodeId>)
    requires k < n < |trace| && i in cfgs && Steps(cfgs, trace[n - 1], trace[n])
    requires forall m :: 0 <= m < |trace| ==> i in trace[m].nodes && i in trace[m].inboxes
    requires cfgs[i].quorumLossTicks > 0
    requires forall a, b :: 0 <= a < b < |cfgs[i].peers| ==> cfgs[i].peers[a] != cfgs[i].peers[b]
    requires 1 + |set p | p in cfgs[i].peers && p in ackers| < cfgs[i].Majority()
    requires Ackers(trace[n - 1].inboxes[i], trace[k].nodes[i].term) <= ackers
    requires var s, t := trace[k].nodes[i], trace[n - 1].nodes[i];
             && Allocated(t) && s.tick <= t.tick
             && (Retired(t, s.term) || Fading(cfgs[i], t, s.term, s.tick, t.tick - s.tick, ackers))
    ensures var s, t := trace[k].nodes[i], trace[n].nodes[i];
            && Allocated(t) && s.tick <= t.tick
            && (Retired(t, s.term) || Fading(cfgs[i], t, s.term, s.tick, t.tick - s.tick, ackers))
  {
    hide Tick, Ackers;
    var s, c := trace[k].nodes[i], trace[n - 1];
    var e :| Enabled(cfgs, c, e) && trace[n] == Next(cfgs, c, e);
    if e.Ticked? && e.node == i {
      var t := c.nodes[i];
      TickCounts(cfgs[i], t, c.inboxes[i], e.timeout);
      TickWhileFading(cfgs[i], t, c.inboxes[i], e.timeout, s.term, s.tick, t.tick - s.tick, ackers);
    }
  }

  lemma HandleKeepsClock(cfg: Config, s: NodeState, m: Message)
    requires Allocated(s)
    ensures Handle(cfg, s, m).tick == s.tick
  {
  }

  lemma {:induction false} HandleAllKeepsClock(cfg: Config, s: NodeState, inbox: seq<Message>)
    requires Allocated(s)
    ensures HandleAll(cfg, s, inbox).tick == s.tick
    decreases |inbox|
  {
    hide Handle;
    if inbox != [] {
      var n := |inbox| - 1;
      HandleAllKeepsClock(cfg, s, inbox[..n]);
      HandleKeepsClock(cfg, HandleAll(cfg, s, inbox[..n]), inbox[n]);
    }
  }

  lemma TickCounts(cfg: Config, s: NodeState, inbox: seq<Message>, timeout: int)
    requires Allocated(s)
    ensures Tick(cfg, s, inbox, timeout).tick == s.tick + 1
  {
    hide HandleAll, HasQuorum;
    HandleAllKeepsClock(cfg, s.(tick := s.tick + 1), inbox);
  }

  /**
   In every run: a leader that within QuorumAckTicks + QuorumLossTicks of its own ticks is reached by
   acknowledgements of peers that with itself are no majority has stopped leading its term, for good.
   */
  lemma StepsDownInRun(cfgs: map<NodeId, Config>, trace: seq<Cluster>, k: nat, n: nat, i: NodeId)
    requires Membership(cfgs) && Run(cfgs, trace) && k <= n < |trace| && i in cfgs && cfgs[i].quorumLossTicks > 0
    requires i in trace[k].nodes && i in trace[n].nodes && trace[k].nodes[i].role == Leader
    requires trace[n].nodes[i].tick >= trace[k].nodes[i].tick + cfgs[i].quorumAckTicks + cfgs[i].quorumLossTicks
    requires var heard := HeardFrom(trace, k, n, i, trace[k].nodes[i].term);
             1 + |set p | p in cfgs[i].peers && p in heard| < cfgs[i].Majority()
    ensures Retired(trace[n].nodes[i], trace[k].nodes[i].term)
  {
    hide Membership, Run, HeardFrom, WellKept;
    forall m | 0 <= m < |trace|
      ensures i in trace[m].nodes && i in trace[m].inboxes
    {
      RunWellKept(cfgs, trace, m, i);
    }
    FadesInRun(cfgs, trace, k, n, i, HeardFrom(trace, k, n, i, trace[k].nodes[i].term));
  }
}
