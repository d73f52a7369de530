/**
 How long a leader leads, by the messages it receives: over any ticks that bring no newer term and no rival's
 heartbeat, it leads on exactly as long as a majority is heard from often enough.
 */
module RaftTenure {
  import opened Wrappers
  import opened RaftNode
  import opened RaftSafety
  import opened RaftStepDown
  import opened RaftReign

  // ----- one inbox -----

  /** A message that cannot unseat the leader of this term. */
  predicate Harmless(m: Message, term: nat) {
    m.term < term || (m.term == term && m.kind != AppendEntries)
  }

  predicate Quiet(inbox: seq<Message>, term: nat) {
    forall m :: m in inbox ==> Harmless(m, term)
  }

  /** The leader t is as s was, except that these peers acknowledged at this tick. */
  predicate Acknowledged(s: NodeState, t: NodeState, ackers: set<NodeId>) {
    && t.role == Leader && t.term == s.term && t.tick == s.tick && t.quorumMissTicks == s.quorumMissTicks
    && s.acks.Some? && t.acks.Some? && t.acks.value.Keys == s.acks.value.Keys + ackers
    && forall p :: p in t.acks.value ==>
         t.acks.value[p] == if p in ackers then s.tick else s.acks.value[p]
  }

  lemma HandleHarmless(cfg: Config, s: NodeState, m: Message)
    requires Allocated(s) && s.role == Leader && Harmless(m, s.term)
    ensures Acknowledged(s, Handle(cfg, s, m), if IsAck(m, s.term) then {m.from} else {})
  {
  }

  lemma {:induction false} HandleAllQuiet(cfg: Config, s: NodeState, inbox: seq<Message>)
    requires Allocated(s) && s.role == Leader && Quiet(inbox, s.term)
    ensures Acknowledged(s, HandleAll(cfg, s, inbox), Ackers(inbox, s.term))
    decreases |inbox|
  {
    hide Handle, Harmless, IsAck, Ackers, Acknowledged;
    AckersOf(inbox, s.term);
    if inbox == [] {
      AcknowledgedNobody(s);
    } else {
      var n := |inbox| - 1;
      var mid := HandleAll(cfg, s, inbox[..n]);
      HandleAllQuiet(cfg, s, inbox[..n]);
      StillLeads(s, mid, Ackers(inbox[..n], s.term));
      HandleHarmless(cfg, mid, inbox[n]);
      AcknowledgedMore(s, mid, Ackers(inbox[..n], s.term), Handle(cfg, mid, inbox[n]),
                       if IsAck(inbox[n], s.term) then {inbox[n].from} else {});
    }
  }

  lemma AckersOf(inbox: seq<Message>, term: nat)
    ensures inbox == [] ==> Ackers(inbox, term) == {}
    ensures inbox != [] ==>
            var n := |inbox| - 1;
            Ackers(inbox, term) == Ackers(inbox[..n], term) + if IsAck(inbox[n], term) then {inbox[n].from} else {}
  {
    hide IsAck;
    if inbox != [] { assert inbox == inbox[..|inbox| - 1] + [inbox[|inbox| - 1]]; }
  }

  lemma AcknowledgedNobody(s: NodeState)
    requires Allocated(s) && s.role == Leader
    ensures Acknowledged(s, s, {})
  {
  }

  lemma StillLeads(s: NodeState, t: NodeState, ackers: set<NodeId>)
    requires Acknowledged(s, t, ackers)
    ensures t.role == Leader && t.term == s.term
  {
  }

  lemma AcknowledgedMore(s: NodeState, t: NodeState, ackers: set<NodeId>, u: NodeState, more: set<NodeId>)
    requires Acknowledged(s, t, ackers) && Acknowledged(t, u, more)
    ensures Acknowledged(s, u, ackers + more)
  {
  }

  // ----- who has been heard from -----

  /** An acknowledgement of p arrived no more than `window` ticks before the last of these ticks. */
  ghost predicate HeardWithin(inputs: seq<TickInput>, window: int, term: nat, p: NodeId) {
    exists j :: 0 <= j < |inputs| && |inputs| - 1 - j <= window && p in Ackers(inputs[j].inbox, term)
  }

  /** The leader's record of p is no older than `window` ticks, after `more` further ticks. */
  predicate RecordedWithin(s: NodeState, more: nat, window: int, p: NodeId) {
    s.acks.Some? && p in s.acks.value && s.tick + more - s.acks.value[p] <= window
  }

  /** The leader's records are what it was told, and what it knew before. */
  ghost predicate Records(s: NodeState, t: NodeState, inputs: seq<TickInput>) {
    forall p, w: int :: RecordedWithin(t, 0, w, p) <==>
      HeardWithin(inputs, w, s.term, p) || RecordedWithin(s, |inputs|, w, p)
  }

  lemma HeardNext(inputs: seq<TickInput>, last: TickInput, window: int, term: nat, p: NodeId)
    ensures HeardWithin(inputs + [last], window, term, p) <==>
              (0 <= window && p in Ackers(last.inbox, term)) || HeardWithin(inputs, window - 1, term, p)
  {
    var all := inputs + [last];
    assert all[|inputs|] == last;
    if HeardWithin(inputs, window - 1, term, p) {
      var j :| 0 <= j < |inputs| && |inputs| - 1 - j <= window - 1 && p in Ackers(inputs[j].inbox, term);
      assert all[j] == inputs[j];
    }
  }

  /** A quiet tick, up to its timers, keeps the records right. */
  lemma RecordsNext(s: NodeState, t: NodeState, inputs: seq<TickInput>, u: NodeState, last: TickInput)
    requires WellKept(s) && WellKept(t) && s.role == t.role == Leader && t.tick == s.tick + |inputs|
    requires Records(s, t, inputs)
    requires Acknowledged(t.(tick := t.tick + 1), u, Ackers(last.inbox, s.term))
    ensures Records(s, u, inputs + [last])
  {
    hide Ackers, HeardWithin;
    forall p, w: int
      ensures RecordedWithin(u, 0, w, p) <==>
                HeardWithin(inputs + [last], w, s.term, p) || RecordedWithin(s, |inputs + [last]|, w, p)
    {
      HeardNext(inputs, last, w, s.term, p);
      assert RecordedWithin(t, 0, w - 1, p) <==>
               HeardWithin(inputs, w - 1, s.term, p) || RecordedWithin(s, |inputs|, w - 1, p);
    }
  }

  /** The peers that count after these ticks: acknowledged within QuorumAckTicks, now or before. */
  ghost function Support(cfg: Config, s: NodeState, inputs: seq<TickInput>): set<NodeId> {
    set p | p in cfg.peers && (HeardWithin(inputs, cfg.quorumAckTicks, s.term, p)
                               || RecordedWithin(s, |inputs|, cfg.quorumAckTicks, p))
  }

  lemma {:induction false} CountsSupport(cfg: Config, t: NodeState, supporters: set<NodeId>, n: nat)
    requires n <= |cfg.peers|
    requires forall a, b :: 0 <= a < b < |cfg.peers| ==> cfg.peers[a] != cfg.peers[b]
    requires forall p :: p in cfg.peers ==> (IsFresh(cfg, t, p) <==> p in supporters)
    ensures CountFresh(cfg, t, n) == |Among(cfg.peers, n, supporters)|
    decreases n
  {
    hide Among, IsFresh;
    if n == 0 {
      AmongNone(cfg.peers, supporters);
    } else {
      CountsSupport(cfg, t, supporters, n - 1);
      AmongNext(cfg.peers, n - 1, supporters);
    }
  }

  lemma AmongNone(peers: seq<NodeId>, some: set<NodeId>)
    ensures Among(peers, 0, some) == {}
  {
  }

  lemma QuorumIsSupport(cfg: Config, s: NodeState, t: NodeState, inputs: seq<TickInput>)
    requires forall a, b :: 0 <= a < b < |cfg.peers| ==> cfg.peers[a] != cfg.peers[b]
    requires WellKept(t) && t.role == Leader && Records(s, t, inputs)
    ensures HasQuorum(cfg, t) <==> 1 + |Support(cfg, s, inputs)| >= cfg.Majority()
  {
    hide HeardWithin, CountFresh;
    var w: int := cfg.quorumAckTicks;
    forall p | p in cfg.peers
      ensures IsFresh(cfg, t, p) <==> p in Support(cfg, s, inputs)
    {
      assert RecordedWithin(t, 0, w, p) <==>
               HeardWithin(inputs, w, s.term, p) || RecordedWithin(s, |inputs|, w, p);
    }
    CountsSupport(cfg, t, Support(cfg, s, inputs), |cfg.peers|);
    assert cfg.peers[..|cfg.peers|] == cfg.peers;
    assert Among(cfg.peers, |cfg.peers|, Support(cfg, s, inputs)) == Support(cfg, s, inputs);
  }

  // ----- tenure -----

  /** How many ticks in a row, up to the last of these, have found no majority. */
  ghost function Silence(cfg: Config, s: NodeState, inputs: seq<TickInput>): int
    decreases |inputs|
  {
    if inputs == [] then s.quorumMissTicks
    else if 1 + |Support(cfg, s, inputs)| >= cfg.Majority() then 0
    else 1 + Silence(cfg, s, inputs[..|inputs| - 1])
  }

  /** Leading on, with right records and the misses counted. */
  ghost predicate LeadsOn(cfg: Config, s: NodeState, t: NodeState, inputs: seq<TickInput>) {
    && WellKept(t) && t.role == Leader && t.term == s.term && t.tick == s.tick + |inputs|
    && Records(s, t, inputs) && t.quorumMissTicks == Silence(cfg, s, inputs)
  }

  /** What the timers do to a leader, apart from its heartbeat. */
  lemma TimersOfLeader(cfg: Config, t: NodeState, timeout: int)
    requires WellKept(t) && t.role == Leader && cfg.quorumLossTicks > 0
    ensures var u, misses := StepTimers(cfg, t, timeout), if HasQuorum(cfg, t) then 0 else t.quorumMissTicks + 1;
            if misses < cfg.quorumLossTicks
            then WellKept(u) && u.role == Leader && u.term == t.term && u.tick == t.tick && u.acks == t.acks
                 && u.quorumMissTicks == misses
            else Retired(u, t.term)
  {
    hide CountFresh;
    var beaten := if t.heartbeatElapsed + 1 >= cfg.heartbeatTicks
                  then t.(heartbeatElapsed := 0, outbox := t.outbox + Heartbeats(cfg, t.term, |cfg.peers|))
                  else t.(heartbeatElapsed := t.heartbeatElapsed + 1);
    SameFresh(cfg, t, beaten, |cfg.peers|);
  }

  lemma SameRecords(s: NodeState, t: NodeState, u: NodeState, inputs: seq<TickInput>)
    requires Records(s, t, inputs) && u.acks == t.acks && u.tick == t.tick
    ensures Records(s, u, inputs)
  {
    hide HeardWithin;
    forall p, w: int
      ensures RecordedWithin(u, 0, w, p) <==>
                HeardWithin(inputs, w, s.term, p) || RecordedWithin(s, |inputs|, w, p)
    {
      assert RecordedWithin(u, 0, w, p) == RecordedWithin(t, 0, w, p);
    }
  }

  lemma TickOfLeader(cfg: Config, s: NodeState, t: NodeState, inputs: seq<TickInput>, last: TickInput)
    requires forall a, b :: 0 <= a < b < |cfg.peers| ==> cfg.peers[a] != cfg.peers[b]
    requires WellKept(s) && s.role == Leader && LeadsOn(cfg, s, t, inputs) && cfg.quorumLossTicks > 0
    requires Quiet(last.inbox, s.term)
    ensures var u := Tick(cfg, t, last.inbox, last.timeout);
            if Silence(cfg, s, inputs + [last]) < cfg.quorumLossTicks
            then LeadsOn(cfg, s, u, inputs + [last]) else Retired(u, s.term)
  {
    hide HandleAll, StepTimers, HasQuorum, Support, Records, Quiet, WellKept, Retired;
    var all, ticked := inputs + [last], t.(tick := t.tick + 1);
    LaterWellKept(t);
    HandleAllQuiet(cfg, ticked, last.inbox);
    HandleAllWellKept(cfg, ticked, last.inbox);
    var mid := HandleAll(cfg, ticked, last.inbox);
    RecordsNext(s, t, inputs, mid, last);
    QuorumIsSupport(cfg, s, mid, all);
    assert all[..|all| - 1] == inputs;
    TimersOfLeader(cfg, mid, last.timeout);
    if Silence(cfg, s, all) < cfg.quorumLossTicks {
      SameRecords(s, mid, Tick(cfg, t, last.inbox, last.timeout), all);
    }
  }

  lemma LaterWellKept(t: NodeState)
    requires WellKept(t)
    ensures Allocated(t) && WellKept(t.(tick := t.tick + 1))
  {
  }

  /** Every stretch of these ticks, from the first, stays below the limit of silent ticks. */
  ghost predicate HeardOften(cfg: Config, s: NodeState, inputs: seq<TickInput>) {
    forall n :: 0 < n <= |inputs| ==> Silence(cfg, s, inputs[..n]) < cfg.quorumLossTicks
  }

  lemma HeardOftenNext(cfg: Config, s: NodeState, inputs: seq<TickInput>)
    requires inputs != []
    ensures HeardOften(cfg, s, inputs) <==>
              HeardOften(cfg, s, inputs[..|inputs| - 1]) && Silence(cfg, s, inputs) < cfg.quorumLossTicks
  {
    hide Silence;
    var before := inputs[..|inputs| - 1];
    assert inputs[..|inputs|] == inputs;
    assert forall n :: 0 <= n < |inputs| ==> inputs[..n] == before[..n];
  }

  lemma {:induction false} LeadsOrRetires(cfg: Config, s: NodeState, inputs: seq<TickInput>)
    requires forall a, b :: 0 <= a < b < |cfg.peers| ==> cfg.peers[a] != cfg.peers[b]
    requires WellKept(s) && s.role == Leader && cfg.quorumLossTicks > 0
    requires forall k :: 0 <= k < |inputs| ==> Quiet(inputs[k].inbox, s.term)
    ensures var t := Ticks(cfg, s, inputs);
            if HeardOften(cfg, s, inputs) then LeadsOn(cfg, s, t, inputs) else Retired(t, s.term)
    decreases |inputs|
  {
    hide Tick, Silence, Quiet, HeardOften, LeadsOn, Retired, WellKept;
    LaterWellKept(s);
    if inputs == [] {
      LeadsFirst(cfg, s);
    } else {
      var init, last := inputs[..|inputs| - 1], inputs[|inputs| - 1];
      LeadsOrRetires(cfg, s, init);
      HeardOftenNext(cfg, s, inputs);
      var mid := Ticks(cfg, s, init);
      assert init + [last] == inputs;
      if HeardOften(cfg, s, init) {
        Flushed(cfg, s, mid, init);
        TickOfLeader(cfg, s, mid.(outbox := []), init, last);
      } else {
        RetiredFlushed(mid, s.term);
        TickStaysRetired(cfg, mid.(outbox := []), last.inbox, last.timeout, s.term);
      }
    }
  }

  lemma LeadsFirst(cfg: Config, s: NodeState)
    requires WellKept(s) && s.role == Leader
    ensures Allocated(s) && LeadsOn(cfg, s, s, []) && HeardOften(cfg, s, [])
  {
  }

  lemma Flushed(cfg: Config, s: NodeState, t: NodeState, inputs: seq<TickInput>)
    requires LeadsOn(cfg, s, t, inputs)
    ensures LeadsOn(cfg, s, t.(outbox := []), inputs)
  {
    hide Silence;
    SameRecords(s, t, t.(outbox := []), inputs);
  }

  lemma RetiredFlushed(t: NodeState, term: nat)
    requires Retired(t, term)
    ensures Retired(t.(outbox := []), term)
  {
  }

  /**
   Over ticks that bring no newer term and no heartbeat of its own term, a leader leads on exactly as long as
   the ticks without a majority of fresh acknowledgements never reach QuorumLossTicks in a row; its count of
   missed ticks is that number, and a leader that has stopped has retired from the term for good.
   */
  lemma LeadsExactly(cfg: Config, s: NodeState, inputs: seq<TickInput>)
    requires forall a, b :: 0 <= a < b < |cfg.peers| ==> cfg.peers[a] != cfg.peers[b]
    requires WellKept(s) && s.role == Leader && cfg.quorumLossTicks > 0
    requires forall k :: 0 <= k < |inputs| ==> Quiet(inputs[k].inbox, s.term)
    ensures var t := Ticks(cfg, s, inputs);
            && (t.role == Leader && t.term == s.term <==> HeardOften(cfg, s, inputs))
            && (HeardOften(cfg, s, inputs) ==> t.quorumMissTicks == Silence(cfg, s, inputs))
            && (!HeardOften(cfg, s, inputs) ==> Retired(t, s.term))
  {
    hide HeardOften, Silence, Records, WellKept, Quiet;
    LeadsOrRetires(cfg, s, inputs);
  }

  // ----- by messages alone -----

  /** The peers whose acknowledgements of the term arrived within the last QuorumAckTicks of these ticks. */
  ghost function RecentlyHeard(cfg: Config, term: nat, inputs: seq<TickInput>): set<NodeId> {
    set p | p in cfg.peers && HeardWithin(inputs, cfg.quorumAckTicks, term, p)
  }

  /** After every one of these ticks the leader has recently heard from a majority, itself included. */
  ghost predicate WellSupported(cfg: Config, term: nat, inputs: seq<TickInput>) {
    forall n :: 0 < n <= |inputs| ==> 1 + |RecentlyHeard(cfg, term, inputs[..n])| >= cfg.Majority()
  }

  lemma HeardIsSilence(cfg: Config, s: NodeState, inputs: seq<TickInput>)
    requires inputs != [] && 1 + |RecentlyHeard(cfg, s.term, inputs)| >= cfg.Majority()
    ensures Silence(cfg, s, inputs) == 0
  {
    hide HeardWithin, RecordedWithin;
    FewerSupporters(RecentlyHeard(cfg, s.term, inputs), Support(cfg, s, inputs));
  }

  lemma {:induction false} FewerSupporters(a: set<NodeId>, b: set<NodeId>)
    requires a <= b
    ensures |a| <= |b|
    decreases a
  {
    if a != {} {
      var x :| x in a;
      FewerSupporters(a - {x}, b - {x});
    }
  }

  /** A leader that keeps hearing from a majority keeps leading its term, and misses no tick. */
  lemma KeepsLeading(cfg: Config, s: NodeState, inputs: seq<TickInput>)
    requires forall a, b :: 0 <= a < b < |cfg.peers| ==> cfg.peers[a] != cfg.peers[b]
    requires WellKept(s) && s.role == Leader && cfg.quorumLossTicks > 0 && inputs != []
    requires forall k :: 0 <= k < |inputs| ==> Quiet(inputs[k].inbox, s.term)
    requires WellSupported(cfg, s.term, inputs)
    ensures var t := Ticks(cfg, s, inputs); t.role == Leader && t.term == s.term && t.quorumMissTicks == 0
  {
    hide Silence, RecentlyHeard, WellKept, Quiet, Records;
    forall n | 0 < n <= |inputs|
      ensures Silence(cfg, s, inputs[..n]) == 0
    {
      HeardIsSilence(cfg, s, inputs[..n]);
    }
    assert inputs[..|inputs|] == inputs;
    LeadsOrRetires(cfg, s, inputs);
  }

  // ----- inside a run -----

  /** What node i took from its inbox on its ticks between two points of a run, and the timeouts it drew. */
  ghost predicate Received(cfgs: map<NodeId, Config>, trace: seq<Cluster>, k: nat, n: nat, i: NodeId,
                           inputs: seq<TickInput>)
    requires k <= n < |trace|
    decreases n
  {
    if k == n then inputs == []
    else
      var c := trace[n - 1];
      || (inputs != [] && var last := inputs[|inputs| - 1];
          && Enabled(cfgs, c, Ticked(i, last.timeout)) && trace[n] == Next(cfgs, c, Ticked(i, last.timeout))
          && last.inbox == c.inboxes[i] && Received(cfgs, trace, k, n - 1, i, inputs[..|inputs| - 1]))
      || ((exists e :: Enabled(cfgs, c, e) && !(e.Ticked? && e.node == i) && trace[n] == Next(cfgs, c, e))
          && Received(cfgs, trace, k, n - 1, i, inputs))
  }

  /** Between any two points of a run a node has received something definite. */
  lemma {:induction false} SomethingReceived(cfgs: map<NodeId, Config>, trace: seq<Cluster>, k: nat, n: nat, i: NodeId)
    returns (inputs: seq<TickInput>)
    requires Run(cfgs, trace) && k <= n < |trace|
    ensures Received(cfgs, trace, k, n, i, inputs)
    decreases n
  {
    hide Tick, Allocated;
    inputs := [];
    if k < n {
      var before := SomethingReceived(cfgs, trace, k, n - 1, i);
      assert Steps(cfgs, trace[n - 1], trace[n - 1 + 1]);
      var c := trace[n - 1];
      var e :| Enabled(cfgs, c, e) && trace[n] == Next(cfgs, c, e);
      if e.Ticked? && e.node == i {
        inputs := before + [TickInput(c.inboxes[i], e.timeout)];
        assert inputs[..|inputs| - 1] == before;
      } else {
        inputs := before;
      }
    }
  }

  /** A node of a run does what its ticks make of what it received. */
  lemma {:induction false} RunIsTicks(cfgs: map<NodeId, Config>, trace: seq<Cluster>, k: nat, n: nat, i: NodeId,
                                      inputs: seq<TickInput>)
    requires Membership(cfgs) && Run(cfgs, trace) && k <= n < |trace| && i in cfgs
    requires Received(cfgs, trace, k, n, i, inputs)
    ensures i in trace[k].nodes && i in trace[n].nodes && Allocated(trace[k].nodes[i])
    ensures trace[n].nodes[i] == Ticks(cfgs[i], trace[k].nodes[i], inputs).(outbox := [])
    decreases n
  {
    hide Tick, Membership, Run, WellKept, Allocated;
    InRun(cfgs, trace, k, i);
    InRun(cfgs, trace, n, i);
    if k < n {
      InRun(cfgs, trace, n - 1, i);
      if inputs != [] && Received(cfgs, trace, k, n - 1, i, inputs[..|inputs| - 1]) {
        RunIsTicks(cfgs, trace, k, n - 1, i, inputs[..|inputs| - 1]);
      }
      if Received(cfgs, trace, k, n - 1, i, inputs) {
        RunIsTicks(cfgs, trace, k, n - 1, i, inputs);
      }
    }
  }

  lemma InRun(cfgs: map<NodeId, Config>, trace: seq<Cluster>, n: nat, i: NodeId)
    requires Membership(cfgs) && Run(cfgs, trace) && n < |trace| && i in cfgs
    ensures i in trace[n].nodes && i in trace[n].inboxes && Allocated(trace[n].nodes[i])
    ensures WellKept(trace[n].nodes[i]) && trace[n].nodes[i].outbox == []
  {
    hide Membership, Run, Safe;
    RunWellKept(cfgs, trace, n, i);
    RunKeepsInv(cfgs, trace, n);
    InvFlushed(cfgs, trace[n], i);
  }

  lemma InvFlushed(cfgs: map<NodeId, Config>, c: Cluster, i: NodeId)
    requires Inv(cfgs, c) && i in c.nodes
    ensures c.nodes[i].outbox == []
  {
  }

  /** In every run, unless something unseats it, a leader leads on exactly while a majority is heard often enough. */
  lemma LeadsInRun(cfgs: map<NodeId, Config>, trace: seq<Cluster>, k: nat, n: nat, i: NodeId, inputs: seq<TickInput>)
    requires Membership(cfgs) && Run(cfgs, trace) && k <= n < |trace| && i in cfgs && cfgs[i].quorumLossTicks > 0
    requires Received(cfgs, trace, k, n, i, inputs)
    requires i in trace[k].nodes && i in trace[n].nodes && trace[k].nodes[i].role == Leader
    requires forall j :: 0 <= j < |inputs| ==> Quiet(inputs[j].inbox, trace[k].nodes[i].term)
    ensures var s, t := trace[k].nodes[i], trace[n].nodes[i];
            && (t.role == Leader && t.term == s.term <==> HeardOften(cfgs[i], s, inputs))
            && (!HeardOften(cfgs[i], s, inputs) ==> Retired(t, s.term))
            && (inputs != [] && WellSupported(cfgs[i], s.term, inputs) ==>
                  t.role == Leader && t.term == s.term && t.quorumMissTicks == 0)
  {
    hide Membership, Run, Received, WellKept, Ticks, HeardOften, WellSupported, Quiet;
    InRun(cfgs, trace, k, i);
    DistinctPeers(cfgs, i);
    RunIsTicks(cfgs, trace, k, n, i, inputs);
    LeadsExactly(cfgs[i], trace[k].nodes[i], inputs);
    if inputs != [] && WellSupported(cfgs[i], trace[k].nodes[i].term, inputs) {
      KeepsLeading(cfgs[i], trace[k].nodes[i], inputs);
    }
  }
}
