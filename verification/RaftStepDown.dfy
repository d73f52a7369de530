/**
 A leader cut off from a majority stops leading within a bounded number of ticks, for good.
 */
module RaftStepDown {
  import opened Wrappers
  import opened RaftNode

  /** The node does not lead this term and never will again. */
  predicate Retired(s: NodeState, term: nat) {
    s.term > term || (s.term == term && s.role == Follower)
  }

  lemma HandleStaysRetired(cfg: Config, s: NodeState, m: Message, term: nat)
    requires Allocated(s) && Retired(s, term)
    ensures Retired(Handle(cfg, s, m), term)
  {
  }

  lemma {:induction false} HandleAllStaysRetired(cfg: Config, s: NodeState, inbox: seq<Message>, term: nat)
    requires Allocated(s) && Retired(s, term)
    ensures Retired(HandleAll(cfg, s, inbox), term)
    decreases |inbox|
  {
    hide Handle, Retired;
    if inbox != [] {
      HandleAllStaysRetired(cfg, s, inbox[..|inbox| - 1], term);
      HandleStaysRetired(cfg, HandleAll(cfg, s, inbox[..|inbox| - 1]), inbox[|inbox| - 1], term);
    }
  }

  /** Once retired from a term, no tick brings a node back to lead it. */
  lemma TickStaysRetired(cfg: Config, s: NodeState, inbox: seq<Message>, timeout: int, term: nat)
    requires Allocated(s) && Retired(s, term)
    ensures Retired(Tick(cfg, s, inbox, timeout), term)
  {
    hide HandleAll, HasQuorum;
    HandleAllStaysRetired(cfg, s.(tick := s.tick + 1), inbox, term);
  }

  /** What every node keeps from the start: a leader's records lie in the past. */
  predicate WellKept(s: NodeState) {
    && Allocated(s)
    && (s.role == Leader ==>
          0 <= s.quorumMissTicks && forall p :: p in s.acks.value ==> s.acks.value[p] <= s.tick)
  }

  lemma FreshWellKept(timeout: int)
    ensures WellKept(Fresh(timeout))
  {
  }

  lemma {:induction false} HandleAllWellKept(cfg: Config, s: NodeState, inbox: seq<Message>)
    requires WellKept(s)
    ensures WellKept(HandleAll(cfg, s, inbox))
    decreases |inbox|
  {
    if inbox != [] {
      HandleAllWellKept(cfg, s, inbox[..|inbox| - 1]);
    }
  }

  lemma TickWellKept(cfg: Config, s: NodeState, inbox: seq<Message>, timeout: int)
    requires WellKept(s)
    ensures WellKept(Tick(cfg, s, inbox, timeout))
  {
    hide HandleAll, HasQuorum;
    HandleAllWellKept(cfg, s.(tick := s.tick + 1), inbox);
  }

  /** A heartbeat acknowledgement for this term. */
  predicate IsAck(m: Message, term: nat) {
    m.kind == AppendEntriesResp && m.success && m.term == term
  }

  function Ackers(inbox: seq<Message>, term: nat): set<NodeId> {
    set m | m in inbox && IsAck(m, term) :: m.from
  }

  /** Acknowledgements later than `since` come only from `ackers`. */
  predicate Heard(s: NodeState, since: nat, ackers: set<NodeId>) {
    && s.acks.Some?
    && forall p :: p in s.acks.value && p !in ackers ==> s.acks.value[p] <= since
  }

  /** Still leading, with the clock and the miss counter at given values. */
  predicate Leading(s: NodeState, term: nat, tick: nat, misses: int, since: nat, ackers: set<NodeId>) {
    s.role == Leader && s.term == term && s.tick == tick && s.quorumMissTicks == misses && Heard(s, since, ackers)
  }

  lemma HandleWhileLeading(cfg: Config, s: NodeState, m: Message, since: nat, ackers: set<NodeId>)
    requires Leading(s, s.term, s.tick, s.quorumMissTicks, since, ackers)
    requires IsAck(m, s.term) ==> m.from in ackers
    ensures var t := Handle(cfg, s, m);
            Retired(t, s.term) || Leading(t, s.term, s.tick, s.quorumMissTicks, since, ackers)
  {
  }

  lemma {:induction false} HandleAllWhileLeading(cfg: Config, s: NodeState, inbox: seq<Message>, since: nat,
                                                 ackers: set<NodeId>)
    requires Allocated(s) && Leading(s, s.term, s.tick, s.quorumMissTicks, since, ackers)
    requires forall m :: m in inbox && IsAck(m, s.term) ==> m.from in ackers
    ensures var t := HandleAll(cfg, s, inbox);
            Retired(t, s.term) || Leading(t, s.term, s.tick, s.quorumMissTicks, since, ackers)
    decreases |inbox|
  {
    hide Handle, Leading, Retired;
    if inbox != [] {
      var init, m := inbox[..|inbox| - 1], inbox[|inbox| - 1];
      HandleAllWhileLeading(cfg, s, init, since, ackers);
      var mid := HandleAll(cfg, s, init);
      if Retired(mid, s.term) {
        HandleStaysRetired(cfg, mid, m, s.term);
      } else {
        LeadingFields(mid, s.term, s.tick, s.quorumMissTicks, since, ackers);
        HandleWhileLeading(cfg, mid, m, since, ackers);
      }
    }
  }

  lemma LeadingFields(s: NodeState, term: nat, tick: nat, misses: int, since: nat, ackers: set<NodeId>)
    requires Leading(s, term, tick, misses, since, ackers)
    ensures s.term == term && s.tick == tick && s.quorumMissTicks == misses
    ensures Leading(s, s.term, s.tick, s.quorumMissTicks, since, ackers)
  {
  }

  function Among(peers: seq<NodeId>, n: nat, ackers: set<NodeId>): set<NodeId>
    requires n <= |peers|
  {
    set p | p in peers[..n] && p in ackers
  }

  lemma AmongNext(peers: seq<NodeId>, n: nat, ackers: set<NodeId>)
    requires n < |peers| && forall a, b :: 0 <= a < b < |peers| ==> peers[a] != peers[b]
    ensures |Among(peers, n + 1, ackers)| == |Among(peers, n, ackers)| + if peers[n] in ackers then 1 else 0
  {
    assert peers[..n + 1] == peers[..n] + [peers[n]];
    assert peers[n] !in peers[..n];
    assert Among(peers, n + 1, ackers) == Among(peers, n, ackers) + if peers[n] in ackers then {peers[n]} else {};
  }

  /** Only peers heard from can count towards the quorum once the window has passed. */
  lemma {:induction false} FewFresh(cfg: Config, s: NodeState, since: nat, ackers: set<NodeId>, n: nat)
    requires n <= |cfg.peers| && Heard(s, since, ackers) && s.tick > since + cfg.quorumAckTicks
    requires forall a, b :: 0 <= a < b < |cfg.peers| ==> cfg.peers[a] != cfg.peers[b]
    ensures CountFresh(cfg, s, n) <= |Among(cfg.peers, n, ackers)|
    decreases n
  {
    hide Among;
    if n > 0 {
      FewFresh(cfg, s, since, ackers, n - 1);
      AmongNext(cfg.peers, n - 1, ackers);
    }
  }

  lemma NoQuorum(cfg: Config, s: NodeState, since: nat, ackers: set<NodeId>)
    requires Heard(s, since, ackers) && s.tick > since + cfg.quorumAckTicks
    requires forall a, b :: 0 <= a < b < |cfg.peers| ==> cfg.peers[a] != cfg.peers[b]
    requires 1 + |set p | p in cfg.peers && p in ackers| < cfg.Majority()
    ensures !HasQuorum(cfg, s)
  {
    FewFresh(cfg, s, since, ackers, |cfg.peers|);
    assert cfg.peers[..|cfg.peers|] == cfg.peers;
    assert Among(cfg.peers, |cfg.peers|, ackers) == set p | p in cfg.peers && p in ackers;
  }

  /** What a minority leader can still be after k ticks: each tick beyond the freshness window is a miss. */
  predicate Fading(cfg: Config, s: NodeState, term: nat, since: nat, k: nat, ackers: set<NodeId>) {
    && s.role == Leader && s.term == term && s.tick == since + k
    && Heard(s, since, ackers)
    && 0 <= s.quorumMissTicks && k - cfg.quorumAckTicks <= s.quorumMissTicks
    && (k > 0 ==> s.quorumMissTicks < cfg.quorumLossTicks)
  }

  lemma TickWhileFading(cfg: Config, s: NodeState, inbox: seq<Message>, timeout: int,
                        term: nat, since: nat, k: nat, ackers: set<NodeId>)
    requires Allocated(s) && cfg.quorumLossTicks > 0
    requires forall a, b :: 0 <= a < b < |cfg.peers| ==> cfg.peers[a] != cfg.peers[b]
    requires 1 + |set p | p in cfg.peers && p in ackers| < cfg.Majority()
    requires Ackers(inbox, term) <= ackers
    requires Retired(s, term) || Fading(cfg, s, term, since, k, ackers)
    ensures var t := Tick(cfg, s, inbox, timeout);
            Retired(t, term) || Fading(cfg, t, term, since, k + 1, ackers)
  {
    hide HandleAll, HasQuorum;
    var u := s.(tick := s.tick + 1);
    if Retired(s, term) {
      TickStaysRetired(cfg, s, inbox, timeout, term);
    } else {
      forall m | m in inbox && IsAck(m, term)
        ensures m.from in ackers
      {
        assert m.from in Ackers(inbox, term);
      }
      HandleAllWhileLeading(cfg, u, inbox, since, ackers);
      var mid := HandleAll(cfg, u, inbox);
      if !Retired(mid, term) && k + 1 > cfg.quorumAckTicks {
        var beaten := if mid.heartbeatElapsed + 1 >= cfg.heartbeatTicks
                      then mid.(heartbeatElapsed := 0, outbox := mid.outbox + Heartbeats(cfg, mid.term, |cfg.peers|))
                      else mid.(heartbeatElapsed := mid.heartbeatElapsed + 1);
        NoQuorum(cfg, beaten, since, ackers);
      }
    }
  }

  /** The messages handled in one tick and the timeout drawn if an election starts. */
  datatype TickInput = TickInput(inbox: seq<Message>, timeout: int)

  function Ticks(cfg: Config, s: NodeState, inputs: seq<TickInput>): (t: NodeState)
    requires Allocated(s)
    ensures Allocated(t)
    decreases |inputs|
  {
    if inputs == [] then s
    else
      var last := inputs[|inputs| - 1];
      Tick(cfg, Ticks(cfg, s, inputs[..|inputs| - 1]).(outbox := []), last.inbox, last.timeout)
  }

  lemma {:induction false} FadesAway(cfg: Config, s: NodeState, inputs: seq<TickInput>, ackers: set<NodeId>)
    requires Allocated(s) && cfg.quorumLossTicks > 0
    requires forall a, b :: 0 <= a < b < |cfg.peers| ==> cfg.peers[a] != cfg.peers[b]
    requires 1 + |set p | p in cfg.peers && p in ackers| < cfg.Majority()
    requires forall k :: 0 <= k < |inputs| ==> Ackers(inputs[k].inbox, s.term) <= ackers
    requires Fading(cfg, s, s.term, s.tick, 0, ackers)
    ensures var t := Ticks(cfg, s, inputs);
            Retired(t, s.term) || Fading(cfg, t, s.term, s.tick, |inputs|, ackers)
    decreases |inputs|
  {
    hide Tick, Ackers;
    if inputs != [] {
      var init, last := inputs[..|inputs| - 1], inputs[|inputs| - 1];
      FadesAway(cfg, s, init, ackers);
      var mid := Ticks(cfg, s, init).(outbox := []);
      TickWhileFading(cfg, mid, last.inbox, last.timeout, s.term, s.tick, |init|, ackers);
    }
  }

  /**
   Bounded step-down: if the peers whose acknowledgements arrive during QuorumAckTicks +
   QuorumLossTicks consecutive ticks, together with the leader, are fewer than a majority, then the
   node has ceased to lead its term by the end of the window.
   */
  lemma BoundedStepDown(cfg: Config, s: NodeState, inputs: seq<TickInput>, ackers: set<NodeId>)
    requires s.role == Leader && WellKept(s) && cfg.quorumLossTicks > 0
    requires forall a, b :: 0 <= a < b < |cfg.peers| ==> cfg.peers[a] != cfg.peers[b]
    requires |inputs| == cfg.quorumAckTicks + cfg.quorumLossTicks
    requires ackers == set k, m | 0 <= k < |inputs| && m in inputs[k].inbox && IsAck(m, s.term) :: m.from
    requires 1 + |set p | p in cfg.peers && p in ackers| < cfg.Majority()
    ensures Retired(Ticks(cfg, s, inputs), s.term)
  {
    forall k | 0 <= k < |inputs|
      ensures Ackers(inputs[k].inbox, s.term) <= ackers
    {
    }
    FadesAway(cfg, s, inputs, ackers);
  }

  /** And it never leads that term again, whatever it receives afterwards. */
  lemma {:induction false} NeverLeadsAgain(cfg: Config, s: NodeState, inputs: seq<TickInput>, term: nat)
    requires Allocated(s) && Retired(s, term)
    ensures var t := Ticks(cfg, s, inputs); !(t.role == Leader && t.term == term)
    ensures Retired(Ticks(cfg, s, inputs), term)
    decreases |inputs|
  {
    hide Tick;
    if inputs != [] {
      var init, last := inputs[..|inputs| - 1], inputs[|inputs| - 1];
      NeverLeadsAgain(cfg, s, init, term);
      TickStaysRetired(cfg, Ticks(cfg, s, init).(outbox := []), last.inbox, last.timeout, term);
    }
  }
}
