/**
 A run in which two nodes lead the same term one after the other: a leader that loses its quorum
 steps down within its term and forgets its vote, so a delayed request of a rival is granted.
 */
module RaftRerun {
  import opened Wrappers
  import opened RaftNode
  import opened RaftSafety

  /** A member of a three-node cluster that steps down after two ticks without a quorum. */
  function Member(id: NodeId, x: NodeId, y: NodeId): Config { Config(id, [x, y], 1, 2, 3) }

  function Members(a: NodeId, b: NodeId, c: NodeId): map<NodeId, Config> {
    map[a := Member(a, b, c), b := Member(b, a, c), c := Member(c, a, b)]
  }

  predicate Distinct(a: NodeId, b: NodeId, c: NodeId) {
    a != b && a != c && b != c && a != "" && b != "" && c != ""
  }

  function Ask(from: NodeId, to: NodeId): Message { Message(RequestVote, 1, from, to, false, false, "") }
  function Grant(from: NodeId, to: NodeId): Message { Message(RequestVoteResp, 1, from, to, true, false, "") }

  /** A candidate of term 1 after its first tick. */
  function Standing(id: NodeId): NodeState { NodeState(Candidate, 1, id, "", 9, 0, Some({id}), 0, None, 0, 1, []) }

  /** A leader of term 1 that has missed its quorum once. */
  predicate Elected(s: NodeState, id: NodeId) {
    && s.role == Leader && s.term == 1 && s.quorumMissTicks == 1 && s.electionTimeout == 9
    && s.acks == Some(map[id := 2]) && s.tick == 2
  }

  lemma MembersAgree(a: NodeId, b: NodeId, c: NodeId)
    requires Distinct(a, b, c)
    ensures Membership(Members(a, b, c))
  {
    var m := Members(a, b, c);
    assert m.Keys == {a} + {b} + {c};
    assert |m| == |m.Keys| == 3;
  }

  // ----- single ticks -----

  lemma FirstTick(id: NodeId, x: NodeId, y: NodeId)
    ensures var t := Tick(Member(id, x, y), Fresh(1), [], 9);
            t.outbox == [Ask(id, x), Ask(id, y)] && t.(outbox := []) == Standing(id)
  {
    assert Requests(Member(id, x, y), 1, 2) == [Ask(id, x), Ask(id, y)];
  }

  lemma VoterTick(a: NodeId, b: NodeId, c: NodeId)
    ensures Grant(b, a) in Tick(Member(b, a, c), Fresh(9), [Ask(a, b)], 9).outbox
  {
    var cfg := Member(b, a, c);
    assert [Ask(a, b)][..0] == [];
    var u := Handle(cfg, Fresh(9).(tick := 1), Ask(a, b));
    assert u.outbox == [Grant(b, a)] && u.role == Follower;
    assert u == HandleAll(cfg, Fresh(9).(tick := 1), [Ask(a, b)]);
  }

  /** With one vote from another member a candidate of three leads. */
  lemma WinningTick(id: NodeId, x: NodeId, y: NodeId, voter: NodeId)
    requires voter != id && x != id && y != id
    ensures Elected(Tick(Member(id, x, y), Standing(id), [Grant(voter, id)], 9), id)
  {
    var cfg, s := Member(id, x, y), Standing(id).(tick := 2);
    assert [Grant(voter, id)][..0] == [];
    assert |{id} + {voter}| == 2;
    var led := Handle(cfg, s, Grant(voter, id));
    assert led == HandleAll(cfg, s, [Grant(voter, id)]);
    Silent(cfg, led.(heartbeatElapsed := 0, outbox := led.outbox + Heartbeats(cfg, 1, 2)), x, y);
  }

  lemma Silent(cfg: Config, s: NodeState, x: NodeId, y: NodeId)
    requires cfg == Member(cfg.id, x, y) && x != cfg.id && y != cfg.id
    requires s.acks.Some? && s.acks.value.Keys == {cfg.id}
    ensures !HasQuorum(cfg, s)
  {
    assert CountFresh(cfg, s, 0) == 0 && CountFresh(cfg, s, 1) == 0 && CountFresh(cfg, s, 2) == 0;
  }

  /** A second tick without acknowledgements ends the leadership, and the vote is forgotten. */
  lemma LosingTick(id: NodeId, x: NodeId, y: NodeId, s: NodeState)
    requires Elected(s, id) && s.outbox == [] && x != id && y != id
    ensures var t := Tick(Member(id, x, y), s, [], 9); t.role == Follower && t.term == 1 && t.votedFor == ""
  {
    var cfg, u := Member(id, x, y), s.(tick := s.tick + 1);
    assert HandleAll(cfg, u, []) == u;
    var beaten := if u.heartbeatElapsed + 1 >= 1
                  then u.(heartbeatElapsed := 0, outbox := u.outbox + Heartbeats(cfg, u.term, 2))
                  else u.(heartbeatElapsed := u.heartbeatElapsed + 1);
    Silent(cfg, beaten, x, y);
  }

  lemma LateGrant(a: NodeId, b: NodeId, c: NodeId, s: NodeState)
    requires s.role == Follower && s.term == 1 && s.votedFor == "" && s.outbox == []
    ensures Grant(a, c) in Tick(Member(a, b, c), s, [Ask(c, a)], 9).outbox
  {
    var cfg := Member(a, b, c);
    assert [Ask(c, a)][..0] == [];
    var u := Handle(cfg, s.(tick := s.tick + 1), Ask(c, a));
    assert u.outbox == [Grant(a, c)] && u.role == Follower;
    assert u == HandleAll(cfg, s.(tick := s.tick + 1), [Ask(c, a)]);
  }

  // ----- the run -----

  lemma RunExtends(cfgs: map<NodeId, Config>, trace: seq<Cluster>, e: Event)
    requires Run(cfgs, trace) && Enabled(cfgs, trace[|trace| - 1], e)
    ensures Run(cfgs, trace + [Next(cfgs, trace[|trace| - 1], e)])
  {
    hide Next;
    var more := trace + [Next(cfgs, trace[|trace| - 1], e)];
    forall k | 0 <= k < |more| - 1
      ensures Steps(cfgs, more[k], more[k + 1])
    {
      if k + 1 < |trace| { assert Steps(cfgs, trace[k], trace[k + 1]); }
    }
  }

  /** A run that ends in the given cluster, with every inbox drained. */
  ghost predicate Ends(cfgs: map<NodeId, Config>, trace: seq<Cluster>, c: Cluster) {
    && Run(cfgs, trace) && trace[|trace| - 1] == c
    && c.nodes.Keys == c.inboxes.Keys == cfgs.Keys
    && forall i :: i in c.inboxes ==> c.inboxes[i] == []
  }

  /** Extends a run by one tick of node i. */
  lemma Tick1(cfgs: map<NodeId, Config>, trace: seq<Cluster>, c: Cluster, i: NodeId)
    returns (more: seq<Cluster>, d: Cluster)
    requires Ends(cfgs, trace, c) && i in cfgs && Allocated(c.nodes[i])
    ensures Ends(cfgs, more, d) && |trace| < |more| && forall k :: 0 <= k < |trace| ==> more[k] == trace[k]
    ensures var t := Tick(cfgs[i], c.nodes[i], [], 9);
            d.nodes == c.nodes[i := t.(outbox := [])] && d.sent == c.sent + Outgoing(t)
  {
    hide Tick;
    RunExtends(cfgs, trace, Ticked(i, 9));
    d := Next(cfgs, c, Ticked(i, 9));
    more := trace + [d];
  }

  /** Extends a run by a delivery to node i and its next tick. */
  lemma Deliver1(cfgs: map<NodeId, Config>, trace: seq<Cluster>, c: Cluster, m: Message)
    returns (more: seq<Cluster>, d: Cluster)
    requires Ends(cfgs, trace, c) && m in c.sent && m.to in cfgs && Allocated(c.nodes[m.to])
    ensures Ends(cfgs, more, d) && |trace| < |more| && forall k :: 0 <= k < |trace| ==> more[k] == trace[k]
    ensures var t := Tick(cfgs[m.to], c.nodes[m.to], [m], 9);
            d.nodes == c.nodes[m.to := t.(outbox := [])] && d.sent == c.sent + Outgoing(t)
  {
    hide Tick;
    var e, f := Deliver(m.to, m), Ticked(m.to, 9);
    RunExtends(cfgs, trace, e);
    var mid := Next(cfgs, c, e);
    assert mid.inboxes[m.to] == [m];
    RunExtends(cfgs, trace + [mid], f);
    d := Next(cfgs, mid, f);
    more := trace + [mid] + [d];
  }

  lemma StartingRun(a: NodeId, b: NodeId, c: NodeId) returns (trace: seq<Cluster>, s: Cluster)
    requires Distinct(a, b, c)
    ensures Ends(Members(a, b, c), trace, s)
    ensures s.nodes[a] == Fresh(1) && s.nodes[b] == Fresh(9) && s.nodes[c] == Fresh(1)
  {
    s := Cluster(map[a := Fresh(1), b := Fresh(9), c := Fresh(1)], map[a := [], b := [], c := []], {});
    trace := [s];
  }

  lemma MemberFacts3(a: NodeId, b: NodeId, c: NodeId)
    requires Distinct(a, b, c)
    ensures var m := Members(a, b, c);
            && m.Keys == {a, b, c}
            && m[a] == Member(a, b, c) && m[b] == Member(b, a, c) && m[c] == Member(c, a, b)
  {
  }

  lemma AllocatedFacts(id: NodeId)
    ensures Allocated(Standing(id)) && Allocated(Fresh(1)) && Allocated(Fresh(9))
    ensures forall s :: Elected(s, id) ==> Allocated(s)
    ensures forall s: NodeState :: s.role == Follower ==> Allocated(s)
  {
  }

  lemma EndsFacts(cfgs: map<NodeId, Config>, trace: seq<Cluster>, c: Cluster)
    requires Ends(cfgs, trace, c)
    ensures c.nodes.Keys == cfgs.Keys && trace != [] && trace[|trace| - 1] == c && Run(cfgs, trace)
  {
  }

  lemma InOutgoing(t: NodeState, m: Message)
    requires m in t.outbox
    ensures m in Outgoing(t)
  {
  }

  /** Two rivals stand for term 1. */
  lemma TwoCandidates(a: NodeId, b: NodeId, c: NodeId) returns (trace: seq<Cluster>, s: Cluster)
    requires Distinct(a, b, c)
    ensures Ends(Members(a, b, c), trace, s) && s.nodes.Keys == {a, b, c}
    ensures s.nodes[a] == Standing(a) && s.nodes[b] == Fresh(9) && s.nodes[c] == Standing(c)
    ensures Ask(a, b) in s.sent && Ask(c, a) in s.sent
  {
    MemberFacts3(a, b, c);
    FirstTick(a, b, c);
    FirstTick(c, a, b);
    AllocatedFacts(a);
    assert a != b && a != c && b != c;
    hide *;
    var cfgs := Members(a, b, c);
    var t0, s0 := StartingRun(a, b, c);
    EndsFacts(cfgs, t0, s0);
    InOutgoing(Tick(Member(a, b, c), Fresh(1), [], 9), Ask(a, b));
    InOutgoing(Tick(Member(c, a, b), Fresh(1), [], 9), Ask(c, a));
    var t1, s1 := Tick1(cfgs, t0, s0, a);
    trace, s := Tick1(cfgs, t1, s1, c);
  }

  /** The first half: `a` leads term 1, while a request of its rival `c` is still under way. */
  lemma FirstLeader(a: NodeId, b: NodeId, c: NodeId) returns (trace: seq<Cluster>, s: Cluster)
    requires Distinct(a, b, c)
    ensures Ends(Members(a, b, c), trace, s) && s.nodes.Keys == {a, b, c}
    ensures Elected(s.nodes[a], a) && s.nodes[a].outbox == [] && s.nodes[c] == Standing(c) && Ask(c, a) in s.sent
  {
    MemberFacts3(a, b, c);
    VoterTick(a, b, c);
    WinningTick(a, b, c, b);
    AllocatedFacts(a);
    MessageFacts(a, b, c);
    assert a != b && a != c && b != c;
    hide *;
    var cfgs := Members(a, b, c);
    var t0, s0 := TwoCandidates(a, b, c);
    InOutgoing(Tick(Member(b, a, c), Fresh(9), [Ask(a, b)], 9), Grant(b, a));
    var t1, s1 := Deliver1(cfgs, t0, s0, Ask(a, b));
    trace, s := Deliver1(cfgs, t1, s1, Grant(b, a));
    ElectedFlushed(Tick(Member(a, b, c), Standing(a), [Grant(b, a)], 9), a);
  }

  lemma MessageFacts(a: NodeId, b: NodeId, c: NodeId)
    ensures Ask(a, b).to == b && Ask(c, a).to == a && Grant(b, a).to == a && Grant(a, c).to == c
  {
  }

  lemma ElectedFlushed(s: NodeState, id: NodeId)
    requires Elected(s, id)
    ensures Elected(s.(outbox := []), id) && s.role == Leader && s.term == 1
  {
  }

  /** The second half: `a` steps down, votes for `c` in the same term, and `c` leads it. */
  lemma SecondLeader(a: NodeId, b: NodeId, c: NodeId, t0: seq<Cluster>, s0: Cluster)
    returns (trace: seq<Cluster>, s: Cluster)
    requires Distinct(a, b, c) && Ends(Members(a, b, c), t0, s0) && s0.nodes.Keys == {a, b, c}
    requires Elected(s0.nodes[a], a) && s0.nodes[a].outbox == [] && s0.nodes[c] == Standing(c) && Ask(c, a) in s0.sent
    ensures Ends(Members(a, b, c), trace, s) && s.nodes.Keys == {a, b, c} && Elected(s.nodes[c], c)
    ensures 0 < |t0| < |trace| && trace[|t0| - 1] == s0
  {
    MemberFacts3(a, b, c);
    AllocatedFacts(a);
    AllocatedFacts(c);
    MessageFacts(a, b, c);
    WinningTick(c, a, b, a);
    ElectedFlushed(Tick(Member(c, a, b), Standing(c), [Grant(a, c)], 9), c);
    LosingTick(a, b, c, s0.nodes[a]);
    assert a != b && a != c && b != c;
    hide *;
    var cfgs := Members(a, b, c);
    var t1, s1 := Tick1(cfgs, t0, s0, a);
    LateGrant(a, b, c, s1.nodes[a]);
    InOutgoing(Tick(Member(a, b, c), s1.nodes[a], [Ask(c, a)], 9), Grant(a, c));
    var t2, s2 := Deliver1(cfgs, t1, s1, Ask(c, a));
    trace, s := Deliver1(cfgs, t2, s2, Grant(a, c));
    EndsFacts(cfgs, t0, s0);
  }

  /** Two nodes lead the same term, one after the other. */
  lemma TermLedTwice(a: NodeId, b: NodeId, c: NodeId) returns (trace: seq<Cluster>, k: nat, n: nat)
    requires Distinct(a, b, c)
    ensures Run(Members(a, b, c), trace)
    ensures k < n < |trace| && a in trace[k].nodes && c in trace[n].nodes
    ensures trace[k].nodes[a].role == Leader && trace[k].nodes[a].term == 1
    ensures trace[n].nodes[c].role == Leader && trace[n].nodes[c].term == 1
  {
    hide *;
    var cfgs := Members(a, b, c);
    var t0, s0 := FirstLeader(a, b, c);
    EndsFacts(cfgs, t0, s0);
    ElectedFlushed(s0.nodes[a], a);
    var t1, s1 := SecondLeader(a, b, c, t0, s0);
    EndsFacts(cfgs, t1, s1);
    ElectedFlushed(s1.nodes[c], c);
    trace, k, n := t1, |t0| - 1, |t1| - 1;
  }
}
