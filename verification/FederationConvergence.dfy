/**
 Runs of a federation in which one pass over one peer, or one authored write, is a single event: a
 schedule of failure-free meetings makes all regions agree exactly when it lets every region hear, directly
 or through others, from every other. FederationInterleaving takes the events apart.
 */
module FederationConvergence {
  import opened Wrappers
  import opened Federation

  type System = map<RegionId, Store>

  datatype Event =
    | Meet(local: RegionId, remote: RegionId, faults: Faults)
    | Write(region: RegionId, id: string, body: string, now: int)

  function Step(sys: System, e: Event): System {
    match e
    case Meet(a, b, faults) =>
      if a in sys && b in sys && a != b then
        var (l, r) := ReconcileStores(sys[a], sys[b], faults);
        sys[a := l][b := r]
      else sys
    case Write(r, id, body, now) =>
      if r in sys && id != "" then sys[r := sys[r][id := Revised(sys[r], r, id, body, now)]] else sys
  }

  function Run(sys: System, events: seq<Event>): (s: System)
    ensures s.Keys == sys.Keys
    decreases |events|
  {
    if events == [] then sys else Step(Run(sys, events[..|events| - 1]), events[|events| - 1])
  }

  function At(sys: System, r: RegionId, id: string): Option<Policy> {
    if r in sys then Lookup(sys[r], id) else None
  }

  // ----- what one event can lower -----

  /** A write to a policy already at the last version, whose successor is version 0. */
  predicate Wraps(sys: System, e: Event) {
    e.Write? && e.id != "" && e.region in sys && e.id in sys[e.region] && sys[e.region][e.id].version == MAX_VERSION
  }

  /** The only event that lowers a revision anywhere is a write that wraps, and it lowers that one revision. */
  lemma EventLowers(sys: System, e: Event, r: RegionId, id: string)
    ensures !AtMost(At(sys, r, id), At(Step(sys, e), r, id)) <==> Wraps(sys, e) && r == e.region && id == e.id
  {
    if e.Write? {
      if e.region in sys { AuthoringAdvances(sys[e.region], e.region, e.id, e.body, e.now); }
    } else if e.local in sys && e.remote in sys {
      ReconcileNeverRegresses(sys[e.local], sys[e.remote], e.faults, id);
    }
  }

  // ----- who has heard from whom -----

  predicate Contact(sys: System, e: Event) {
    && e.Meet? && e.local in sys && e.remote in sys && e.local != e.remote
    && !e.faults.listLocal && !e.faults.listRemote && e.faults.puts == {}
  }

  /** The regions that have heard from r: directly, or from one that had heard before. */
  function Informed(sys: System, events: seq<Event>, r: RegionId): set<RegionId>
    decreases |events|
  {
    if events == [] then {r}
    else
      var known := Informed(sys, events[..|events| - 1], r);
      var e := events[|events| - 1];
      if Contact(sys, e) && (e.local in known || e.remote in known) then known + {e.local, e.remote} else known
  }

  predicate OnlyMeets(events: seq<Event>) {
    forall k :: 0 <= k < |events| ==> events[k].Meet?
  }

  predicate AllContacts(sys: System, events: seq<Event>) {
    forall k :: 0 <= k < |events| ==> Contact(sys, events[k])
  }

  /** A region that has heard from p is at least as far as p was at the start. */
  lemma {:induction false} InformedCatchesUp(sys: System, events: seq<Event>, p: RegionId, q: RegionId, id: string)
    requires OnlyMeets(events) && p in sys && q in Informed(sys, events, p)
    ensures AtMost(At(sys, p, id), At(Run(sys, events), q, id))
    decreases |events|
  {
    if events == [] { return; }
    var before, e := events[..|events| - 1], events[|events| - 1];
    var mid := Run(sys, before);
    EventLowers(mid, e, q, id);
    if q in Informed(sys, before, p) {
      InformedCatchesUp(sys, before, p, q, id);
      AtMostOrder(At(sys, p, id), At(mid, q, id), At(Run(sys, events), q, id));
    } else {
      var teller := if q == e.local then e.remote else e.local;
      InformedCatchesUp(sys, before, p, teller, id);
      MeetJoins(mid, e, id);
      AtMostOrder(At(sys, p, id), At(mid, teller, id), At(Run(sys, events), q, id));
    }
  }

  lemma MeetJoins(sys: System, e: Event, id: string)
    requires Contact(sys, e)
    ensures forall q, t :: q in {e.local, e.remote} && t in {e.local, e.remote} ==>
              AtMost(At(sys, t, id), At(Step(sys, e), q, id))
  {
    var l, r := sys[e.local], sys[e.remote];
    ReconcileJoins(l, r, e.faults, id);
  }

  /** Meetings invent nothing: every revision was some region's at the start. */
  lemma {:induction false} MeetingsInventNothing(sys: System, events: seq<Event>, q: RegionId, id: string)
    returns (p: RegionId)
    requires OnlyMeets(events) && q in sys
    ensures p in sys && At(Run(sys, events), q, id) == At(sys, p, id)
    decreases |events|
  {
    if events == [] { return q; }
    var before, e := events[..|events| - 1], events[|events| - 1];
    var mid, end := Run(sys, before), Run(sys, events);
    if At(end, q, id) == At(mid, q, id) {
      p := MeetingsInventNothing(sys, before, q, id);
    } else {
      p := MeetingsInventNothing(sys, before, if q == e.local then e.remote else e.local, id);
    }
  }

  /** The region that starts with the newest revision keeps exactly that policy. */
  lemma {:induction false} NewestKeepsIts(sys: System, events: seq<Event>, p: RegionId, id: string)
    requires OnlyMeets(events) && p in sys && Newest(sys, p, id)
    ensures At(Run(sys, events), p, id) == At(sys, p, id)
    decreases |events|
  {
    if events == [] { return; }
    var before, e := events[..|events| - 1], events[|events| - 1];
    hide Step, At, AtMost;
    NewestKeepsIts(sys, before, p, id);
    forall q | q in sys
      ensures AtMost(At(Run(sys, before), q, id), At(sys, p, id))
    {
      var origin := MeetingsInventNothing(sys, before, q, id);
    }
    NewestKeepsItsOnce(Run(sys, before), e, p, id);
  }

  lemma NewestKeepsItsOnce(sys: System, e: Event, p: RegionId, id: string)
    requires e.Meet? && p in sys && Newest(sys, p, id)
    ensures At(Step(sys, e), p, id) == At(sys, p, id)
  {
    if e.local in sys && e.remote in sys {
      assert AtMost(At(sys, e.local, id), At(sys, p, id)) && AtMost(At(sys, e.remote, id), At(sys, p, id));
    }
  }

  predicate Newest(sys: System, p: RegionId, id: string) {
    forall q :: q in sys ==> AtMost(At(sys, q, id), At(sys, p, id))
  }

  // ----- convergence -----

  /** Every region ends at the newest of the revisions the regions started with. */
  predicate Converged(start: System, end: System, id: string) {
    forall q {:trigger AtNewest(start, end, q, id)} :: q in start ==> AtNewest(start, end, q, id)
  }

  predicate AtNewest(start: System, end: System, q: RegionId, id: string) {
    exists p :: p in start && Newest(start, p, id) && SameRevision(At(end, q, id), At(start, p, id))
  }

  predicate Gossips(sys: System, events: seq<Event>) {
    forall p, q :: p in sys && q in sys ==> q in Informed(sys, events, p)
  }

  /**
   Failure-free meetings make every region reach the newest revision of every policy, whatever the
   regions start with, exactly when every region hears from every other. (Failing meetings in between
   do no harm: only the converse needs every meeting to succeed.)
   */
  lemma GossipConverges(sys: System, events: seq<Event>, id: string)
    requires OnlyMeets(events) && Gossips(sys, events)
    ensures Converged(sys, Run(sys, events), id)
  {
    forall q | q in sys
      ensures AtNewest(sys, Run(sys, events), q, id)
    {
      var p := EndsAtNewest(sys, events, q, id);
    }
  }

  /** What a region ends with is the very policy of one that started with the newest revision. */
  lemma EndsAtNewest(sys: System, events: seq<Event>, q: RegionId, id: string) returns (p: RegionId)
    requires OnlyMeets(events) && Gossips(sys, events) && q in sys
    ensures p in sys && Newest(sys, p, id) && At(Run(sys, events), q, id) == At(sys, p, id)
    ensures SameRevision(At(Run(sys, events), q, id), At(sys, p, id))
  {
    p := MeetingsInventNothing(sys, events, q, id);
    forall o | o in sys
      ensures AtMost(At(sys, o, id), At(sys, p, id))
    {
      InformedCatchesUp(sys, events, o, q, id);
    }
    AtMostOrder(At(sys, p, id), None, None);
  }

  lemma SameRevisionChain(a: Option<Policy>, b: Option<Policy>, c: Option<Policy>)
    requires SameRevision(a, b) && SameRevision(b, c)
    ensures SameRevision(a, c)
  {
    AtMostOrder(a, b, c);
    AtMostOrder(c, b, a);
  }

  /** Converged regions hold the same revision. */
  lemma ConvergedAgree(start: System, end: System, id: string, q: RegionId, r: RegionId)
    requires Converged(start, end, id) && q in start && r in start
    ensures SameRevision(At(end, q, id), At(end, r, id))
  {
    hide AtMost, At;
    assert AtNewest(start, end, q, id) && AtNewest(start, end, r, id);
    var p :| p in start && Newest(start, p, id) && SameRevision(At(end, q, id), At(start, p, id));
    var p' :| p' in start && Newest(start, p', id) && SameRevision(At(end, r, id), At(start, p', id));
    SameRevisionChain(At(end, q, id), At(start, p, id), At(start, p', id));
    SameRevisionChain(At(end, q, id), At(start, p', id), At(end, r, id));
  }

  /** The stores in which only p holds anything: one policy. */
  function OnlyAt(regions: set<RegionId>, p: RegionId, policy: Policy): System {
    map r | r in regions :: if r == p then map[policy.id := policy] else map[]
  }

  lemma {:induction false} UninformedStaysEmpty(sys: System, events: seq<Event>, p: RegionId, q: RegionId,
                                                policy: Policy)
    requires AllContacts(sys, events) && q !in Informed(sys, events, p)
    ensures At(Run(OnlyAt(sys.Keys, p, policy), events), q, policy.id) == None
    decreases |events|
  {
    if events == [] { return; }
    var before, e := events[..|events| - 1], events[|events| - 1];
    UninformedStaysEmpty(sys, before, p, q, policy);
    if q == e.local || q == e.remote {
      UninformedStaysEmpty(sys, before, p, if q == e.local then e.remote else e.local, policy);
    }
  }

  lemma NotConverged(start: System, end: System, p: RegionId, q: RegionId, id: string)
    requires p in start && q in start && At(start, p, id).Some? && At(end, q, id).None?
    ensures !Converged(start, end, id)
  {
    forall o | o in start && Newest(start, o, id)
      ensures !SameRevision(At(end, q, id), At(start, o, id))
    {
      assert AtMost(At(start, p, id), At(start, o, id));
    }
    assert !AtNewest(start, end, q, id);
  }

  lemma ConvergenceNeedsGossip(sys: System, events: seq<Event>, policy: Policy)
    requires AllContacts(sys, events)
    ensures Gossips(sys, events) <==>
            forall start: System :: start.Keys == sys.Keys ==> Converged(start, Run(start, events), policy.id)
  {
    hide Converged, Run, Informed;
    if Gossips(sys, events) {
      forall start: System | start.Keys == sys.Keys
        ensures Converged(start, Run(start, events), policy.id)
      {
        forall p { SameInformed(sys, start, events, p); }
        GossipConverges(start, events, policy.id);
      }
    } else {
      var p, q :| p in sys && q in sys && q !in Informed(sys, events, p);
      var start := OnlyAt(sys.Keys, p, policy);
      UninformedStaysEmpty(sys, events, p, q, policy);
      assert start.Keys == sys.Keys;
      NotConverged(start, Run(start, events), p, q, policy.id);
    }
  }

  lemma {:induction false} SameInformed(a: System, b: System, events: seq<Event>, p: RegionId)
    requires a.Keys == b.Keys
    ensures Informed(a, events, p) == Informed(b, events, p)
    decreases |events|
  {
    if events != [] { SameInformed(a, b, events[..|events| - 1], p); }
  }

  /** Regions that hold the newest revision of a policy hold the same policy. */
  predicate Undisputed(sys: System, id: string) {
    forall p, q :: p in sys && q in sys && Newest(sys, p, id) && Newest(sys, q, id) ==> At(sys, p, id) == At(sys, q, id)
  }

  /**
   After the gossip the stores are the same map exactly when no policy's newest revision was held with
   two contents: revisions with one version and one timestamp are never exchanged.
   */
  lemma StoresAgree(sys: System, events: seq<Event>)
    requires OnlyMeets(events) && Gossips(sys, events)
    ensures (forall p, q :: p in sys && q in sys ==> Run(sys, events)[p] == Run(sys, events)[q])
            <==> forall id :: Undisputed(sys, id)
  {
    var end := Run(sys, events);
    if forall id :: Undisputed(sys, id) {
      forall p, q | p in sys && q in sys
        ensures end[p] == end[q]
      {
        forall id
          ensures Lookup(end[p], id) == Lookup(end[q], id)
        {
          AgreeOn(sys, events, p, q, id);
        }
        SameLookups(end[p], end[q]);
      }
    } else {
      var id :| !Undisputed(sys, id);
      var p, q :| p in sys && q in sys && Newest(sys, p, id) && Newest(sys, q, id) && At(sys, p, id) != At(sys, q, id);
      NewestKeepsIts(sys, events, p, id);
      NewestKeepsIts(sys, events, q, id);
      assert Lookup(end[p], id) != Lookup(end[q], id);
    }
  }

  lemma AgreeOn(sys: System, events: seq<Event>, p: RegionId, q: RegionId, id: string)
    requires OnlyMeets(events) && Gossips(sys, events) && Undisputed(sys, id) && p in sys && q in sys
    ensures At(Run(sys, events), p, id) == At(Run(sys, events), q, id)
  {
    var p' := EndsAtNewest(sys, events, p, id);
    var q' := EndsAtNewest(sys, events, q, id);
  }

  lemma SameLookups(a: Store, b: Store)
    requires forall id :: Lookup(a, id) == Lookup(b, id)
    ensures a == b
  {
    forall id
      ensures id in a <==> id in b
      ensures id in a ==> a[id] == b[id]
    {
      assert Lookup(a, id) == Lookup(b, id);
    }
  }

  // ----- what an author wrote reaches everyone -----

  /** A write changes one policy of one region: its body, author, time and version are those of the write. */
  lemma WriteIsHeld(sys: System, r: RegionId, id: string, body: string, now: int)
    requires r in sys && id != ""
    ensures var end := Step(sys, Write(r, id, body, now));
            && At(end, r, id) == Some(Policy(id, NextVersion(At(sys, r, id)), body, r, now))
            && forall q, i :: (q != r || i != id) ==> At(end, q, i) == At(sys, q, i)
  {
  }

  /**
   After an authored write, meetings through which all regions hear from each other leave every region with exactly
   the written policy if and only if no region was ahead of it and none held another policy of the same revision.
   */
  lemma WriteReachesAll(sys: System, r: RegionId, id: string, body: string, now: int, events: seq<Event>)
    requires r in sys && id != "" && OnlyMeets(events) && Gossips(sys, events)
    ensures var written := Policy(id, NextVersion(At(sys, r, id)), body, r, now);
            (forall q :: q in sys ==> At(Run(Step(sys, Write(r, id, body, now)), events), q, id) == Some(written))
            <==> forall q :: q in sys && q != r ==>
                   AtMost(At(sys, q, id), Some(written))
                   && (SameRevision(At(sys, q, id), Some(written)) ==> At(sys, q, id) == Some(written))
  {
    hide Run, Informed, Step, At;
    var start := Step(sys, Write(r, id, body, now));
    var written := Some(Policy(id, NextVersion(At(sys, r, id)), body, r, now));
    StepKeepsRegions(sys, Write(r, id, body, now));
    WriteIsHeld(sys, r, id, body, now);
    forall p { SameInformed(sys, start, events, p); }
    var end := Run(start, events);
    if forall q :: q in sys && q != r ==>
         AtMost(At(sys, q, id), written) && (SameRevision(At(sys, q, id), written) ==> At(sys, q, id) == written) {
      forall q | q in sys
        ensures At(end, q, id) == written
      {
        var p := EndsAtNewest(start, events, q, id);
        assert AtMost(At(start, r, id), At(start, p, id));
      }
    } else if forall q :: q in sys ==> At(end, q, id) == written {
      var q :| q in sys && q != r
        && !(AtMost(At(sys, q, id), written) && (SameRevision(At(sys, q, id), written) ==> At(sys, q, id) == written));
      var p := EndsAtNewest(start, events, q, id);
      assert AtMost(At(start, q, id), At(start, p, id));
      HolderKeeps(start, events, q, p, id);
    }
  }

  lemma StepKeepsRegions(sys: System, e: Event)
    ensures Step(sys, e).Keys == sys.Keys
  {
  }

  /** A region at the newest revision, whoever else holds it, keeps its own policy. */
  lemma HolderKeeps(sys: System, events: seq<Event>, q: RegionId, p: RegionId, id: string)
    requires OnlyMeets(events) && p in sys && q in sys && Newest(sys, p, id)
    requires SameRevision(At(sys, q, id), At(sys, p, id))
    ensures At(Run(sys, events), q, id) == At(sys, q, id)
  {
    hide Run, At, AtMost;
    forall o | o in sys
      ensures AtMost(At(sys, o, id), At(sys, q, id))
    {
      AtMostOrder(At(sys, o, id), At(sys, p, id), At(sys, q, id));
    }
    NewestKeepsIts(sys, events, q, id);
  }

  // ----- full passes -----

  /** The meetings of one region's pass over its targets. */
  function Meetings(self: RegionId, targets: seq<RegionId>, faults: RegionId -> Faults): (events: seq<Event>)
    ensures |events| == |targets| && OnlyMeets(events)
    ensures forall k :: 0 <= k < |targets| ==> events[k] == Meet(self, targets[k], faults(targets[k]))
  {
    seq(|targets|, k requires 0 <= k < |targets| => Meet(self, targets[k], faults(targets[k])))
  }

  /** A replicator's pass does to all the stores what its meetings do. */
  lemma {:induction false} PassIsMeetings(self: RegionId, local: Store, remotes: map<RegionId, Store>,
                                          targets: seq<RegionId>, faults: RegionId -> Faults, ok: bool)
    requires self !in remotes && self !in targets
    ensures var end := PassOverAll(Passed(local, remotes, ok), targets, faults);
            && end.remotes.Keys == remotes.Keys
            && Run(remotes[self := local], Meetings(self, targets, faults)) == end.remotes[self := end.local]
    decreases |targets|
  {
    if targets != [] {
      hide PassOver, Step;
      var n := |targets| - 1;
      PassIsMeetings(self, local, remotes, targets[..n], faults, ok);
      assert Meetings(self, targets, faults)[..n] == Meetings(self, targets[..n], faults);
      PassOverIsMeet(self, PassOverAll(Passed(local, remotes, ok), targets[..n], faults), targets[n],
                     faults(targets[n]));
    }
  }

  lemma PassOverIsMeet(self: RegionId, s: Passed, target: RegionId, faults: Faults)
    requires self !in s.remotes && self != target
    ensures var end := PassOver(s, target, faults);
            && end.remotes.Keys == s.remotes.Keys
            && Step(s.remotes[self := s.local], Meet(self, target, faults)) == end.remotes[self := end.local]
  {
    hide ReconcileStores, Clean;
  }

  /** Two regions that meet without failure have heard from each other. */
  lemma {:induction false} MetIsInformed(sys: System, events: seq<Event>, k: nat)
    requires k < |events| && Contact(sys, events[k])
    ensures events[k].remote in Informed(sys, events, events[k].local)
    ensures events[k].local in Informed(sys, events, events[k].remote)
    decreases |events|
  {
    var before := events[..|events| - 1];
    if k < |before| {
      MetIsInformed(sys, before, k);
    } else {
      InformedOfItself(sys, before, events[k].local);
      InformedOfItself(sys, before, events[k].remote);
    }
  }

  lemma {:induction false} InformedOfItself(sys: System, events: seq<Event>, r: RegionId)
    ensures r in Informed(sys, events, r)
    decreases |events|
  {
    if events != [] { InformedOfItself(sys, events[..|events| - 1], r); }
  }

  /** p and q meet without failure at some point. */
  predicate Met(sys: System, events: seq<Event>, p: RegionId, q: RegionId) {
    exists k :: 0 <= k < |events| && Contact(sys, events[k])
                && ((events[k].local, events[k].remote) == (p, q) || (events[k].local, events[k].remote) == (q, p))
  }

  /** Once every two regions have met, as when each passes over all the others, every region has heard from all. */
  lemma EveryPairMeets(sys: System, events: seq<Event>)
    requires forall p, q :: p in sys && q in sys && p != q ==> Met(sys, events, p, q)
    ensures Gossips(sys, events)
  {
    hide Informed;
    forall p, q | p in sys && q in sys
      ensures q in Informed(sys, events, p)
    {
      if p == q {
        InformedOfItself(sys, events, p);
      } else {
        assert Met(sys, events, p, q);
        var k :| 0 <= k < |events| && Contact(sys, events[k])
                 && ((events[k].local, events[k].remote) == (p, q) || (events[k].local, events[k].remote) == (q, p));
        MetIsInformed(sys, events, k);
      }
    }
  }

  /** The meetings of one failure-free pass by each region in turn. */
  function Passes(order: seq<RegionId>, targets: RegionId -> seq<RegionId>): (events: seq<Event>)
    ensures OnlyMeets(events)
    decreases |order|
  {
    if order == [] then []
    else
      var r := order[|order| - 1];
      Passes(order[..|order| - 1], targets) + Meetings(r, targets(r), _ => Faults(false, false, {}))
  }

  lemma {:induction false} PassesMeet(sys: System, order: seq<RegionId>, targets: RegionId -> seq<RegionId>,
                                      p: RegionId, q: RegionId)
    requires p in order && q in targets(p) && p in sys && q in sys && p != q
    ensures Met(sys, Passes(order, targets), p, q)
    decreases |order|
  {
    var r := order[|order| - 1];
    var before := Passes(order[..|order| - 1], targets);
    var events := Passes(order, targets);
    if p == r {
      var j :| 0 <= j < |targets(p)| && targets(p)[j] == q;
      assert events[|before| + j] == Meet(p, q, Faults(false, false, {}));
      assert Contact(sys, events[|before| + j]);
    } else {
      PassesMeet(sys, order[..|order| - 1], targets, p, q);
      var k :| 0 <= k < |before| && Contact(sys, before[k])
               && ((before[k].local, before[k].remote) == (p, q) || (before[k].local, before[k].remote) == (q, p));
      assert events[k] == before[k];
    }
  }

  /**
   Once every region has made one failure-free pass over all the others, in any order of regions and
   targets, every region holds the newest revision any of them started with.
   */
  lemma OnePassEach(sys: System, order: seq<RegionId>, targets: RegionId -> seq<RegionId>, id: string)
    requires forall p :: p in sys ==> p in order
    requires forall p, q :: p in sys && q in sys && p != q ==> q in targets(p)
    ensures Converged(sys, Run(sys, Passes(order, targets)), id)
  {
    hide Passes, Met, Gossips;
    forall p, q | p in sys && q in sys && p != q
      ensures Met(sys, Passes(order, targets), p, q)
    {
      PassesMeet(sys, order, targets, p, q);
    }
    EveryPairMeets(sys, Passes(order, targets));
    GossipConverges(sys, Passes(order, targets), id);
  }
}
