/**
 A federation at the grain of its store operations: a pass lists the local store, lists the peer's, and then
 writes one policy at a time; an author reads a policy and later stores its successor. Anything may happen in
 between. Revisions go back exactly at writes that have been overtaken since their target was read.
 */
module FederationInterleaving {
  import opened Wrappers
  import opened Federation
  import opened FederationConvergence

  /** A pass under way: its listings, when they were taken, and the ids it has yet to deal with. */
  datatype Pass = Pass(local: RegionId, remote: RegionId, here: Store, hereAt: nat,
                       there: Option<Store>, thereAt: nat, todo: set<string>)

  /** A revision an author has made from what it read, and whether it has been stored. */
  datatype Draft = Draft(region: RegionId, policy: Policy, readAt: nat, stored: bool)

  datatype Fleet = Fleet(time: nat, stores: System, passes: seq<Pass>, drafts: seq<Draft>)

  datatype Action =
    | ListLocal(local: RegionId, remote: RegionId)
    | ListRemote(pass: nat)
    | Copy(pass: nat, id: string, fails: bool)
    | Read(region: RegionId, id: string, body: string, now: int)
    | Commit(draft: nat)

  /** A write about to be made: the policy, the region, and when that region's store was read for it. */
  datatype Put = Put(region: RegionId, policy: Policy, since: nat)

  predicate Copies(f: Fleet, a: Action) {
    a.Copy? && a.pass < |f.passes| && f.passes[a.pass].there.Some? && a.id in f.passes[a.pass].todo
  }

  function CopyOf(p: Pass, id: string): Option<Put>
    requires p.there.Some?
  {
    var l, r := Lookup(p.here, id), Lookup(p.there.value, id);
    if CopiesHere(l, r) then Some(Put(p.local, r.value, p.hereAt))
    else if CopiesThere(l, r) then Some(Put(p.remote, l.value, p.thereAt))
    else None
  }

  /** What an action writes, decided from what was read earlier and not from what is there now. */
  function Written(f: Fleet, a: Action): Option<Put> {
    if Copies(f, a) && !a.fails then CopyOf(f.passes[a.pass], a.id)
    else if a.Commit? && a.draft < |f.drafts| && !f.drafts[a.draft].stored then
      var d := f.drafts[a.draft];
      Some(Put(d.region, d.policy, d.readAt))
    else None
  }

  function Stored(sys: System, w: Option<Put>): (s: System)
    ensures s.Keys == sys.Keys
  {
    if w.None? || w.value.region !in sys then sys
    else sys[w.value.region := sys[w.value.region][w.value.policy.id := w.value.policy]]
  }

  function Listings(f: Fleet, a: Action): seq<Pass> {
    match a
    case ListLocal(l, r) =>
      if l in f.stores && r in f.stores && l != r then f.passes + [Pass(l, r, f.stores[l], f.time, None, 0, {})]
      else f.passes
    case ListRemote(k) =>
      if k < |f.passes| && f.passes[k].there.None? && f.passes[k].remote in f.stores then
        var there := f.stores[f.passes[k].remote];
        f.passes[k := f.passes[k].(there := Some(there), thereAt := f.time, todo := f.passes[k].here.Keys + there.Keys)]
      else f.passes
    case Copy(k, id, _) =>
      if Copies(f, a) then f.passes[k := f.passes[k].(todo := f.passes[k].todo - {id})] else f.passes
    case _ => f.passes
  }

  function Drafts(f: Fleet, a: Action): seq<Draft> {
    match a
    case Read(r, id, body, now) =>
      if r in f.stores && id != "" then f.drafts + [Draft(r, Revised(f.stores[r], r, id, body, now), f.time, false)]
      else f.drafts
    case Commit(k) => if k < |f.drafts| then f.drafts[k := f.drafts[k].(stored := true)] else f.drafts
    case _ => f.drafts
  }

  function Do(f: Fleet, a: Action): Fleet {
    Fleet(f.time + 1, Stored(f.stores, Written(f, a)), Listings(f, a), Drafts(f, a))
  }

  /** The fleet before the n-th action of a run. */
  function When(f0: Fleet, actions: seq<Action>, n: nat): (f: Fleet)
    requires n <= |actions|
    ensures f.stores.Keys == f0.stores.Keys && f.time == f0.time + n
  {
    if n == 0 then f0 else Do(When(f0, actions, n - 1), actions[n - 1])
  }

  predicate Idle(f: Fleet) {
    f.time == 0 && f.passes == [] && f.drafts == [] && forall r :: r in f.stores ==> Keyed(f.stores[r])
  }

  /** A draft is stored once: after the first commit of it, no later one writes anything. */
  lemma {:induction false} CommitsOnce(f0: Fleet, actions: seq<Action>, m: nat, n: nat, k: nat)
    requires m < n < |actions| && actions[m] == Commit(k) && actions[n] == Commit(k)
    requires k < |When(f0, actions, m).drafts|
    ensures Written(When(f0, actions, n), actions[n]).None?
  {
    StaysStored(f0, actions, m, n, k);
  }

  lemma {:induction false} StaysStored(f0: Fleet, actions: seq<Action>, m: nat, n: nat, k: nat)
    requires m < n <= |actions| && actions[m] == Commit(k) && k < |When(f0, actions, m).drafts|
    ensures k < |When(f0, actions, n).drafts| && When(f0, actions, n).drafts[k].stored
    decreases n
  {
    hide Written, Stored, Listings;
    if m + 1 < n { StaysStored(f0, actions, m, n - 1, k); }
  }

  // ----- which action lowers a revision -----

  /** The write has been overtaken: its target holds a newer revision by now. */
  predicate Stale(f: Fleet, a: Action) {
    var w := Written(f, a);
    w.Some? && !AtMost(At(f.stores, w.value.region, w.value.policy.id), Some(w.value.policy))
  }

  /** Whether an action writes a policy of a region. */
  predicate Targets(f: Fleet, a: Action, r: RegionId, id: string) {
    Written(f, a).Some? && Written(f, a).value.region == r && Written(f, a).value.policy.id == id
  }

  lemma StepLowers(f: Fleet, a: Action, r: RegionId, id: string)
    requires Targets(f, a, r, id) ==> r in f.stores
    ensures !AtMost(At(f.stores, r, id), At(Do(f, a).stores, r, id)) <==> Stale(f, a) && Targets(f, a, r, id)
    ensures At(Do(f, a).stores, r, id)
            == if Targets(f, a, r, id) then Some(Written(f, a).value.policy) else At(f.stores, r, id)
  {
    hide Written;
    AtMostOrder(At(f.stores, r, id), None, None);
  }

  // ----- what a write was decided from -----

  ghost predicate PassRecorded(f0: Fleet, actions: seq<Action>, n: nat, p: Pass)
    requires n <= |actions|
  {
    && p.local in f0.stores && p.remote in f0.stores && Keyed(p.here)
    && p.hereAt < n && actions[p.hereAt].ListLocal? && p.here == When(f0, actions, p.hereAt).stores[p.local]
    && (p.there.Some? ==>
          && p.hereAt < p.thereAt < n && actions[p.thereAt].ListRemote? && Keyed(p.there.value)
          && p.there.value == When(f0, actions, p.thereAt).stores[p.remote])
  }

  ghost predicate DraftRecorded(f0: Fleet, actions: seq<Action>, n: nat, d: Draft)
    requires n <= |actions|
  {
    && d.region in f0.stores && d.readAt < n && actions[d.readAt].Read?
    && d.policy == Revised(When(f0, actions, d.readAt).stores[d.region], d.region, d.policy.id, d.policy.body,
                           d.policy.updatedAt)
  }

  ghost predicate Recorded(f0: Fleet, actions: seq<Action>, n: nat)
    requires n <= |actions|
  {
    var f := When(f0, actions, n);
    && f.time == n
    && (forall r :: r in f.stores ==> Keyed(f.stores[r]))
    && (forall k :: 0 <= k < |f.passes| ==> PassRecorded(f0, actions, n, f.passes[k]))
    && (forall k :: 0 <= k < |f.drafts| ==> DraftRecorded(f0, actions, n, f.drafts[k]))
  }

  lemma {:induction false} Records(f0: Fleet, actions: seq<Action>, n: nat)
    requires Idle(f0) && n <= |actions|
    ensures Recorded(f0, actions, n)
    decreases n
  {
    if n > 0 {
      hide Recorded;
      Records(f0, actions, n - 1);
      NextRecorded(f0, actions, n - 1);
    }
  }

  lemma NextRecorded(f0: Fleet, actions: seq<Action>, n: nat)
    requires n < |actions| && Recorded(f0, actions, n) && f0.time == 0
    ensures Recorded(f0, actions, n + 1)
  {
    hide Listings, Drafts, Stored, Written, PassRecorded, DraftRecorded, Keyed;
    var f, a := When(f0, actions, n), actions[n];
    PassesRecorded(f0, actions, n, f, a);
    DraftsRecorded(f0, actions, n, f, a);
    StoresKeyed(f0, actions, n, f, a);
  }

  lemma PassesRecorded(f0: Fleet, actions: seq<Action>, n: nat, f: Fleet, a: Action)
    requires n < |actions| && f == When(f0, actions, n) && a == actions[n] && Recorded(f0, actions, n)
    ensures forall k :: 0 <= k < |Listings(f, a)| ==> PassRecorded(f0, actions, n + 1, Listings(f, a)[k])
  {
    hide When, Keyed, PassRecorded, DraftRecorded, CopyOf;
    forall k | 0 <= k < |Listings(f, a)|
      ensures PassRecorded(f0, actions, n + 1, Listings(f, a)[k])
    {
      if k < |f.passes| { assert PassRecorded(f0, actions, n, f.passes[k]); }
      PassRecordedNext(f0, actions, n, f, a, k);
    }
  }

  lemma PassRecordedNext(f0: Fleet, actions: seq<Action>, n: nat, f: Fleet, a: Action, k: nat)
    requires n < |actions| && f == When(f0, actions, n) && a == actions[n] && f.time == n
    requires k < |Listings(f, a)| && (k < |f.passes| ==> PassRecorded(f0, actions, n, f.passes[k]))
    requires forall r :: r in f.stores ==> Keyed(f.stores[r])
    ensures PassRecorded(f0, actions, n + 1, Listings(f, a)[k])
  {
    hide When, Keyed, CopyOf;
  }

  lemma DraftsRecorded(f0: Fleet, actions: seq<Action>, n: nat, f: Fleet, a: Action)
    requires n < |actions| && f == When(f0, actions, n) && a == actions[n] && Recorded(f0, actions, n)
    ensures forall k :: 0 <= k < |Drafts(f, a)| ==> DraftRecorded(f0, actions, n + 1, Drafts(f, a)[k])
  {
    hide When;
    forall k | 0 <= k < |Drafts(f, a)|
      ensures DraftRecorded(f0, actions, n + 1, Drafts(f, a)[k])
    {
      if k < |f.drafts| { assert DraftRecorded(f0, actions, n, f.drafts[k]); }
    }
  }

  lemma StoresKeyed(f0: Fleet, actions: seq<Action>, n: nat, f: Fleet, a: Action)
    requires n < |actions| && f == When(f0, actions, n) && a == actions[n] && Recorded(f0, actions, n)
    ensures forall r :: r in Do(f, a).stores ==> Keyed(Do(f, a).stores[r])
  {
    hide When, Written;
  }

  /** The draft's successor version wrapped to 0. */
  ghost predicate Wrapped(f0: Fleet, actions: seq<Action>, n: nat)
    requires n < |actions|
  {
    var w := Written(When(f0, actions, n), actions[n]);
    && actions[n].Commit? && w.Some? && w.value.since < n
    && var read := At(When(f0, actions, w.value.since).stores, w.value.region, w.value.policy.id);
       read.Some? && read.value.version == MAX_VERSION
  }

  /** When its target was read, a write was an advance, unless it is a draft that wrapped. */
  lemma AdvancesWhatWasRead(f0: Fleet, actions: seq<Action>, n: nat)
    requires Idle(f0) && n < |actions| && Written(When(f0, actions, n), actions[n]).Some?
    ensures var w := Written(When(f0, actions, n), actions[n]).value;
            && w.region in f0.stores && w.since < n && OnlyReads(actions[w.since])
            && (Wrapped(f0, actions, n)
                || AtMost(At(When(f0, actions, w.since).stores, w.region, w.policy.id), Some(w.policy)))
  {
    hide When, PassRecorded, DraftRecorded, AtMost, At, CopyOf, Keyed;
    Records(f0, actions, n);
    var f, a := When(f0, actions, n), actions[n];
    if a.Copy? {
      CopyAdvances(f0, actions, n, f.passes[a.pass], a.id);
    } else {
      DraftAdvances(f0, actions, n, f.drafts[a.draft]);
    }
  }

  predicate OnlyReads(a: Action) {
    !a.Copy? && !a.Commit?
  }

  lemma CopyAdvances(f0: Fleet, actions: seq<Action>, n: nat, p: Pass, id: string)
    requires n <= |actions| && PassRecorded(f0, actions, n, p) && p.there.Some? && CopyOf(p, id).Some?
    ensures var w := CopyOf(p, id).value;
            && w.region in f0.stores && w.since < n && OnlyReads(actions[w.since])
            && AtMost(At(When(f0, actions, w.since).stores, w.region, w.policy.id), Some(w.policy))
  {
    hide When;
  }

  lemma DraftAdvances(f0: Fleet, actions: seq<Action>, n: nat, d: Draft)
    requires n <= |actions| && DraftRecorded(f0, actions, n, d)
    ensures d.region in f0.stores && d.readAt < n && OnlyReads(actions[d.readAt])
    ensures var read := At(When(f0, actions, d.readAt).stores, d.region, d.policy.id);
            AtMost(read, Some(d.policy)) || (read.Some? && read.value.version == MAX_VERSION)
  {
    hide When;
    AuthoringAdvances(When(f0, actions, d.readAt).stores[d.region], d.region, d.policy.id, d.policy.body,
                      d.policy.updatedAt);
  }

  // ----- revisions go back only where a write is overtaken -----

  lemma WhenNext(f0: Fleet, actions: seq<Action>, n: nat)
    requires n < |actions|
    ensures When(f0, actions, n + 1) == Do(When(f0, actions, n), actions[n])
  {
  }

  /** An action that writes a newer revision of what w writes. */
  predicate Overtakes(f: Fleet, a: Action, w: Put) {
    Targets(f, a, w.region, w.policy.id) && !AtMost(Some(Written(f, a).value.policy), Some(w.policy))
  }

  lemma {:induction false} OvertakenBetween(f0: Fleet, actions: seq<Action>, l: nat, n: nat, w: Put) returns (m: nat)
    requires l <= n <= |actions| && w.region in f0.stores
    requires AtMost(At(When(f0, actions, l).stores, w.region, w.policy.id), Some(w.policy))
    requires !AtMost(At(When(f0, actions, n).stores, w.region, w.policy.id), Some(w.policy))
    ensures l <= m < n && Overtakes(When(f0, actions, m), actions[m], w)
    decreases n
  {
    hide When, Written, AtMost, At, Do, Stale, Targets;
    var f := When(f0, actions, n - 1);
    assert n > l;
    WhenNext(f0, actions, n - 1);
    StepLowers(f, actions[n - 1], w.region, w.policy.id);
    if AtMost(At(f.stores, w.region, w.policy.id), Some(w.policy)) {
      m := n - 1;
    } else {
      m := OvertakenBetween(f0, actions, l, n - 1, w);
    }
  }

  /** After its target had been read, and before it was made, another write put a newer revision there. */
  ghost predicate Overtaken(f0: Fleet, actions: seq<Action>, n: nat)
    requires n < |actions|
  {
    var w := Written(When(f0, actions, n), actions[n]);
    w.Some? && exists m :: w.value.since < m < n && Overtakes(When(f0, actions, m), actions[m], w.value)
  }

  /** In every interleaving, an action that lowers a revision is a wrapped commit, or a write that was overtaken. */
  lemma LoweredOnlyIfOvertaken(f0: Fleet, actions: seq<Action>, n: nat)
    requires Idle(f0) && n < |actions| && Stale(When(f0, actions, n), actions[n])
    ensures Wrapped(f0, actions, n) || Overtaken(f0, actions, n)
  {
    hide When, AtMost, At;
    AdvancesWhatWasRead(f0, actions, n);
    var w := Written(When(f0, actions, n), actions[n]).value;
    if !Wrapped(f0, actions, n) {
      var m := OvertakenBetween(f0, actions, w.since, n, w);
      assert m != w.since;
    }
  }

  /** No revision anywhere goes back at the n-th action. */
  ghost predicate Rises(f0: Fleet, actions: seq<Action>, n: nat)
    requires n < |actions|
  {
    forall r, id :: AtMost(At(When(f0, actions, n).stores, r, id), At(When(f0, actions, n + 1).stores, r, id))
  }

  lemma {:induction false} RisesBetween(f0: Fleet, actions: seq<Action>, l: nat, n: nat, r: RegionId, id: string)
    requires l <= n <= |actions| && forall k :: l <= k < n ==> Rises(f0, actions, k)
    ensures AtMost(At(When(f0, actions, l).stores, r, id), At(When(f0, actions, n).stores, r, id))
    decreases n
  {
    hide AtMost, At, When;
    if l == n {
      AtMostOrder(At(When(f0, actions, n).stores, r, id), None, None);
    } else {
      RisesBetween(f0, actions, l, n - 1, r, id);
      assert Rises(f0, actions, n - 1);
      AtMostOrder(At(When(f0, actions, l).stores, r, id), At(When(f0, actions, n - 1).stores, r, id),
                  At(When(f0, actions, n).stores, r, id));
    }
  }

  /** Between two points of any run without a wrapped version or an overtaken write no revision goes back. */
  lemma RunNeverRegresses(f0: Fleet, actions: seq<Action>, from: nat, until: nat, r: RegionId, id: string)
    requires Idle(f0) && from <= until <= |actions|
    requires forall n :: from <= n < until ==> !Overtaken(f0, actions, n) && !Wrapped(f0, actions, n)
    ensures AtMost(At(When(f0, actions, from).stores, r, id), At(When(f0, actions, until).stores, r, id))
  {
    hide Rises, When, Stale, Wrapped, Overtaken;
    forall n | from <= n < until
      ensures Rises(f0, actions, n)
    {
      RisesUnlessStale(f0, actions, n);
      if Stale(When(f0, actions, n), actions[n]) { LoweredOnlyIfOvertaken(f0, actions, n); }
    }
    RisesBetween(f0, actions, from, until, r, id);
  }

  /** A write that was overtaken lowers a revision, unless one went back in between. */
  lemma OvertakenLowers(f0: Fleet, actions: seq<Action>, n: nat)
    requires Idle(f0) && n < |actions| && Overtaken(f0, actions, n)
    requires forall k :: 0 <= k < n ==> Rises(f0, actions, k)
    ensures Stale(When(f0, actions, n), actions[n])
  {
    hide When, AtMost, At, Do, Written, Rises;
    var w := Written(When(f0, actions, n), actions[n]).value;
    var m :| w.since < m < n && Overtakes(When(f0, actions, m), actions[m], w);
    var r, id := w.region, w.policy.id;
    WhenNext(f0, actions, m);
    TargetsRegion(f0, actions, m, r, id);
    StepLowers(When(f0, actions, m), actions[m], r, id);
    RisesBetween(f0, actions, m + 1, n, r, id);
    AtMostOrder(At(When(f0, actions, m + 1).stores, r, id), At(When(f0, actions, n).stores, r, id), Some(w.policy));
  }

  /** So does a commit whose version wrapped: every other revision is newer than version 0 of it. */
  lemma WrappedLowers(f0: Fleet, actions: seq<Action>, n: nat)
    requires Idle(f0) && n < |actions| && Wrapped(f0, actions, n)
    requires forall k :: 0 <= k < n ==> Rises(f0, actions, k)
    ensures Stale(When(f0, actions, n), actions[n])
  {
    hide When, Rises, PassRecorded;
    var d := When(f0, actions, n).drafts[actions[n].draft];
    Records(f0, actions, n);
    assert DraftRecorded(f0, actions, n, d);
    RisesBetween(f0, actions, d.readAt, n, d.region, d.policy.id);
  }

  /**
   Exactly: over any run of interleaved passes and authors revisions never go back if and only if no commit
   wraps and no write is overtaken between the reading of its target and the write.
   */
  lemma NeverRegressesExactly(f0: Fleet, actions: seq<Action>)
    requires Idle(f0)
    ensures (forall n :: 0 <= n < |actions| ==> Rises(f0, actions, n)) <==>
            forall n :: 0 <= n < |actions| ==> !Wrapped(f0, actions, n) && !Overtaken(f0, actions, n)
  {
    hide Rises, When, Stale, Wrapped, Overtaken;
    if forall n :: 0 <= n < |actions| ==> Rises(f0, actions, n) {
      forall n | 0 <= n < |actions|
        ensures !Wrapped(f0, actions, n) && !Overtaken(f0, actions, n)
      {
        RisesUnlessStale(f0, actions, n);
        if Wrapped(f0, actions, n) { WrappedLowers(f0, actions, n); }
        if Overtaken(f0, actions, n) { OvertakenLowers(f0, actions, n); }
      }
    } else {
      var n :| 0 <= n < |actions| && !Rises(f0, actions, n);
      RisesUnlessStale(f0, actions, n);
      LoweredOnlyIfOvertaken(f0, actions, n);
    }
  }

  lemma RisesUnlessStale(f0: Fleet, actions: seq<Action>, n: nat)
    requires Idle(f0) && n < |actions|
    ensures Rises(f0, actions, n) <==> !Stale(When(f0, actions, n), actions[n])
  {
    hide AtMost, At, When, Written, Do;
    var f, a := When(f0, actions, n), actions[n];
    WhenNext(f0, actions, n);
    forall r, id
      ensures !AtMost(At(f.stores, r, id), At(Do(f, a).stores, r, id)) <==> Stale(f, a) && Targets(f, a, r, id)
    {
      TargetsRegion(f0, actions, n, r, id);
      StepLowers(f, a, r, id);
    }
    if Stale(f, a) {
      var w := Written(f, a).value;
      assert Targets(f, a, w.region, w.policy.id);
    }
  }

  lemma TargetsRegion(f0: Fleet, actions: seq<Action>, n: nat, r: RegionId, id: string)
    requires Idle(f0) && n < |actions|
    ensures Targets(When(f0, actions, n), actions[n], r, id) ==> r in When(f0, actions, n).stores
  {
    hide When, Written;
    if Written(When(f0, actions, n), actions[n]).Some? { AdvancesWhatWasRead(f0, actions, n); }
  }
}
