/**
 Convergence when passes overlap. Without authors, once every two regions have a finished pass between them, all
 regions hold the newest revision exactly when every write that was overtaken is later made good there. Without
 that they may not, however many passes have finished.
 */
module FederationOverlap {
  import opened Wrappers
  import opened Federation
  import opened FederationConvergence
  import opened FederationInterleaving
  import opened FederationSerial

  ghost predicate NoAuthors(actions: seq<Action>) {
    forall k :: 0 <= k < |actions| ==> !actions[k].Read? && !actions[k].Commit?
  }

  /** The k-th pass has listed both sides and copied everything it decided to copy. */
  ghost predicate Completed(f0: Fleet, actions: seq<Action>, k: nat) {
    var passes := Perform(f0, actions).passes;
    && k < |passes| && passes[k].there.Some? && passes[k].todo == {}
    && forall n :: 0 <= n < |actions| && actions[n].Copy? && actions[n].pass == k ==> !actions[n].fails
  }

  predicate Between(pass: Pass, p: RegionId, q: RegionId) {
    (pass.local == p && pass.remote == q) || (pass.local == q && pass.remote == p)
  }

  ghost predicate CompletedBetween(f0: Fleet, actions: seq<Action>, p: RegionId, q: RegionId) {
    exists k: nat :: Completed(f0, actions, k) && Between(Perform(f0, actions).passes[k], p, q)
  }

  /** Every two regions have a completed pass between them. */
  ghost predicate AllCompleted(f0: Fleet, actions: seq<Action>) {
    forall p, q :: p in f0.stores && q in f0.stores && p != q ==> CompletedBetween(f0, actions, p, q)
  }

  ghost predicate Schedule(f0: Fleet, actions: seq<Action>) {
    Idle(f0) && NoAuthors(actions)
  }

  // ----- where a copied revision comes from -----

  /** A copy carries what another region held earlier, and is strictly newer than what its target held when listed. */
  lemma CopyOrigin(f0: Fleet, actions: seq<Action>, n: nat) returns (at: nat, from: RegionId)
    requires Schedule(f0, actions) && n < |actions| && Written(When(f0, actions, n), actions[n]).Some?
    ensures var w := Written(When(f0, actions, n), actions[n]).value;
            && w.region in f0.stores && w.since < n && at < n && from in f0.stores
            && At(When(f0, actions, at).stores, from, w.policy.id) == Some(w.policy)
            && !AtMost(Some(w.policy), At(When(f0, actions, w.since).stores, w.region, w.policy.id))
  {
    hide When, PassRecorded, DraftRecorded, CopyOf, AtMost, At, Keyed;
    Records(f0, actions, n);
    var f, a := When(f0, actions, n), actions[n];
    assert a.Copy?;
    at, from := PassOrigin(f0, actions, n, f.passes[a.pass], a.id);
  }

  lemma PassOrigin(f0: Fleet, actions: seq<Action>, n: nat, p: Pass, id: string) returns (at: nat, from: RegionId)
    requires n <= |actions| && PassRecorded(f0, actions, n, p) && p.there.Some? && CopyOf(p, id).Some?
    ensures var w := CopyOf(p, id).value;
            && w.region in f0.stores && w.since < n && at < n && from in f0.stores
            && At(When(f0, actions, at).stores, from, w.policy.id) == Some(w.policy)
            && !AtMost(Some(w.policy), At(When(f0, actions, w.since).stores, w.region, w.policy.id))
  {
    hide When;
    if CopiesHere(Lookup(p.here, id), Lookup(p.there.value, id)) {
      at, from := p.thereAt, p.remote;
    } else {
      at, from := p.hereAt, p.local;
    }
  }

  /** Without authors, whatever a region holds was held by some region at the start. */
  lemma {:induction false} NothingNew(f0: Fleet, actions: seq<Action>, n: nat, r: RegionId, id: string)
    returns (p: RegionId)
    requires Schedule(f0, actions) && n <= |actions| && r in f0.stores
    ensures p in f0.stores && At(When(f0, actions, n).stores, r, id) == At(f0.stores, p, id)
    decreases n
  {
    hide When, Written, Do, At, AtMost, Stale, Schedule;
    if n == 0 {
      WhenStarts(f0, actions);
      p := r;
    } else {
      WhenNext(f0, actions, n - 1);
      StepLowers(When(f0, actions, n - 1), actions[n - 1], r, id);
      if Targets(When(f0, actions, n - 1), actions[n - 1], r, id) {
        var at, from := CopyOrigin(f0, actions, n - 1);
        p := NothingNew(f0, actions, at, from, id);
      } else {
        p := NothingNew(f0, actions, n - 1, r, id);
      }
    }
  }

  lemma NothingNewer(f0: Fleet, actions: seq<Action>, n: nat, r: RegionId, p: RegionId, id: string)
    requires Schedule(f0, actions) && n <= |actions| && r in f0.stores && Newest(f0.stores, p, id)
    ensures AtMost(At(When(f0, actions, n).stores, r, id), At(f0.stores, p, id))
  {
    hide When, At, AtMost;
    var o := NothingNew(f0, actions, n, r, id);
  }

  /** A region that starts with the newest revision is never written. */
  lemma {:induction false} NewestStays(f0: Fleet, actions: seq<Action>, n: nat, p: RegionId, id: string)
    requires Schedule(f0, actions) && n <= |actions| && p in f0.stores && Newest(f0.stores, p, id)
    ensures At(When(f0, actions, n).stores, p, id) == At(f0.stores, p, id)
    decreases n
  {
    hide When, Written, Do, At, AtMost, Stale, Schedule, Newest;
    if n == 0 {
      WhenStarts(f0, actions);
    } else {
      NewestStays(f0, actions, n - 1, p, id);
      WhenNext(f0, actions, n - 1);
      StepLowers(When(f0, actions, n - 1), actions[n - 1], p, id);
      if Targets(When(f0, actions, n - 1), actions[n - 1], p, id) {
        var at, from := CopyOrigin(f0, actions, n - 1);
        NothingNewer(f0, actions, at, from, p, id);
        NewestStays(f0, actions, Written(When(f0, actions, n - 1), actions[n - 1]).value.since, p, id);
      }
    }
  }

  // ----- a completed pass with the newest region -----

  predicate SameListings(p: Pass, q: Pass) {
    p == q.(todo := p.todo)
  }

  /** What a pass has dealt with was dealt with by one of its copies, decided from the same listings. */
  lemma {:induction false} DealtWith(f0: Fleet, actions: seq<Action>, n: nat, k: nat, id: string) returns (m: nat)
    requires f0.passes == [] && n <= |actions| && k < |When(f0, actions, n).passes|
    requires var p := When(f0, actions, n).passes[k];
             p.there.Some? && id in p.here.Keys + p.there.value.Keys && id !in p.todo
    ensures m < n && actions[m].Copy? && actions[m].pass == k && actions[m].id == id
    ensures Copies(When(f0, actions, m), actions[m])
    ensures SameListings(When(f0, actions, m).passes[k], When(f0, actions, n).passes[k])
    decreases n
  {
    hide Written, Stored;
    var f, a := When(f0, actions, n - 1), actions[n - 1];
    WhenNext(f0, actions, n - 1);
    if a.Copy? && a.pass == k && a.id == id && Copies(f, a) {
      m := n - 1;
    } else {
      PassKept(f, a, k, id);
      m := DealtWith(f0, actions, n - 1, k, id);
    }
  }

  lemma PassKept(f: Fleet, a: Action, k: nat, id: string)
    requires k < |Listings(f, a)| && !(a.Copy? && a.pass == k && a.id == id && Copies(f, a))
    requires var p := Listings(f, a)[k]; p.there.Some? && id in p.here.Keys + p.there.value.Keys && id !in p.todo
    ensures k < |f.passes| && SameListings(f.passes[k], Listings(f, a)[k]) && id !in f.passes[k].todo
  {
  }

  /** After a completed pass with a region of the newest revision, the other has held that revision at some point. */
  lemma HeldNewest(f0: Fleet, actions: seq<Action>, k: nat, p: RegionId, q: RegionId, id: string) returns (t: nat)
    requires Schedule(f0, actions) && p in f0.stores && q in f0.stores && p != q && Newest(f0.stores, p, id)
    requires Completed(f0, actions, k) && Between(Perform(f0, actions).passes[k], p, q)
    ensures t <= |actions| && AtMost(At(f0.stores, p, id), At(When(f0, actions, t).stores, q, id))
  {
    hide When, AtMost, Keyed, CompareRevision;
    var N := |actions|;
    var pass := When(f0, actions, N).passes[k];
    Records(f0, actions, N);
    assert PassRecorded(f0, actions, N, pass);
    var pAt := if pass.local == p then pass.hereAt else pass.thereAt;
    var qAt := if pass.local == p then pass.thereAt else pass.hereAt;
    NewestStays(f0, actions, pAt, p, id);
    if AtMost(At(f0.stores, p, id), At(When(f0, actions, qAt).stores, q, id)) {
      t := qAt;
    } else {
      var had := At(f0.stores, p, id);
      NoneIsLeast(had, At(When(f0, actions, qAt).stores, q, id));
      var m := DealtWith(f0, actions, N, k, id);
      CopiedTo(f0, actions, m, k, pass, p, q, id, had, At(When(f0, actions, qAt).stores, q, id));
      t := m + 1;
    }
  }

  lemma NoneIsLeast(a: Option<Policy>, b: Option<Policy>)
    requires !AtMost(a, b)
    ensures a.Some?
  {
  }

  lemma CopiedTo(f0: Fleet, actions: seq<Action>, m: nat, k: nat, pass: Pass, p: RegionId, q: RegionId, id: string,
                 had: Option<Policy>, other: Option<Policy>)
    requires m < |actions| && Copies(When(f0, actions, m), actions[m]) && actions[m].pass == k && actions[m].id == id
    requires !actions[m].fails && SameListings(When(f0, actions, m).passes[k], pass) && pass.there.Some?
    requires p != q && Between(pass, p, q) && q in f0.stores && Keyed(pass.here) && Keyed(pass.there.value)
    requires had == Lookup(if pass.local == p then pass.here else pass.there.value, id)
    requires other == Lookup(if pass.local == p then pass.there.value else pass.here, id)
    requires !AtMost(had, other)
    ensures AtMost(had, At(When(f0, actions, m + 1).stores, q, id))
  {
    hide When, Listings, Drafts;
    WhenNext(f0, actions, m);
    assert Written(When(f0, actions, m), actions[m]) == CopyOf(pass, id);
    assert CopyOf(pass, id).Some? && CopyOf(pass, id).value.region == q && CopyOf(pass, id).value.policy == had.value;
    StepLowers(When(f0, actions, m), actions[m], q, id);
    AtMostOrder(had, None, None);
  }

  // ----- convergence -----

  /** As far as every region was at the start. */
  ghost predicate IsNewest(sys: System, id: string, v: Option<Policy>) {
    forall p :: p in sys ==> AtMost(At(sys, p, id), v)
  }

  /** The n-th action writes this policy of this region and was overtaken. */
  ghost predicate OvertakenAt(f0: Fleet, actions: seq<Action>, n: nat, q: RegionId, id: string)
    requires n < |actions|
  {
    Overtaken(f0, actions, n) && Targets(When(f0, actions, n), actions[n], q, id)
  }

  /** The m-th action writes the newest revision of this policy to this region. */
  ghost predicate RestoresAt(f0: Fleet, actions: seq<Action>, m: nat, q: RegionId, id: string)
    requires m < |actions|
  {
    && Targets(When(f0, actions, m), actions[m], q, id)
    && IsNewest(f0.stores, id, Some(Written(When(f0, actions, m), actions[m]).value.policy))
  }

  ghost predicate RestoredAfter(f0: Fleet, actions: seq<Action>, n: nat, q: RegionId, id: string) {
    exists m :: n < m < |actions| && RestoresAt(f0, actions, m, q, id)
  }

  /** Every overtaken write of a policy is made good. */
  ghost predicate AllMadeGood(f0: Fleet, actions: seq<Action>, id: string) {
    forall n, q :: 0 <= n < |actions| && OvertakenAt(f0, actions, n, q, id) ==> RestoredAfter(f0, actions, n, q, id)
  }

  /** Once at the newest revision, a region stays there as long as no overtaken write is made to it. */
  lemma {:induction false} StaysNewest(f0: Fleet, actions: seq<Action>, t: nat, n: nat, q: RegionId, id: string)
    requires Schedule(f0, actions) && t <= n <= |actions| && q in f0.stores
    requires IsNewest(f0.stores, id, At(When(f0, actions, t).stores, q, id))
    requires forall k :: t <= k < n ==> !OvertakenAt(f0, actions, k, q, id)
    ensures IsNewest(f0.stores, id, At(When(f0, actions, n).stores, q, id))
    decreases n
  {
    hide When, Written, Do, At, AtMost, Overtaken, Targets, IsNewest, Wrapped;
    if t < n {
      StaysNewest(f0, actions, t, n - 1, q, id);
      var f, a := When(f0, actions, n - 1), actions[n - 1];
      WhenNext(f0, actions, n - 1);
      StepLowers(f, a, q, id);
      assert !OvertakenAt(f0, actions, n - 1, q, id);
      if !AtMost(At(f.stores, q, id), At(When(f0, actions, n).stores, q, id)) {
        LoweredOnlyIfOvertaken(f0, actions, n - 1);
        NotWrapped(f0, actions, n - 1);
      } else {
        NewestOnwards(f0.stores, id, At(f.stores, q, id), At(When(f0, actions, n).stores, q, id));
      }
    }
  }

  lemma NotWrapped(f0: Fleet, actions: seq<Action>, n: nat)
    requires NoAuthors(actions) && n < |actions|
    ensures !Wrapped(f0, actions, n)
  {
  }

  lemma NewestOnwards(sys: System, id: string, a: Option<Policy>, b: Option<Policy>)
    requires IsNewest(sys, id, a) && AtMost(a, b)
    ensures IsNewest(sys, id, b)
  {
    hide AtMost;
    forall p | p in sys
      ensures AtMost(At(sys, p, id), b)
    {
      AtMostOrder(At(sys, p, id), a, b);
    }
  }

  /** From a point where it is at the newest revision, a region also ends there if overtaken writes are made good. */
  lemma {:induction false} EndsNewest(f0: Fleet, actions: seq<Action>, t: nat, q: RegionId, id: string)
    requires Schedule(f0, actions) && t <= |actions| && q in f0.stores && AllMadeGood(f0, actions, id)
    requires IsNewest(f0.stores, id, At(When(f0, actions, t).stores, q, id))
    ensures IsNewest(f0.stores, id, At(Perform(f0, actions).stores, q, id))
    decreases |actions| - t
  {
    hide When, At, OvertakenAt, RestoresAt, IsNewest, Schedule;
    if forall k :: t <= k < |actions| ==> !OvertakenAt(f0, actions, k, q, id) {
      StaysNewest(f0, actions, t, |actions|, q, id);
    } else {
      var n :| t <= n < |actions| && OvertakenAt(f0, actions, n, q, id);
      assert RestoredAfter(f0, actions, n, q, id);
      var m :| n < m < |actions| && RestoresAt(f0, actions, m, q, id);
      NewestAfterRestoring(f0, actions, m, q, id);
      EndsNewest(f0, actions, m + 1, q, id);
    }
  }

  lemma NewestAfterRestoring(f0: Fleet, actions: seq<Action>, m: nat, q: RegionId, id: string)
    requires m < |actions| && q in f0.stores && RestoresAt(f0, actions, m, q, id)
    ensures IsNewest(f0.stores, id, At(When(f0, actions, m + 1).stores, q, id))
  {
    hide When, Written, Do, At, AtMost, IsNewest, Stale;
    WhenNext(f0, actions, m);
    StepLowers(When(f0, actions, m), actions[m], q, id);
  }

  /** Some region starts with the newest revision. */
  lemma {:induction false} NewestExists(sys: System, regions: set<RegionId>, id: string) returns (p: RegionId)
    requires regions != {} && regions <= sys.Keys
    ensures p in regions && forall q :: q in regions ==> AtMost(At(sys, q, id), At(sys, p, id))
    decreases regions
  {
    hide AtMost, At;
    p :| p in regions;
    AtMostOrder(At(sys, p, id), None, None);
    if other :| other in regions && other != p {
      assert other in regions - {p};
      var o := NewestExists(sys, regions - {p}, id);
      AtMostOrder(At(sys, p, id), At(sys, o, id), None);
      AtMostOrder(At(sys, o, id), None, None);
      if AtMost(At(sys, o, id), At(sys, p, id)) {
        forall q | q in regions
          ensures AtMost(At(sys, q, id), At(sys, p, id))
        {
          AtMostOrder(At(sys, q, id), At(sys, o, id), At(sys, p, id));
        }
      } else {
        p := o;
      }
    }
  }

  lemma RegionConverges(f0: Fleet, actions: seq<Action>, q: RegionId, id: string)
    requires Schedule(f0, actions) && AllCompleted(f0, actions) && AllMadeGood(f0, actions, id) && q in f0.stores
    ensures AtNewest(f0.stores, Perform(f0, actions).stores, q, id)
  {
    hide When, At, AtMost, AllMadeGood, Schedule;
    var p := NewestExists(f0.stores, f0.stores.Keys, id);
    assert Newest(f0.stores, p, id);
    var t: nat := 0;
    if p == q {
      NewestStays(f0, actions, 0, p, id);
      AtMostOrder(At(f0.stores, p, id), None, None);
    } else {
      assert CompletedBetween(f0, actions, p, q);
      var k: nat :| Completed(f0, actions, k) && Between(Perform(f0, actions).passes[k], p, q);
      t := HeldNewest(f0, actions, k, p, q, id);
    }
    NewestOnwards(f0.stores, id, At(f0.stores, p, id), At(When(f0, actions, t).stores, q, id));
    EndsNewest(f0, actions, t, q, id);
    NothingNewer(f0, actions, |actions|, q, p, id);
    assert SameRevision(At(Perform(f0, actions).stores, q, id), At(f0.stores, p, id));
  }

  lemma {:induction false} RaisedBetween(f0: Fleet, actions: seq<Action>, l: nat, n: nat, q: RegionId, id: string)
    returns (m: nat)
    requires l <= n <= |actions| && q in f0.stores
    requires !IsNewest(f0.stores, id, At(When(f0, actions, l).stores, q, id))
    requires IsNewest(f0.stores, id, At(When(f0, actions, n).stores, q, id))
    ensures l <= m < n && RestoresAt(f0, actions, m, q, id)
    decreases n
  {
    hide When, Written, Do, At, AtMost, IsNewest, Stale;
    WhenNext(f0, actions, n - 1);
    StepLowers(When(f0, actions, n - 1), actions[n - 1], q, id);
    if IsNewest(f0.stores, id, At(When(f0, actions, n - 1).stores, q, id)) {
      m := RaisedBetween(f0, actions, l, n - 1, q, id);
    } else {
      m := n - 1;
    }
  }

  /** An overtaken write is of a revision that is not the newest. */
  lemma OvertakenIsOld(f0: Fleet, actions: seq<Action>, n: nat, q: RegionId, id: string)
    requires Schedule(f0, actions) && n < |actions| && OvertakenAt(f0, actions, n, q, id)
    ensures q in f0.stores && !IsNewest(f0.stores, id, Some(Written(When(f0, actions, n), actions[n]).value.policy))
  {
    hide When, Written, Do, At, AtMost, PassRecorded, DraftRecorded;
    AdvancesWhatWasRead(f0, actions, n);
    var w := Written(When(f0, actions, n), actions[n]).value;
    var m :| w.since < m < n && Overtakes(When(f0, actions, m), actions[m], w);
    WhenNext(f0, actions, m);
    StepLowers(When(f0, actions, m), actions[m], w.region, w.policy.id);
    var p := NothingNew(f0, actions, m + 1, w.region, w.policy.id);
    assert !AtMost(At(f0.stores, p, w.policy.id), Some(w.policy));
  }

  lemma ConvergedMadeGood(f0: Fleet, actions: seq<Action>, n: nat, q: RegionId, id: string)
    requires Schedule(f0, actions) && n < |actions| && OvertakenAt(f0, actions, n, q, id)
    requires Converged(f0.stores, Perform(f0, actions).stores, id)
    ensures RestoredAfter(f0, actions, n, q, id)
  {
    hide When, Written, Do, At, AtMost, Overtaken, IsNewest, Stale, AtNewest, RestoresAt;
    OvertakenIsOld(f0, actions, n, q, id);
    WhenNext(f0, actions, n);
    StepLowers(When(f0, actions, n), actions[n], q, id);
    assert AtNewest(f0.stores, Perform(f0, actions).stores, q, id);
    EndIsNewest(f0.stores, Perform(f0, actions).stores, q, id);
    var m := RaisedBetween(f0, actions, n + 1, |actions|, q, id);
  }

  lemma EndIsNewest(start: System, end: System, q: RegionId, id: string)
    requires AtNewest(start, end, q, id)
    ensures IsNewest(start, id, At(end, q, id))
  {
    hide AtMost, At;
    var p :| p in start && Newest(start, p, id) && SameRevision(At(end, q, id), At(start, p, id));
    forall o | o in start
      ensures AtMost(At(start, o, id), At(end, q, id))
    {
      AtMostOrder(At(start, o, id), At(start, p, id), At(end, q, id));
    }
  }

  /**
   Passes may overlap in any way, and others may fail. Once every two regions have a completed pass between
   them, all hold the newest revision of a policy if and only if every write of it that was overtaken has been
   followed by a write of the newest revision to the same region.
   */
  lemma ConvergesExactly(f0: Fleet, actions: seq<Action>, id: string)
    requires Schedule(f0, actions) && AllCompleted(f0, actions)
    ensures Converged(f0.stores, Perform(f0, actions).stores, id) <==> AllMadeGood(f0, actions, id)
  {
    hide When, OvertakenAt, RestoredAfter, AtNewest, Schedule, AllCompleted;
    if AllMadeGood(f0, actions, id) {
      forall q | q in f0.stores
        ensures AtNewest(f0.stores, Perform(f0, actions).stores, q, id)
      {
        RegionConverges(f0, actions, q, id);
      }
    }
    if Converged(f0.stores, Perform(f0, actions).stores, id) {
      forall n, q | 0 <= n < |actions| && OvertakenAt(f0, actions, n, q, id)
        ensures RestoredAfter(f0, actions, n, q, id)
      {
        ConvergedMadeGood(f0, actions, n, q, id);
      }
    }
  }

  /** In particular they converge if no write is overtaken. */
  lemma ConvergesUndisturbed(f0: Fleet, actions: seq<Action>, id: string)
    requires Schedule(f0, actions) && AllCompleted(f0, actions)
    requires forall n :: 0 <= n < |actions| ==> !Overtaken(f0, actions, n)
    ensures Converged(f0.stores, Perform(f0, actions).stores, id)
  {
    hide Overtaken, RestoredAfter, AtNewest, Schedule, AllCompleted;
    ConvergesExactly(f0, actions, id);
  }

  // ----- overlapping passes that do not converge -----

  function Held(id: string, version: Version): Store {
    map[id := Policy(id, version, "", "", 0)]
  }

  function Three(id: string, eu: Version, us: Version, ap: Version): System {
    map["eu" := Held(id, eu), "us" := Held(id, us), "ap" := Held(id, ap)]
  }

  /** The operations of one pass over one policy. */
  function Whole(k: nat, l: RegionId, r: RegionId, id: string): seq<Action> {
    [ListLocal(l, r), ListRemote(k)] + [Copy(k, id, false)]
  }

  function Finished(l: RegionId, r: RegionId, here: Store, at: nat, there: Store): Pass {
    Pass(l, r, here, at, Some(there), at + 1, {})
  }

  /** A whole pass over one policy leaves both sides at the higher version. */
  lemma WholePass(f: Fleet, l: RegionId, r: RegionId, id: string, a: Version, b: Version)
    requires l in f.stores && r in f.stores && l != r && f.stores[l] == Held(id, a) && f.stores[r] == Held(id, b)
    ensures var top := Held(id, if a < b then b else a);
            Perform(f, Whole(|f.passes|, l, r, id))
            == Fleet(f.time + 3, f.stores[l := top][r := top],
                     f.passes + [Finished(l, r, Held(id, a), f.time, Held(id, b))], f.drafts)
  {
    hide When, Do;
    var k := |f.passes|;
    var open := Pass(l, r, f.stores[l], f.time, Some(f.stores[r]), f.time + 1, f.stores[l].Keys + f.stores[r].Keys);
    var listed := Fleet(f.time + 2, f.stores, f.passes + [open], f.drafts);
    BothListed(f, l, r, open);
    PerformOne(listed, Copy(k, id, false));
    PerformAppended(f, [ListLocal(l, r), ListRemote(k)], [Copy(k, id, false)]);
    CopyHigher(listed, k, id, a, b);
    assert listed.passes[k := open.(todo := {})] == f.passes + [open.(todo := {})];
  }

  /** Copying the one policy of a pass: the higher of the listed versions goes to the other side. */
  lemma CopyHigher(f: Fleet, k: nat, id: string, a: Version, b: Version)
    requires k < |f.passes| && f.passes[k].here == Held(id, a) && f.passes[k].there == Some(Held(id, b))
    requires f.passes[k].todo == Held(id, a).Keys + Held(id, b).Keys
    requires f.passes[k].local in f.stores && f.passes[k].remote in f.stores
    requires f.stores[f.passes[k].local].Keys == f.stores[f.passes[k].remote].Keys == {id}
    ensures Do(f, Copy(k, id, false)) == Fleet(f.time + 1,
              if a < b then f.stores[f.passes[k].local := Held(id, b)]
              else if a > b then f.stores[f.passes[k].remote := Held(id, a)] else f.stores,
              f.passes[k := f.passes[k].(todo := {})], f.drafts)
  {
    assert f.passes[k].todo - {id} == {};
    var p := f.passes[k];
    assert f.stores[p.local][id := Policy(id, b, "", "", 0)] == Held(id, b);
    assert f.stores[p.remote][id := Policy(id, a, "", "", 0)] == Held(id, a);
  }

  /** A listing, or a copy that succeeds. */
  predicate Plain(actions: seq<Action>) {
    forall k :: 0 <= k < |actions| ==>
      actions[k].ListLocal? || actions[k].ListRemote? || (actions[k].Copy? && !actions[k].fails)
  }

  /** First us lists itself and eu; then eu and ap make all their passes; then us finishes, and passes over ap. */
  function Overlapping(id: string): (actions: seq<Action>)
    ensures Plain(actions)
  {
    [ListLocal("us", "eu"), ListRemote(0)] + Whole(1, "eu", "ap", id) + Whole(2, "eu", "us", id)
    + Whole(3, "ap", "eu", id) + Whole(4, "ap", "us", id) + [Copy(0, id, false)] + Whole(5, "us", "ap", id)
  }

  function OverlapEnd(id: string): Fleet {
    Fleet(18, Three(id, 2, 3, 3),
          [Finished("us", "eu", Held(id, 2), 0, Held(id, 1)), Finished("eu", "ap", Held(id, 1), 2, Held(id, 3)),
           Finished("eu", "us", Held(id, 3), 5, Held(id, 2)), Finished("ap", "eu", Held(id, 3), 8, Held(id, 3)),
           Finished("ap", "us", Held(id, 3), 11, Held(id, 3)), Finished("us", "ap", Held(id, 3), 15, Held(id, 3))], [])
  }

  lemma FirstHalf(id: string)
    ensures var f0 := Fleet(0, Three(id, 1, 2, 3), [], []);
            var actions := [ListLocal("us", "eu"), ListRemote(0)] + Whole(1, "eu", "ap", id) + Whole(2, "eu", "us", id);
            Perform(f0, actions) == Fleet(8, Three(id, 3, 3, 3),
              [Pass("us", "eu", Held(id, 2), 0, Some(Held(id, 1)), 1, {id}),
               OverlapEnd(id).passes[1], OverlapEnd(id).passes[2]], [])
  {
    hide Perform, Whole;
    var passes := OverlapEnd(id).passes;
    var f0 := Fleet(0, Three(id, 1, 2, 3), [], []);
    var open := Pass("us", "eu", Held(id, 2), 0, Some(Held(id, 1)), 1, {id});
    var f1 := Fleet(2, Three(id, 1, 2, 3), [open], []);
    var f2 := Fleet(5, Three(id, 3, 2, 3), [open, passes[1]], []);
    var start := [ListLocal("us", "eu"), ListRemote(0)];
    BothListed(f0, "us", "eu", open);
    assert f0.passes + [open] == [open] && f1.passes + [passes[1]] == f2.passes;
    assert f2.passes + [passes[2]] == [open, passes[1], passes[2]];
    WholePass(f1, "eu", "ap", id, 1, 3);
    assert f1.stores["eu" := Held(id, 3)]["ap" := Held(id, 3)] == f2.stores;
    PerformAppended(f0, start, Whole(1, "eu", "ap", id));
    WholePass(f2, "eu", "us", id, 3, 2);
    assert f2.stores["eu" := Held(id, 3)]["us" := Held(id, 3)] == Three(id, 3, 3, 3);
    PerformAppended(f0, start + Whole(1, "eu", "ap", id), Whole(2, "eu", "us", id));
  }

  lemma SecondHalf(id: string, f: Fleet)
    requires f == Fleet(8, Three(id, 3, 3, 3), [Pass("us", "eu", Held(id, 2), 0, Some(Held(id, 1)), 1, {id}),
                                                OverlapEnd(id).passes[1], OverlapEnd(id).passes[2]], [])
    ensures Perform(f, Whole(3, "ap", "eu", id) + Whole(4, "ap", "us", id) + [Copy(0, id, false)]
                    + Whole(5, "us", "ap", id))
            == OverlapEnd(id)
  {
    hide Perform, Whole, Do;
    var passes := OverlapEnd(id).passes;
    var f4 := Fleet(11, f.stores, f.passes + [passes[3]], []);
    var f5 := Fleet(14, f.stores, f4.passes + [passes[4]], []);
    var f6 := Fleet(15, Three(id, 2, 3, 3), passes[..5], []);
    WholePass(f, "ap", "eu", id, 3, 3);
    assert f.stores["ap" := Held(id, 3)]["eu" := Held(id, 3)] == f.stores;
    WholePass(f4, "ap", "us", id, 3, 3);
    assert f.stores["ap" := Held(id, 3)]["us" := Held(id, 3)] == f.stores;
    PerformAppended(f, Whole(3, "ap", "eu", id), Whole(4, "ap", "us", id));
    CopyHigher(f5, 0, id, 2, 1);
    assert f5.stores["eu" := Held(id, 2)] == f6.stores && f5.passes[0 := f5.passes[0].(todo := {})] == f6.passes;
    PerformOne(f5, Copy(0, id, false));
    PerformAppended(f, Whole(3, "ap", "eu", id) + Whole(4, "ap", "us", id), [Copy(0, id, false)]);
    WholePass(f6, "us", "ap", id, 3, 3);
    assert f6.stores["us" := Held(id, 3)]["ap" := Held(id, 3)] == f6.stores && passes[..5] + [passes[5]] == passes;
    PerformAppended(f, Whole(3, "ap", "eu", id) + Whole(4, "ap", "us", id) + [Copy(0, id, false)],
                    Whole(5, "us", "ap", id));
  }

  lemma ReachesOverlapEnd(id: string)
    ensures Perform(Fleet(0, Three(id, 1, 2, 3), [], []), Overlapping(id)) == OverlapEnd(id)
  {
    hide Perform, Whole;
    var f0 := Fleet(0, Three(id, 1, 2, 3), [], []);
    var first := [ListLocal("us", "eu"), ListRemote(0)] + Whole(1, "eu", "ap", id) + Whole(2, "eu", "us", id);
    var second := Whole(3, "ap", "eu", id) + Whole(4, "ap", "us", id) + [Copy(0, id, false)] + Whole(5, "us", "ap", id);
    FirstHalf(id);
    SecondHalf(id, Perform(f0, first));
    PerformAppended(f0, first, second);
    assert first + second == Overlapping(id);
  }

  /** Every region has made one failure-free pass over both others, and yet eu is left behind at version 2 of 3. */
  lemma OverlapDiverges(id: string)
    ensures var f0, actions := Fleet(0, Three(id, 1, 2, 3), [], []), Overlapping(id);
            && Schedule(f0, actions) && AllCompleted(f0, actions)
            && (forall k :: 0 <= k < 6 ==> Completed(f0, actions, k))
            && !Converged(f0.stores, Perform(f0, actions).stores, id)
  {
    hide Perform, Whole, Overlapping, Converged, Completed, AllCompleted;
    var f0, actions := Fleet(0, Three(id, 1, 2, 3), [], []), Overlapping(id);
    ReachesOverlapEnd(id);
    SixCompleted(id, f0, actions);
    ThreeCompleted(id, f0, actions);
    LeftBehind(id);
  }

  lemma SixCompleted(id: string, f0: Fleet, actions: seq<Action>)
    requires Plain(actions) && Perform(f0, actions) == OverlapEnd(id)
    ensures forall k :: 0 <= k < 6 ==> Completed(f0, actions, k)
  {
    hide Perform;
    var passes := OverlapEnd(id).passes;
    assert forall k :: 0 <= k < 6 ==> passes[k].there.Some? && passes[k].todo == {};
  }

  lemma ThreeCompleted(id: string, f0: Fleet, actions: seq<Action>)
    requires f0.stores == Three(id, 1, 2, 3) && Perform(f0, actions) == OverlapEnd(id)
    requires forall k :: 0 <= k < 6 ==> Completed(f0, actions, k)
    ensures AllCompleted(f0, actions)
  {
    hide Perform, Completed;
    assert Completed(f0, actions, 1) && Completed(f0, actions, 2) && Completed(f0, actions, 4);
    var passes := Perform(f0, actions).passes;
    assert Between(passes[1], "eu", "ap") && Between(passes[2], "eu", "us") && Between(passes[4], "ap", "us");
    assert Between(passes[1], "ap", "eu") && Between(passes[2], "us", "eu") && Between(passes[4], "us", "ap");
  }

  lemma LeftBehind(id: string)
    ensures !Converged(Three(id, 1, 2, 3), Three(id, 2, 3, 3), id)
  {
    var start, end := Three(id, 1, 2, 3), Three(id, 2, 3, 3);
    assert "eu" in start && "ap" in start && !AtMost(At(start, "ap", id), At(end, "eu", id));
    if AtNewest(start, end, "eu", id) { EndIsNewest(start, end, "eu", id); }
  }
}
