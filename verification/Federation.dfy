/**
 Per-region policy stores and their pairwise reconciliation (internal/federation): the store, the
 replicator's passes with failing operations, and authoring in async mode.
 */
module Federation {
  import opened Wrappers
  import Text

  type RegionId = string

  type Version = v: nat | v < 0x1_0000_0000_0000_0000

  datatype Policy = Policy(id: string, version: Version, body: string, origin: RegionId, updatedAt: int)

  type Store = map<string, Policy>

  const MAX_VERSION: Version := 0xffff_ffff_ffff_ffff

  function Lookup(s: Store, id: string): Option<Policy> {
    if id in s then Some(s[id]) else None
  }

  /** Every policy is filed under its own id. */
  predicate Keyed(s: Store) {
    forall id :: id in s ==> s[id].id == id
  }

  /** 1 if a is newer than b, -1 if older, 0 if neither: Version first, then UpdatedAt. */
  function CompareRevision(a: Policy, b: Policy): int {
    if a.version != b.version then (if a.version > b.version then 1 else -1)
    else if a.updatedAt < b.updatedAt then -1
    else if a.updatedAt > b.updatedAt then 1
    else 0
  }

  /** The revision order, with an absent policy below every present one. */
  predicate AtMost(a: Option<Policy>, b: Option<Policy>) {
    a.None? || (b.Some? && CompareRevision(a.value, b.value) <= 0)
  }

  predicate SameRevision(a: Option<Policy>, b: Option<Policy>) {
    AtMost(a, b) && AtMost(b, a)
  }

  lemma AtMostOrder(a: Option<Policy>, b: Option<Policy>, c: Option<Policy>)
    ensures AtMost(a, a) && (AtMost(a, b) || AtMost(b, a))
    ensures AtMost(a, b) && AtMost(b, c) ==> AtMost(a, c)
  {
  }

  // ----- one pass over one peer, on values -----

  /** Whether a listed pair makes the pass copy the remote policy here, or the local one there. */
  predicate CopiesHere(local: Option<Policy>, remote: Option<Policy>) {
    remote.Some? && (local.None? || CompareRevision(local.value, remote.value) == -1)
  }

  predicate CopiesThere(local: Option<Policy>, remote: Option<Policy>) {
    local.Some? && (remote.None? || CompareRevision(local.value, remote.value) == 1)
  }

  predicate Pulls(local: Store, remote: Store, id: string) {
    CopiesHere(Lookup(local, id), Lookup(remote, id))
  }

  predicate Pushes(local: Store, remote: Store, id: string) {
    CopiesThere(Lookup(local, id), Lookup(remote, id))
  }

  /** The local store after the pulls among `ids` have been written. */
  function LocalAfter(local: Store, remote: Store, ids: set<string>): Store {
    map id | id in local.Keys + remote.Keys && (id in local || (id in ids && Pulls(local, remote, id))) ::
      if id in ids && Pulls(local, remote, id) then remote[id] else local[id]
  }

  /** The remote store after the pushes among `ids` have been written. */
  function RemoteAfter(local: Store, remote: Store, ids: set<string>): Store {
    map id | id in local.Keys + remote.Keys && (id in remote || (id in ids && Pushes(local, remote, id))) ::
      if id in ids && Pushes(local, remote, id) then local[id] else remote[id]
  }

  /** The operations that fail during one pass. */
  datatype Faults = Faults(listLocal: bool, listRemote: bool, puts: set<string>)

  /** Both stores after one pass over one peer. */
  function ReconcileStores(local: Store, remote: Store, faults: Faults): (Store, Store) {
    if faults.listLocal || faults.listRemote then (local, remote)
    else
      var ids := local.Keys + remote.Keys - faults.puts;
      (LocalAfter(local, remote, ids), RemoteAfter(local, remote, ids))
  }

  /** The ids whose copy fails. */
  function Failing(local: Store, remote: Store, ids: set<string>, faults: Faults): set<string> {
    set id | id in ids && id in faults.puts && (Pulls(local, remote, id) || Pushes(local, remote, id))
  }

  lemma FailingStep(local: Store, remote: Store, ids: set<string>, faults: Faults, id: string)
    requires id !in ids
    ensures var before, after := Failing(local, remote, ids, faults), Failing(local, remote, ids + {id}, faults);
            if id in faults.puts && (Pulls(local, remote, id) || Pushes(local, remote, id))
            then after == before + {id} && |after| == |before| + 1
            else after == before
  {
    var fails := id in faults.puts && (Pulls(local, remote, id) || Pushes(local, remote, id));
    assert Failing(local, remote, ids + {id}, faults)
           == Failing(local, remote, ids, faults) + if fails then {id} else {};
  }

  predicate Clean(local: Store, remote: Store, faults: Faults) {
    && !faults.listLocal && !faults.listRemote
    && forall id :: id in faults.puts ==> !Pulls(local, remote, id) && !Pushes(local, remote, id)
  }

  lemma ListingFailed(local: Store, remote: Store, faults: Faults)
    requires faults.listLocal || faults.listRemote
    ensures ReconcileStores(local, remote, faults) == (local, remote) && !Clean(local, remote, faults)
  {
  }

  /** How many policies a pass compares. */
  function Compared(local: Store, remote: Store): nat {
    |local.Keys + remote.Keys|
  }

  /** How many copies of a pass fail. */
  function Failures(local: Store, remote: Store, faults: Faults): nat {
    |Failing(local, remote, local.Keys + remote.Keys, faults)|
  }

  /** A pass never lowers a revision, on either side, whatever fails. */
  lemma ReconcileNeverRegresses(local: Store, remote: Store, faults: Faults, id: string)
    ensures var (l, r) := ReconcileStores(local, remote, faults);
            AtMost(Lookup(local, id), Lookup(l, id)) && AtMost(Lookup(remote, id), Lookup(r, id))
  {
  }

  /** A clean pass is a join: both sides end at the newer of the two revisions. */
  lemma ReconcileJoins(local: Store, remote: Store, faults: Faults, id: string)
    requires Clean(local, remote, faults)
    ensures var (l, r) := ReconcileStores(local, remote, faults);
            && AtMost(Lookup(local, id), Lookup(l, id)) && AtMost(Lookup(remote, id), Lookup(l, id))
            && SameRevision(Lookup(l, id), Lookup(r, id))
            && (Lookup(l, id) == Lookup(local, id) || Lookup(l, id) == Lookup(remote, id))
            && (Lookup(r, id) == Lookup(local, id) || Lookup(r, id) == Lookup(remote, id))
  {
  }

  /** The local store, every peer's store, and whether no error was met. */
  datatype Passed = Passed(local: Store, remotes: map<RegionId, Store>, ok: bool)

  function PassOver(s: Passed, target: RegionId, faults: Faults): Passed {
    if target !in s.remotes then s.(ok := false)
    else
      var (l, r) := ReconcileStores(s.local, s.remotes[target], faults);
      Passed(l, s.remotes[target := r], s.ok && Clean(s.local, s.remotes[target], faults))
  }

  /** A pass over every target in turn. */
  function PassOverAll(s: Passed, targets: seq<RegionId>, faults: RegionId -> Faults): Passed
    decreases |targets|
  {
    if targets == [] then s
    else
      var t := targets[|targets| - 1];
      PassOver(PassOverAll(s, targets[..|targets| - 1], faults), t, faults(t))
  }

  lemma PassOverOk(s: Passed, target: RegionId, faults: Faults)
    ensures var anew := PassOver(s.(ok := true), target, faults);
            PassOver(s, target, faults) == anew.(ok := s.ok && anew.ok)
  {
  }

  /** The k-th target is a known region, and the pass over it is clean in its turn. */
  predicate CleanAt(s: Passed, targets: seq<RegionId>, faults: RegionId -> Faults, k: nat)
    requires k < |targets|
  {
    var before, t := PassOverAll(s, targets[..k], faults), targets[k];
    t in before.remotes && Clean(before.local, before.remotes[t], faults(t))
  }

  /** A pass reports success exactly when every target is a known region and the pass over it was clean in its turn. */
  lemma {:induction false} PassSucceedsExactly(s: Passed, targets: seq<RegionId>, faults: RegionId -> Faults)
    ensures PassOverAll(s, targets, faults).ok <==>
            s.ok && forall k :: 0 <= k < |targets| ==> CleanAt(s, targets, faults, k)
    decreases |targets|
  {
    hide CleanAt, PassOver;
    if targets != [] {
      var n := |targets| - 1;
      PassSucceedsExactly(s, targets[..n], faults);
      forall k | 0 <= k < n
        ensures CleanAt(s, targets[..n], faults, k) == CleanAt(s, targets, faults, k)
      {
        CleanEarlier(s, targets, faults, k, n);
      }
      CleanLast(s, targets, faults);
    }
  }

  lemma CleanEarlier(s: Passed, targets: seq<RegionId>, faults: RegionId -> Faults, k: nat, n: nat)
    requires k < n <= |targets|
    ensures CleanAt(s, targets[..n], faults, k) == CleanAt(s, targets, faults, k)
  {
    assert targets[..n][..k] == targets[..k];
  }

  lemma CleanLast(s: Passed, targets: seq<RegionId>, faults: RegionId -> Faults)
    requires targets != []
    ensures var n := |targets| - 1;
            var before := PassOverAll(s, targets[..n], faults);
            PassOver(before, targets[n], faults(targets[n])).ok <==> before.ok && CleanAt(s, targets, faults, n)
  {
    hide PassOverAll, ReconcileStores, Clean;
  }

  // ----- authoring -----

  /** The first version, or the successor of the one held, which wraps around as a uint64. */
  function NextVersion(held: Option<Policy>): Version {
    match held
    case None => 1
    case Some(p) => if p.version == MAX_VERSION then 0 else p.version + 1
  }

  /** The revision an authored write stores. */
  function Revised(s: Store, self: RegionId, id: string, body: string, now: int): Policy {
    Policy(id, if id in s then (s[id].version + 1) % 0x1_0000_0000_0000_0000 else 1, body, self, now)
  }

  /** Authoring moves a policy strictly forward, except from the last version, which wraps to an older one. */
  lemma AuthoringAdvances(s: Store, self: RegionId, id: string, body: string, now: int)
    ensures var before, after := Lookup(s, id), Some(Revised(s, self, id, body, now));
            AtMost(after, before) <==> id in s && s[id].version == MAX_VERSION
  {
  }

  // ----- stores -----

  class MemoryStore {
    var policies: Store

    ghost predicate Valid()
      reads this
    {
      Keyed(policies)
    }

    constructor ()
      ensures Valid() && policies == map[]
    {
      policies := map[];
    }

    method Get(id: string) returns (p: Option<Policy>)
      ensures p == Lookup(policies, id)
    {
      if id in policies { return Some(policies[id]); }
      return None;
    }

    /** Upserts; a nil policy is refused. */
    method Put(p: Option<Policy>) returns (ok: bool)
      requires Valid()
      modifies this
      ensures Valid() && ok == p.Some?
      ensures policies == if ok then old(policies)[p.value.id := p.value] else old(policies)
    {
      if p.None? { return false; }
      policies := policies[p.value.id := p.value];
      return true;
    }

    /** All policies, ordered by id. */
    method List() returns (out: seq<Policy>)
      requires Valid()
      ensures |out| == |policies| && Lists(out, policies)
    {
      var held := policies;
      var ids := Text.SortNames(held.Keys);
      out := seq(|ids|, i requires 0 <= i < |ids| && ids[i] in held => held[ids[i]]);
      HeldListed(held, ids, out);
      Text.SortedSize(ids, policies.Keys);
    }
  }

  lemma HeldListed(held: Store, ids: seq<string>, out: seq<Policy>)
    requires forall id :: id in ids <==> id in held
    requires |out| == |ids| && forall i :: 0 <= i < |ids| ==> out[i] == held[ids[i]]
    ensures forall id :: id in held ==> exists i :: 0 <= i < |out| && out[i] == held[id]
  {
    forall id | id in held
      ensures exists i :: 0 <= i < |out| && out[i] == held[id]
    {
      var i :| 0 <= i < |ids| && ids[i] == id;
      assert out[i] == held[id];
    }
  }

  // ----- the replicator -----

  lemma LocalAfterStep(local: Store, remote: Store, ids: set<string>, id: string)
    ensures LocalAfter(local, remote, ids + {id})
            == if Pulls(local, remote, id) then LocalAfter(local, remote, ids)[id := remote[id]]
               else LocalAfter(local, remote, ids)
  {
  }

  lemma RemoteAfterStep(local: Store, remote: Store, ids: set<string>, id: string)
    ensures RemoteAfter(local, remote, ids + {id})
            == if Pushes(local, remote, id) then RemoteAfter(local, remote, ids)[id := local[id]]
               else RemoteAfter(local, remote, ids)
  {
  }

  lemma AfterNothing(local: Store, remote: Store)
    ensures LocalAfter(local, remote, {}) == local && RemoteAfter(local, remote, {}) == remote
  {
  }

  /** Indexes a listing by id. */
  method IndexById(list: seq<Policy>, ghost held: Store) returns (byId: Store)
    requires Lists(list, held) && Keyed(held)
    ensures byId == held
  {
    byId := map[];
    var k := 0;
    while k < |list|
      invariant 0 <= k <= |list|
      invariant forall id :: id in byId ==> id in held && byId[id] == held[id]
      invariant forall j :: 0 <= j < k ==> list[j].id in byId
    {
      byId := byId[list[k].id := list[k]];
      k := k + 1;
    }
    forall id | id in held
      ensures id in byId
    {
      var i :| 0 <= i < |list| && list[i] == held[id];
      assert list[i].id == id;
    }
  }

  /** Lists a store: every policy once, ordered by id. */
  ghost predicate Lists(list: seq<Policy>, held: Store) {
    && (forall a, b :: 0 <= a < b < |list| ==> Text.Before(list[a].id, list[b].id))
    && (forall k :: 0 <= k < |list| ==> list[k].id in held && held[list[k].id] == list[k])
    && (forall id :: id in held ==> exists k :: 0 <= k < |list| && list[k] == held[id])
  }

  ghost function Ids(list: seq<Policy>, n: nat): set<string>
    requires n <= |list|
  {
    if n == 0 then {} else Ids(list, n - 1) + {list[n - 1].id}
  }

  lemma {:induction false} IdsMembers(list: seq<Policy>, n: nat)
    requires n <= |list|
    ensures forall id :: id in Ids(list, n) <==> exists k :: 0 <= k < n && list[k].id == id
    decreases n
  {
    if n > 0 { IdsMembers(list, n - 1); }
  }

  lemma ListedOnce(list: seq<Policy>, held: Store, n: nat)
    requires Lists(list, held) && Keyed(held) && n <= |list|
    ensures n < |list| ==> list[n].id !in Ids(list, n) && Lookup(held, list[n].id) == Some(list[n])
    ensures n == |list| ==> Ids(list, n) == held.Keys
  {
    IdsMembers(list, n);
    if n < |list| { Text.BeforeTotal(list[n].id, list[n].id); }
  }

  lemma OneLess(m: Store, done: set<string>, id: string)
    requires id in m - done
    ensures m - done - {id} == m - (done + {id}) && |(m - done - {id}).Keys| < |(m - done).Keys|
  {
    assert (m - done - {id}).Keys == (m - done).Keys - {id};
  }

  lemma NoneLeft(m: Store, done: set<string>)
    requires m - done == map[]
    ensures m.Keys <= done
  {
    forall id | id in m
      ensures id in done
    {
      assert id !in (m - done).Keys;
    }
  }

  class Replicator {
    const self: RegionId
    const store: MemoryStore
    const peers: map<RegionId, MemoryStore>
    const regions: seq<RegionId>
    var scans: nat
    var pushed: nat
    var pulled: nat
    var skipped: nat
    var errors: nat

    constructor (self: RegionId, store: MemoryStore, peers: map<RegionId, MemoryStore>, regions: seq<RegionId>)
      ensures this.self == self && this.store == store && this.peers == peers && this.regions == regions
      ensures scans == pushed == pulled == skipped == errors == 0
    {
      this.self, this.store, this.peers, this.regions := self, store, peers, regions;
      scans, pushed, pulled, skipped, errors := 0, 0, 0, 0, 0;
    }

    /** The allowlist without repetitions if there is one, else the healthy peers; never this region. */
    method Targets(healthy: seq<RegionId>) returns (out: seq<RegionId>)
      requires forall i, j :: 0 <= i < j < |healthy| ==> healthy[i] != healthy[j]
      ensures forall r :: r in out <==> r != self && r in (if regions != [] then regions else healthy)
      ensures forall i, j :: 0 <= i < j < |out| ==> out[i] != out[j]
    {
      out := [];
      var k := 0;
      if regions != [] {
        while k < |regions|
          invariant 0 <= k <= |regions|
          invariant forall r :: r in out <==> r != self && r in regions[..k]
          invariant forall i, j :: 0 <= i < j < |out| ==> out[i] != out[j]
        {
          if regions[k] != self && regions[k] !in out {
            out := out + [regions[k]];
          }
          k := k + 1;
        }
        assert regions[..k] == regions;
        return;
      }
      while k < |healthy|
        invariant 0 <= k <= |healthy|
        invariant forall r :: r in out <==> r != self && r in healthy[..k]
        invariant forall i, j :: 0 <= i < j < |out| ==> out[i] != out[j]
      {
        assert healthy[k] !in healthy[..k];
        if healthy[k] != self {
          out := out + [healthy[k]];
        }
        k := k + 1;
      }
      assert healthy[..k] == healthy;
    }

    /** Copies the newer revision to the other side; `fails` says whether that write fails. */
    method ReconcilePolicy(peer: MemoryStore, id: string, local: Option<Policy>, remote: Option<Policy>, fails: bool)
      returns (ok: bool)
      requires store.Valid() && peer.Valid() && peer != store
      requires (local.Some? ==> local.value.id == id) && (remote.Some? ==> remote.value.id == id)
      modifies `pushed, `pulled, `skipped, `errors, store, peer
      ensures store.Valid() && peer.Valid()
      ensures var pull, push := CopiesHere(local, remote), CopiesThere(local, remote);
              && ok == !(fails && (pull || push))
              && store.policies == (if pull && ok then old(store.policies)[id := remote.value] else old(store.policies))
              && peer.policies == (if push && ok then old(peer.policies)[id := local.value] else old(peer.policies))
              && pulled == old(pulled) + (if pull && ok then 1 else 0)
              && pushed == old(pushed) + (if push && ok then 1 else 0)
              && skipped == old(skipped) + (if pull || push || (local.None? && remote.None?) then 0 else 1)
              && errors == old(errors) + (if ok then 0 else 1)
    {
      if local.None? && remote.None? { return true; }
      if local.None? || (remote.Some? && CompareRevision(local.value, remote.value) == -1) {
        if fails {
          errors := errors + 1;
          return false;
        }
        var done := store.Put(remote);
        pulled := pulled + 1;
      } else if remote.None? || CompareRevision(local.value, remote.value) == 1 {
        if fails {
          errors := errors + 1;
          return false;
        }
        var done := peer.Put(local);
        pushed := pushed + 1;
      } else {
        skipped := skipped + 1;
      }
      return true;
    }

    ghost function Handled(): nat
      reads this
    {
      pushed + pulled + skipped + errors
    }

    /** Reconciles against one peer; `faults` says which operations fail. */
    method ReconcileRegion(region: RegionId, faults: Faults) returns (ok: bool)
      requires store.Valid()
      requires region in peers ==> peers[region].Valid() && peers[region] != store
      modifies `pushed, `pulled, `skipped, `errors, store, if region in peers then {peers[region]} else {}
      ensures store.Valid() && (region in peers ==> peers[region].Valid())
      ensures region !in peers ==> !ok && store.policies == old(store.policies)
      ensures region !in peers || faults.listLocal || faults.listRemote ==>
              errors == old(errors) + 1 && Handled() == old(Handled()) + 1
      ensures region in peers ==>
              && (store.policies, peers[region].policies)
                 == ReconcileStores(old(store.policies), old(peers[region].policies), faults)
              && ok == Clean(old(store.policies), old(peers[region].policies), faults)
              && (!faults.listLocal && !faults.listRemote ==>
                    && errors == old(errors) + Failures(old(store.policies), old(peers[region].policies), faults)
                    && Handled() == old(Handled()) + Compared(old(store.policies), old(peers[region].policies)))
    {
      hide Progress, Lists, Keyed, ReconcileStores, Clean, Compared, Failures;
      if faults.listLocal || region !in peers || faults.listRemote {
        if region in peers { ListingFailed(store.policies, peers[region].policies, faults); }
        errors := errors + 1;
        return false;
      }
      var peer := peers[region];
      ghost var L, R := store.policies, peer.policies;
      var local := store.List();
      var remote := peer.List();
      var remoteById := IndexById(remote, R);
      ProgressStarts(peer, L, R, faults);
      ok, remoteById := VisitLocal(peer, local, remoteById, faults, L, R, errors, Handled());
      ok := VisitRemoteOnly(peer, remoteById, faults, ok, L, R, old(errors), old(Handled()));
      ProgressDone(peer, L, R, faults, ok, old(errors), old(Handled()));
    }

    lemma ProgressStarts(peer: MemoryStore, L: Store, R: Store, faults: Faults)
      requires store.policies == L && peer.policies == R
      ensures Progress(peer, L, R, {}, faults, true, errors, Handled())
    {
      AfterNothing(L, R);
      assert {} - faults.puts == {};
    }

    lemma ProgressDone(peer: MemoryStore, L: Store, R: Store, faults: Faults, ok: bool, errorsBefore: nat,
                       handledBefore: nat)
      requires Progress(peer, L, R, L.Keys + R.Keys, faults, ok, errorsBefore, handledBefore)
      requires !faults.listLocal && !faults.listRemote
      ensures (store.policies, peer.policies) == ReconcileStores(L, R, faults)
      ensures ok == Clean(L, R, faults) && errors == errorsBefore + Failures(L, R, faults)
      ensures Handled() == handledBefore + Compared(L, R)
    {
      var failing := Failing(L, R, L.Keys + R.Keys, faults);
      assert forall id :: id in faults.puts && (Pulls(L, R, id) || Pushes(L, R, id)) ==> id in failing;
    }

    /** Every local policy against its remote counterpart; what is left of the index is remote only. */
    method VisitLocal(peer: MemoryStore, local: seq<Policy>, index: Store, faults: Faults,
                      ghost L: Store, ghost R: Store, ghost errorsBefore: nat, ghost handledBefore: nat)
      returns (ok: bool, rest: Store)
      requires store.Valid() && peer.Valid() && peer != store && Keyed(L) && Keyed(R) && index == R
      requires Lists(local, L)
      requires Progress(peer, L, R, {}, faults, true, errorsBefore, handledBefore)
      modifies `pushed, `pulled, `skipped, `errors, store, peer
      ensures store.Valid() && peer.Valid() && rest == R - L.Keys
      ensures Progress(peer, L, R, L.Keys, faults, ok, errorsBefore, handledBefore)
    {
      hide Progress, Lists, Keyed;
      ok, rest := true, index;
      var i := 0;
      assert R - {} == R;
      while i < |local|
        invariant 0 <= i <= |local| && store.Valid() && peer.Valid()
        invariant rest == R - Ids(local, i)
        invariant Progress(peer, L, R, Ids(local, i), faults, ok, errorsBefore, handledBefore)
      {
        var lp := local[i];
        ListedOnce(local, L, i);
        var rp := Lookup(rest, lp.id);
        rest := rest - {lp.id};
        ok := Advance(peer, lp.id, Some(lp), rp, faults, ok, L, R, Ids(local, i), errorsBefore, handledBefore);
        i := i + 1;
      }
      ListedOnce(local, L, i);
    }

    method VisitRemoteOnly(peer: MemoryStore, index: Store, faults: Faults, before: bool,
                           ghost L: Store, ghost R: Store, ghost errorsBefore: nat, ghost handledBefore: nat)
      returns (ok: bool)
      requires store.Valid() && peer.Valid() && peer != store && Keyed(L) && Keyed(R) && index == R - L.Keys
      requires Progress(peer, L, R, L.Keys, faults, before, errorsBefore, handledBefore)
      modifies `pushed, `pulled, `skipped, `errors, store, peer
      ensures store.Valid() && peer.Valid()
      ensures Progress(peer, L, R, L.Keys + R.Keys, faults, ok, errorsBefore, handledBefore)
    {
      hide Progress, Keyed;
      ghost var done: set<string> := L.Keys;
      ok := before;
      var rest := index;
      while rest != map[]
        invariant store.Valid() && peer.Valid()
        invariant L.Keys <= done <= L.Keys + R.Keys && rest == R - done
        invariant Progress(peer, L, R, done, faults, ok, errorsBefore, handledBefore)
        decreases |rest.Keys|
      {
        assert rest.Keys != {};
        var id :| id in rest;
        var rp := rest[id];
        OneLess(R, done, id);
        rest := rest - {id};
        ok := Advance(peer, id, None, Some(rp), faults, ok, L, R, done, errorsBefore, handledBefore);
        done := done + {id};
      }
      NoneLeft(R, done);
      assert done == L.Keys + R.Keys;
    }

    /** One id more. */
    method Advance(peer: MemoryStore, id: string, local: Option<Policy>, remote: Option<Policy>, faults: Faults,
                   before: bool, ghost L: Store, ghost R: Store, ghost done: set<string>,
                   ghost errorsBefore: nat, ghost handledBefore: nat)
      returns (ok: bool)
      requires store.Valid() && peer.Valid() && peer != store && Keyed(L) && Keyed(R)
      requires id !in done && local == Lookup(L, id) && remote == Lookup(R, id) && (local.Some? || remote.Some?)
      requires Progress(peer, L, R, done, faults, before, errorsBefore, handledBefore)
      modifies `pushed, `pulled, `skipped, `errors, store, peer
      ensures store.Valid() && peer.Valid()
      ensures Progress(peer, L, R, done + {id}, faults, ok, errorsBefore, handledBefore)
    {
      LocalAfterStep(L, R, done - faults.puts, id);
      RemoteAfterStep(L, R, done - faults.puts, id);
      FailingStep(L, R, done, faults, id);
      assert id in faults.puts ==> done + {id} - faults.puts == done - faults.puts;
      assert id !in faults.puts ==> done + {id} - faults.puts == done - faults.puts + {id};
      var step := ReconcilePolicy(peer, id, local, remote, id in faults.puts);
      ok := before && step;
    }

    /** The state of a pass that has dealt with the ids in `done`. */
    ghost predicate Progress(peer: MemoryStore, L: Store, R: Store, done: set<string>, faults: Faults,
                             ok: bool, errorsBefore: nat, handledBefore: nat)
      reads this, store, peer
    {
      && store.policies == LocalAfter(L, R, done - faults.puts)
      && peer.policies == RemoteAfter(L, R, done - faults.puts)
      && ok == (Failing(L, R, done, faults) == {})
      && errors == errorsBefore + |Failing(L, R, done, faults)|
      && Handled() == handledBefore + |done|
    }

    /** The stores that can be written through the transport. */
    ghost function Mounted(): set<MemoryStore> {
      set r | r in peers :: peers[r]
    }

    ghost function Remotes(): map<RegionId, Store>
      reads Mounted()
    {
      map r | r in peers :: peers[r].policies
    }

    /** Each region has its own store, and none of them is the local one. */
    ghost predicate Separate()
      reads Mounted(), store
    {
      && store.Valid() && store !in Mounted()
      && (forall r :: r in peers ==> peers[r].Valid())
      && forall r, r' :: r in peers && r' in peers && r != r' ==> peers[r] != peers[r']
    }

    method ReconcileTarget(t: RegionId, faults: Faults) returns (ok: bool)
      requires Separate()
      modifies `pushed, `pulled, `skipped, `errors, store, Mounted()
      ensures Separate()
      ensures Passed(store.policies, Remotes(), ok) == PassOver(old(Passed(store.policies, Remotes(), true)), t, faults)
    {
      ghost var remotes := Remotes();
      hide ReconcileStores, Clean, Compared, Failures, Keyed, Handled, MemoryStore.Valid;
      ok := ReconcileRegion(t, faults);
      assert forall r :: r in peers && r != t ==> peers[r].policies == remotes[r] && peers[r].Valid();
      assert Remotes() == if t in peers then remotes[t := peers[t].policies] else remotes;
    }

    /** One anti-entropy pass; a failing region does not stop the others. */
    method Reconcile(healthy: seq<RegionId>, faults: RegionId -> Faults) returns (ok: bool, targets: seq<RegionId>)
      requires Separate()
      requires forall i, j :: 0 <= i < j < |healthy| ==> healthy[i] != healthy[j]
      modifies `scans, `pushed, `pulled, `skipped, `errors, store, Mounted()
      ensures Separate() && scans == old(scans) + 1
      ensures forall r :: r in targets <==> r != self && r in (if regions != [] then regions else healthy)
      ensures forall i, j :: 0 <= i < j < |targets| ==> targets[i] != targets[j]
      ensures Passed(store.policies, Remotes(), ok)
              == PassOverAll(old(Passed(store.policies, Remotes(), true)), targets, faults)
    {
      scans := scans + 1;
      targets := Targets(healthy);
      ok := ReconcileTargets(targets, faults);
    }

    method ReconcileTargets(targets: seq<RegionId>, faults: RegionId -> Faults) returns (ok: bool)
      requires Separate()
      modifies `pushed, `pulled, `skipped, `errors, store, Mounted()
      ensures Separate()
      ensures Passed(store.policies, Remotes(), ok)
              == PassOverAll(old(Passed(store.policies, Remotes(), true)), targets, faults)
    {
      hide Separate, PassOver;
      ghost var before := Passed(store.policies, Remotes(), true);
      ok := true;
      var k := 0;
      while k < |targets|
        invariant 0 <= k <= |targets| && Separate()
        invariant Passed(store.policies, Remotes(), ok) == PassOverAll(before, targets[..k], faults)
      {
        assert targets[..k + 1][..k] == targets[..k];
        ghost var sofar := Passed(store.policies, Remotes(), ok);
        var clean := ReconcileTarget(targets[k], faults(targets[k]));
        PassOverOk(sofar, targets[k], faults(targets[k]));
        ok := ok && clean;
        k := k + 1;
      }
      assert targets[..k] == targets;
    }
  }

  /** The part of the federation façade that authors policies in async mode. */
  class Author {
    const self: RegionId
    const store: MemoryStore
    var authored: nat

    constructor (self: RegionId, store: MemoryStore)
      ensures this.self == self && this.store == store && authored == 0
    {
      this.self, this.store, authored := self, store, 0;
    }

    method Put(id: string, body: string, now: int) returns (p: Option<Policy>)
      requires store.Valid()
      modifies `authored, store
      ensures store.Valid() && p.Some? == (id != "")
      ensures p.None? ==> store.policies == old(store.policies) && authored == old(authored)
      ensures p.Some? ==>
              && p.value.id == id && p.value.body == body && p.value.origin == self && p.value.updatedAt == now
              && p.value.version == NextVersion(Lookup(old(store.policies), id))
              && store.policies == old(store.policies)[id := p.value] && authored == old(authored) + 1
      ensures p.Some? ==> p.value == Revised(old(store.policies), self, id, body, now)
    {
      if id == "" { return None; }
      var cur := store.Get(id);
      var version: Version := 1;
      if cur.Some? {
        version := (cur.value.version + 1) % 0x1_0000_0000_0000_0000;
      }
      p := Some(Policy(id, version, body, self, now));
      var done := store.Put(p);
      authored := authored + 1;
    }
  }
}
