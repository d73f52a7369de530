/**
 The two ends of FederationInterleaving: runs that nothing interrupts, which are those of
 FederationConvergence, and reachable states from which a newer revision is lost.
 */
module FederationSerial {
  import opened Wrappers
  import opened Federation
  import opened FederationConvergence
  import opened FederationInterleaving

  // ----- passes and writes that nothing interrupts -----

  function Perform(f: Fleet, actions: seq<Action>): Fleet {
    When(f, actions, |actions|)
  }

  lemma {:induction false} WhenAppended(f: Fleet, first: seq<Action>, second: seq<Action>, n: nat)
    requires n <= |second|
    ensures When(f, first + second, |first| + n) == When(Perform(f, first), second, n)
    decreases n
  {
    hide Do;
    if n > 0 {
      WhenAppended(f, first, second, n - 1);
    } else {
      WhenPrefix(f, first, second, |first|);
    }
  }

  lemma {:induction false} WhenPrefix(f: Fleet, first: seq<Action>, second: seq<Action>, n: nat)
    requires n <= |first|
    ensures When(f, first + second, n) == When(f, first, n)
    decreases n
  {
    hide Do;
    if n > 0 { WhenPrefix(f, first, second, n - 1); }
  }

  lemma PerformAppended(f: Fleet, first: seq<Action>, second: seq<Action>)
    ensures Perform(f, first + second) == Perform(Perform(f, first), second)
  {
    hide When;
    WhenAppended(f, first, second, |second|);
  }

  lemma PerformOne(f: Fleet, a: Action)
    ensures Perform(f, [a]) == Do(f, a)
  {
    hide Do;
    assert When(f, [a], 0) == f;
  }

  /** A pass over one peer that has dealt with the ids in `done` and that nothing has interrupted. */
  ghost predicate Underway(f: Fleet, k: nat, e: Event, sys: System, done: set<string>)
    requires e.Meet? && e.local in sys && e.remote in sys
  {
    var L, R := sys[e.local], sys[e.remote];
    && k < |f.passes|
    && f.passes[k].local == e.local && f.passes[k].remote == e.remote
    && f.passes[k].here == L && f.passes[k].there == Some(R) && f.passes[k].todo == L.Keys + R.Keys - done
    && f.stores == sys[e.local := LocalAfter(L, R, done - e.faults.puts)]
                      [e.remote := RemoteAfter(L, R, done - e.faults.puts)]
  }

  lemma CopyOne(f: Fleet, k: nat, e: Event, sys: System, done: set<string>, id: string)
    requires e.Meet? && e.local in sys && e.remote in sys && e.local != e.remote
    requires Keyed(sys[e.local]) && Keyed(sys[e.remote]) && Underway(f, k, e, sys, done)
    requires id in sys[e.local].Keys + sys[e.remote].Keys - done
    ensures Underway(Do(f, Copy(k, id, id in e.faults.puts)), k, e, sys, done + {id})
  {
    hide LocalAfter, RemoteAfter;
    var L, R := sys[e.local], sys[e.remote];
    LocalAfterStep(L, R, done - e.faults.puts, id);
    RemoteAfterStep(L, R, done - e.faults.puts, id);
    assert id in e.faults.puts ==> done + {id} - e.faults.puts == done - e.faults.puts;
    assert id !in e.faults.puts ==> done + {id} - e.faults.puts == done - e.faults.puts + {id};
    assert L.Keys + R.Keys - done - {id} == L.Keys + R.Keys - (done + {id});
  }

  /** One copy for each of the ids, in that order. */
  function CopyActions(k: nat, ids: seq<string>, faults: Faults): (actions: seq<Action>)
    ensures |actions| == |ids|
    ensures forall j :: 0 <= j < |ids| ==> actions[j] == Copy(k, ids[j], ids[j] in faults.puts)
  {
    seq(|ids|, j requires 0 <= j < |ids| => Copy(k, ids[j], ids[j] in faults.puts))
  }

  /** All operations of one pass: two listings, then one copy for each of the ids. */
  function PassActions(k: nat, e: Event, ids: seq<string>): seq<Action>
    requires e.Meet?
  {
    [ListLocal(e.local, e.remote), ListRemote(k)] + CopyActions(k, ids, e.faults)
  }

  function Names(ids: seq<string>): set<string> {
    set id | id in ids
  }

  lemma NamesNext(ids: seq<string>, j: nat)
    requires j < |ids|
    ensures Names(ids[..j + 1]) == Names(ids[..j]) + {ids[j]}
  {
    assert ids[..j + 1] == ids[..j] + [ids[j]];
  }

  /** The list holds each of these names once. */
  ghost predicate Enumerates(ids: seq<string>, names: set<string>) {
    && (forall id :: id in ids <==> id in names)
    && forall i, j :: 0 <= i < j < |ids| ==> ids[i] != ids[j]
  }

  lemma {:induction false} CopyEach(f: Fleet, k: nat, e: Event, sys: System, ids: seq<string>, j: nat)
    requires e.Meet? && e.local in sys && e.remote in sys && e.local != e.remote
    requires Keyed(sys[e.local]) && Keyed(sys[e.remote]) && Underway(f, k, e, sys, {})
    requires Enumerates(ids, sys[e.local].Keys + sys[e.remote].Keys) && j <= |ids|
    ensures Underway(When(f, CopyActions(k, ids, e.faults), j), k, e, sys, Names(ids[..j]))
    decreases j
  {
    hide Underway, Do, When, Keyed, Enumerates, Names;
    var copies := CopyActions(k, ids, e.faults);
    if j == 0 {
      WhenStarts(f, copies);
      NoNames(ids);
    } else {
      CopyEach(f, k, e, sys, ids, j - 1);
      EachOnce(ids, sys[e.local].Keys + sys[e.remote].Keys, j - 1);
      CopyOne(When(f, copies, j - 1), k, e, sys, Names(ids[..j - 1]), ids[j - 1]);
      NamesNext(ids, j - 1);
      WhenNext(f, copies, j - 1);
    }
  }

  lemma EachOnce(ids: seq<string>, names: set<string>, j: nat)
    requires Enumerates(ids, names) && j < |ids|
    ensures ids[j] in names && ids[j] !in Names(ids[..j])
  {
    assert ids[j] in ids;
  }

  lemma NoNames(ids: seq<string>)
    ensures Names(ids[..0]) == {}
  {
  }

  lemma WhenStarts(f: Fleet, actions: seq<Action>)
    ensures When(f, actions, 0) == f
  {
  }

  lemma PerformNothing(f: Fleet)
    ensures Perform(f, []) == f
  {
  }

  /** A pass that nothing interrupts is one meeting, whatever order it takes the ids in and whatever fails. */
  lemma UninterruptedPass(f: Fleet, e: Event, ids: seq<string>)
    requires e.Meet? && e.local in f.stores && e.remote in f.stores && e.local != e.remote
    requires !e.faults.listLocal && !e.faults.listRemote
    requires Keyed(f.stores[e.local]) && Keyed(f.stores[e.remote])
    requires Enumerates(ids, f.stores[e.local].Keys + f.stores[e.remote].Keys)
    ensures Perform(f, PassActions(|f.passes|, e, ids)).stores == Step(f.stores, e)
  {
    hide When, Do, Keyed, LocalAfter, RemoteAfter;
    var start, copies := [ListLocal(e.local, e.remote), ListRemote(|f.passes|)], CopyActions(|f.passes|, ids, e.faults);
    PassOpened(f, e);
    CopyEach(Perform(f, start), |f.passes|, e, f.stores, ids, |ids|);
    assert ids[..|ids|] == ids;
    assert Names(ids) == f.stores[e.local].Keys + f.stores[e.remote].Keys;
    PerformAppended(f, start, copies);
  }

  /** Some enumeration of a set. */
  lemma {:induction false} Enumeration(names: set<string>) returns (ids: seq<string>)
    ensures Enumerates(ids, names)
    decreases names
  {
    if names == {} {
      ids := [];
    } else {
      var id :| id in names;
      var rest := Enumeration(names - {id});
      ids := [id] + rest;
    }
  }

  lemma SameStores(sys: System, e: Event)
    requires e.Meet?
    requires e.faults.listLocal || e.faults.listRemote || e.local !in sys || e.remote !in sys || e.local == e.remote
    ensures Step(sys, e) == sys
  {
  }

  lemma PassOpened(f: Fleet, e: Event)
    requires e.Meet? && e.local in f.stores && e.remote in f.stores && e.local != e.remote
    ensures Underway(Perform(f, [ListLocal(e.local, e.remote), ListRemote(|f.passes|)]), |f.passes|, e, f.stores, {})
  {
    hide Perform, LocalAfter, RemoteAfter;
    var L, R := f.stores[e.local], f.stores[e.remote];
    BothListed(f, e.local, e.remote, Pass(e.local, e.remote, L, f.time, Some(R), f.time + 1, L.Keys + R.Keys));
    AfterNothing(L, R);
    assert {} - e.faults.puts == {};
    assert L.Keys + R.Keys - {} == L.Keys + R.Keys;
  }

  /** An author whose read and write follow each other is one authored write. */
  lemma UninterruptedWrite(f: Fleet, e: Event)
    requires e.Write? && e.region in f.stores && e.id != ""
    ensures Perform(f, [Read(e.region, e.id, e.body, e.now), Commit(|f.drafts|)]).stores == Step(f.stores, e)
  {
    var first, second := Read(e.region, e.id, e.body, e.now), Commit(|f.drafts|);
    PerformOne(f, first);
    PerformOne(Do(f, first), second);
    PerformAppended(f, [first], [second]);
    assert [first] + [second] == [first, second];
  }

  /** What an event is made of: the operations of its pass or of its author, or nothing where it fails at once. */
  ghost predicate Performs(f: Fleet, e: Event, actions: seq<Action>) {
    match e
    case Meet(l, r, faults) =>
      if l in f.stores && r in f.stores && l != r && !faults.listLocal && !faults.listRemote
      then
        exists ids :: Enumerates(ids, f.stores[l].Keys + f.stores[r].Keys) && actions == PassActions(|f.passes|, e, ids)
      else actions == []
    case Write(r, id, body, now) =>
      if r in f.stores && id != "" then actions == [Read(r, id, body, now), Commit(|f.drafts|)] else actions == []
  }

  lemma EventPerformed(f: Fleet, e: Event) returns (actions: seq<Action>)
    requires forall r :: r in f.stores ==> Keyed(f.stores[r])
    ensures Performs(f, e, actions) && Perform(f, actions).stores == Step(f.stores, e)
  {
    hide Perform, Enumerates;
    actions := [];
    PerformNothing(f);
    match e
    case Meet(l, r, faults) =>
      if l in f.stores && r in f.stores && l != r && !faults.listLocal && !faults.listRemote {
        var ids := Enumeration(f.stores[l].Keys + f.stores[r].Keys);
        UninterruptedPass(f, e, ids);
        actions := PassActions(|f.passes|, e, ids);
      } else {
        SameStores(f.stores, e);
      }
    case Write(r, id, body, now) =>
      if r in f.stores && id != "" {
        UninterruptedWrite(f, e);
        actions := [Read(r, id, body, now), Commit(|f.drafts|)];
      }
  }

  /** Every run of meetings and authored writes is the run of their operations, one event after the other. */
  lemma {:induction false} SerialRun(f0: Fleet, events: seq<Event>) returns (pieces: seq<seq<Action>>)
    requires Idle(f0)
    ensures |pieces| == |events|
    ensures forall k :: 0 <= k < |events| ==> Performs(Perform(f0, Joined(pieces[..k])), events[k], pieces[k])
    ensures Perform(f0, Joined(pieces)).stores == Run(f0.stores, events)
    decreases |events|
  {
    hide When, Do, Step, Performs, Joined;
    NoPieces();
    if events == [] {
      PerformNothing(f0);
      pieces := [];
    } else {
      var n := |events| - 1;
      var before := SerialRun(f0, events[..n]);
      var f := Perform(f0, Joined(before));
      Records(f0, Joined(before), |Joined(before)|);
      var last := EventPerformed(f, events[n]);
      PerformAppended(f0, Joined(before), last);
      pieces := before + [last];
      JoinedNext(before, last);
      assert pieces[..n] == before;
      assert forall k :: 0 <= k < n ==> pieces[..k] == before[..k] && events[..n][k] == events[k];
    }
  }

  lemma NoPieces()
    ensures Joined([]) == []
  {
  }

  lemma JoinedNext(pieces: seq<seq<Action>>, last: seq<Action>)
    ensures Joined(pieces + [last]) == Joined(pieces) + last
  {
    assert (pieces + [last])[..|pieces|] == pieces;
  }

  function Joined(pieces: seq<seq<Action>>): seq<Action> {
    if pieces == [] then [] else Joined(pieces[..|pieces| - 1]) + pieces[|pieces| - 1]
  }

  // ----- writes that are lost -----

  /** A newer write that comes after the decision and before the copy is lost, whoever makes either. */
  lemma OvertakenIsLost(f: Fleet, first: Action, second: Action, r: RegionId, id: string)
    requires Targets(f, first, r, id) && Targets(f, second, r, id) && r in f.stores
    requires Written(Do(f, first), second) == Written(f, second)
    requires Overtakes(f, first, Written(f, second).value)
    ensures Stale(Do(f, first), second)
    ensures At(Do(Do(f, first), second).stores, r, id) == Some(Written(f, second).value.policy)
  {
    hide Do, Written;
    StepLowers(f, first, r, id);
    StepLowers(Do(f, first), second, r, id);
  }

  /** Both regions hold the policy, and eu has listed its own store and that of us. */
  function Listed(eu: Policy, us: Policy): Fleet {
    Fleet(2, map["eu" := map[eu.id := eu], "us" := map[us.id := us]],
          [Pass("eu", "us", map[eu.id := eu], 0, Some(map[us.id := us]), 1, {eu.id} + {us.id})], [])
  }

  lemma ReachesListed(eu: Policy, us: Policy)
    ensures var f0 := Fleet(0, map["eu" := map[eu.id := eu], "us" := map[us.id := us]], [], []);
            Idle(f0) && Perform(f0, [ListLocal("eu", "us"), ListRemote(0)]) == Listed(eu, us)
  {
    var f0 := Fleet(0, map["eu" := map[eu.id := eu], "us" := map[us.id := us]], [], []);
    var first, second := ListLocal("eu", "us"), ListRemote(0);
    PerformOne(f0, first);
    PerformOne(Do(f0, first), second);
    PerformAppended(f0, [first], [second]);
    assert [first] + [second] == [first, second];
    assert map[eu.id := eu].Keys + map[us.id := us].Keys == {eu.id} + {us.id};
  }

  /** The state in which r has also read its policy and drafted the successor. */
  function Drafted(f: Fleet, r: RegionId, id: string, body: string, now: int): Fleet {
    Do(f, Read(r, id, body, now))
  }

  /** A pull of what was listed overwrites what the local region authored since. */
  lemma PullOverwritesAuthor(id: string, before: int, now: int)
    requires id != "" && before < now
    ensures var f := Drafted(Listed(Policy(id, 1, "old", "eu", 0), Policy(id, 2, "theirs", "us", before)), "eu", id,
                             "ours", now);
            Stale(Do(f, Commit(0)), Copy(0, id, false))
  {
    var f := Drafted(Listed(Policy(id, 1, "old", "eu", 0), Policy(id, 2, "theirs", "us", before)), "eu", id, "ours",
                     now);
    OvertakenIsLost(f, Commit(0), Copy(0, id, false), "eu", id);
  }

  /** A push of what was listed overwrites what the peer authored since. */
  lemma PushOverwritesAuthor(id: string, before: int, now: int)
    requires id != "" && before < now
    ensures var f := Drafted(Listed(Policy(id, 2, "ours", "eu", before), Policy(id, 1, "old", "us", 0)), "us", id,
                             "theirs", now);
            Stale(Do(f, Commit(0)), Copy(0, id, false))
  {
    var f := Drafted(Listed(Policy(id, 2, "ours", "eu", before), Policy(id, 1, "old", "us", 0)), "us", id, "theirs",
                     now);
    OvertakenIsLost(f, Commit(0), Copy(0, id, false), "us", id);
  }

  /** A commit overwrites what the pass pulled after the author had read. */
  lemma CommitOverwritesPull(id: string, now: int)
    requires id != ""
    ensures var f := Drafted(Listed(Policy(id, 1, "old", "eu", 0), Policy(id, 5, "theirs", "us", 0)), "eu", id,
                             "ours", now);
            Stale(Do(f, Copy(0, id, false)), Commit(0))
  {
    var f := Drafted(Listed(Policy(id, 1, "old", "eu", 0), Policy(id, 5, "theirs", "us", 0)), "eu", id, "ours", now);
    OvertakenIsLost(f, Copy(0, id, false), Commit(0), "eu", id);
  }

  /** With no author at all, a pull overwrites what another pass has written there since. */
  lemma PullOverwritesOtherPass(id: string, p: Policy, q: Policy, f: Fleet)
    requires |f.passes| == 2 && f.passes[0].local in f.stores
    requires f.passes[0].there.Some? && id in f.passes[0].todo && CopyOf(f.passes[0], id).Some?
    requires f.passes[1].there.Some? && id in f.passes[1].todo && CopyOf(f.passes[1], id).Some?
    requires CopyOf(f.passes[0], id).value == Put(f.passes[0].local, p, f.passes[0].hereAt) && p.id == id
    requires CopyOf(f.passes[1], id).value == Put(f.passes[0].local, q, f.passes[1].thereAt) && q.id == id
    requires CompareRevision(q, p) == 1
    ensures Stale(Do(f, Copy(1, id, false)), Copy(0, id, false))
    ensures At(Do(Do(f, Copy(1, id, false)), Copy(0, id, false)).stores, f.passes[0].local, id) == Some(p)
  {
    OvertakenIsLost(f, Copy(1, id, false), Copy(0, id, false), f.passes[0].local, id);
  }

  function Alone(id: string, version: Version, region: RegionId): Store {
    map[id := Policy(id, version, "", region, 0)]
  }

  /** Three regions hold versions 1, 2 and 3; eu has listed itself and us, then ap has listed itself and eu. */
  function TwoPasses(id: string): Fleet {
    var eu, us, ap := Alone(id, 1, "eu"), Alone(id, 2, "us"), Alone(id, 3, "ap");
    Fleet(4, map["eu" := eu, "us" := us, "ap" := ap],
          [Pass("eu", "us", eu, 0, Some(us), 1, {id}), Pass("ap", "eu", ap, 2, Some(eu), 3, {id})], [])
  }

  lemma PullOverwritesPush(id: string)
    ensures Stale(Do(TwoPasses(id), Copy(1, id, false)), Copy(0, id, false))
  {
    hide Do, Stale;
    var f := TwoPasses(id);
    assert CopyOf(f.passes[0], id) == Some(Put("eu", Policy(id, 2, "", "us", 0), 0));
    assert CopyOf(f.passes[1], id) == Some(Put("eu", Policy(id, 3, "", "ap", 0), 3));
    PullOverwritesOtherPass(id, Policy(id, 2, "", "us", 0), Policy(id, 3, "", "ap", 0), f);
  }

  lemma ReachesTwoPasses(id: string)
    ensures var f := TwoPasses(id);
            var f0 := Fleet(0, f.stores, [], []);
            && Idle(f0)
            && Perform(f0, [ListLocal("eu", "us"), ListRemote(0)] + [ListLocal("ap", "eu"), ListRemote(1)]) == f
  {
    hide Perform;
    var f := TwoPasses(id);
    var f0, f2 := Fleet(0, f.stores, [], []), Fleet(2, f.stores, [f.passes[0]], []);
    BothListed(f0, "eu", "us", f.passes[0]);
    BothListed(f2, "ap", "eu", f.passes[1]);
    assert f0.passes + [f.passes[0]] == f2.passes && f2.passes + [f.passes[1]] == f.passes;
    PerformAppended(f0, [ListLocal("eu", "us"), ListRemote(0)], [ListLocal("ap", "eu"), ListRemote(1)]);
  }

  lemma BothListed(f: Fleet, l: RegionId, r: RegionId, p: Pass)
    requires l in f.stores && r in f.stores && l != r
    requires p == Pass(l, r, f.stores[l], f.time, Some(f.stores[r]), f.time + 1, f.stores[l].Keys + f.stores[r].Keys)
    ensures Perform(f, [ListLocal(l, r), ListRemote(|f.passes|)])
            == Fleet(f.time + 2, f.stores, f.passes + [p], f.drafts)
  {
    hide Do, When;
    var first, second := ListLocal(l, r), ListRemote(|f.passes|);
    PerformOne(f, first);
    PerformOne(Do(f, first), second);
    PerformAppended(f, [first], [second]);
    assert [first] + [second] == [first, second];
    ListsBoth(f, l, r, p);
  }

  lemma ListsBoth(f: Fleet, l: RegionId, r: RegionId, p: Pass)
    requires l in f.stores && r in f.stores && l != r
    requires p == Pass(l, r, f.stores[l], f.time, Some(f.stores[r]), f.time + 1, f.stores[l].Keys + f.stores[r].Keys)
    ensures Do(Do(f, ListLocal(l, r)), ListRemote(|f.passes|)) == Fleet(f.time + 2, f.stores, f.passes + [p], f.drafts)
  {
    var g := Do(f, ListLocal(l, r));
    assert g == Fleet(f.time + 1, f.stores, f.passes + [Pass(l, r, f.stores[l], f.time, None, 0, {})], f.drafts);
    assert Do(g, ListRemote(|f.passes|)).passes == f.passes + [p];
  }
}
