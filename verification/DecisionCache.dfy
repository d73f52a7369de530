/**
 The decision cache (internal/symbolic/cache/cache.go): a map into a list kept in order of use. What it
 holds is exactly what the least-recently-used rule says, as a statement about the whole history.
 */
module DecisionCache {
  import opened Wrappers

  const DEFAULT_MAX_ENTRIES: nat := 1000

  datatype Entry<V> = Entry(hash: string, decision: V)

  /** Entries, most recently used first, and the counters. */
  datatype State<V> = State(entries: seq<Entry<V>>, hits: nat, misses: nat, evictions: nat)

  function Take<T>(n: nat, s: seq<T>): seq<T> {
    if |s| <= n then s else s[..n]
  }

  function Find<V>(s: seq<Entry<V>>, hash: string): Option<V> {
    if s == [] then None else if s[0].hash == hash then Some(s[0].decision) else Find(s[1..], hash)
  }

  function Drop<V>(s: seq<Entry<V>>, hash: string): seq<Entry<V>> {
    if s == [] then [] else if s[0].hash == hash then Drop(s[1..], hash) else [s[0]] + Drop(s[1..], hash)
  }

  function Get<V>(s: State<V>, hash: string): (State<V>, Option<V>) {
    match Find(s.entries, hash)
    case None => (s.(misses := s.misses + 1), None)
    case Some(d) => (s.(entries := [Entry(hash, d)] + Drop(s.entries, hash), hits := s.hits + 1), Some(d))
  }

  function Set<V>(s: State<V>, capacity: nat, hash: string, decision: V): State<V> {
    if capacity == 0 then s
    else if Find(s.entries, hash).Some? then s.(entries := [Entry(hash, decision)] + Drop(s.entries, hash))
    else if |s.entries| < capacity then s.(entries := [Entry(hash, decision)] + s.entries)
    else s.(entries := Take(capacity, [Entry(hash, decision)] + s.entries), evictions := s.evictions + 1)
  }

  // ----- histories -----

  datatype Op<V> = Getting(hash: string) | Setting(hash: string, decision: V)

  function Step<V>(s: State<V>, capacity: nat, op: Op<V>): State<V> {
    match op
    case Getting(h) => Get(s, h).0
    case Setting(h, d) => Set(s, capacity, h, d)
  }

  function Run<V>(capacity: nat, ops: seq<Op<V>>): State<V>
    decreases |ops|
  {
    if ops == [] then State([], 0, 0, 0) else Step(Run(capacity, ops[..|ops| - 1]), capacity, ops[|ops| - 1])
  }

  /** The hashes used, in order: those that were set, and those that were got and found. */
  function Touches<V>(capacity: nat, ops: seq<Op<V>>): seq<string>
    decreases |ops|
  {
    if ops == [] then []
    else
      var before, op := ops[..|ops| - 1], ops[|ops| - 1];
      Touches(capacity, before)
      + if op.Setting? || Find(Run(capacity, before).entries, op.hash).Some? then [op.hash] else []
  }

  /** What was last set for a hash. */
  function LastSet<V>(ops: seq<Op<V>>, hash: string): Option<V>
    decreases |ops|
  {
    if ops == [] then None
    else
      var op := ops[|ops| - 1];
      if op.Setting? && op.hash == hash then Some(op.decision) else LastSet(ops[..|ops| - 1], hash)
  }

  /** What was used after the last use of a hash. */
  function Since(touches: seq<string>, hash: string): seq<string>
    decreases |touches|
  {
    if touches == [] || touches[|touches| - 1] == hash then []
    else Since(touches[..|touches| - 1], hash) + [touches[|touches| - 1]]
  }

  ghost function Distinct(names: seq<string>): set<string> {
    set x | x in names
  }

  /** Used at some time, with fewer than `capacity` other hashes used since. */
  ghost predicate Recent(capacity: nat, touches: seq<string>, hash: string) {
    hash in touches && |Distinct(Since(touches, hash))| < capacity
  }

  // ----- order of use -----

  function DropName(names: seq<string>, name: string): seq<string> {
    if names == [] then [] else if names[0] == name then DropName(names[1..], name)
    else [names[0]] + DropName(names[1..], name)
  }

  /** The hashes used, most recent first, each once. */
  function Recency(touches: seq<string>): seq<string>
    decreases |touches|
  {
    if touches == [] then []
    else
      var h := touches[|touches| - 1];
      [h] + DropName(Recency(touches[..|touches| - 1]), h)
  }

  predicate NoRepeats(names: seq<string>) {
    forall i, j :: 0 <= i < j < |names| ==> names[i] != names[j]
  }

  lemma {:induction false} DropNameMembers(names: seq<string>, name: string)
    ensures forall x :: x in DropName(names, name) <==> x in names && x != name
    decreases |names|
  {
    if names != [] {
      DropNameMembers(names[1..], name);
      assert names == [names[0]] + names[1..];
    }
  }

  lemma ConsNoRepeats(x: string, names: seq<string>)
    requires NoRepeats(names) && x !in names
    ensures NoRepeats([x] + names)
  {
    assert forall i :: 0 <= i < |names| ==> names[i] in names;
  }

  lemma {:induction false} DropNameKeepsNoRepeats(names: seq<string>, name: string)
    requires NoRepeats(names)
    ensures NoRepeats(DropName(names, name))
    decreases |names|
  {
    if names != [] {
      DropNameKeepsNoRepeats(names[1..], name);
      DropNameMembers(names[1..], name);
      assert names[0] !in names[1..];
      ConsNoRepeats(names[0], DropName(names[1..], name));
    }
  }

  lemma {:induction false} DropNameAbsent(names: seq<string>, name: string)
    requires name !in names
    ensures DropName(names, name) == names
    decreases |names|
  {
    if names != [] {
      DropNameAbsent(names[1..], name);
      assert names == [names[0]] + names[1..];
    }
  }

  lemma {:induction false} DropNameSplit(a: seq<string>, b: seq<string>, name: string)
    ensures DropName(a + b, name) == DropName(a, name) + DropName(b, name)
    decreases |a|
  {
    if a == [] {
      assert a + b == b;
    } else {
      assert (a + b)[1..] == a[1..] + b;
      DropNameSplit(a[1..], b, name);
    }
  }

  lemma {:induction false} RecencyOrder(touches: seq<string>)
    ensures NoRepeats(Recency(touches)) && forall x :: x in Recency(touches) <==> x in touches
    decreases |touches|
  {
    if touches != [] {
      var before, h := touches[..|touches| - 1], touches[|touches| - 1];
      RecencyOrder(before);
      DropNameKeepsNoRepeats(Recency(before), h);
      DropNameMembers(Recency(before), h);
      ConsNoRepeats(h, DropName(Recency(before), h));
      assert touches == before + [h];
    }
  }

  lemma {:induction false} DistinctCount(names: seq<string>)
    requires NoRepeats(names)
    ensures |Distinct(names)| == |names|
    decreases |names|
  {
    if names == [] {
      assert Distinct(names) == {};
    } else {
      DistinctCount(names[1..]);
      assert names == [names[0]] + names[1..];
      assert names[0] !in names[1..];
      assert Distinct(names) == Distinct(names[1..]) + {names[0]};
    }
  }

  /** A hash stands in the order of use behind exactly those used since. */
  lemma {:induction false} Place(touches: seq<string>, hash: string)
    requires hash in touches
    ensures var k := |Distinct(Since(touches, hash))|;
            && k < |Recency(touches)| && Recency(touches)[k] == hash
            && Distinct(Recency(touches)[..k]) == Distinct(Since(touches, hash))
    decreases |touches|
  {
    var before, h := touches[..|touches| - 1], touches[|touches| - 1];
    assert touches == before + [h];
    if h == hash {
      assert Distinct(Since(touches, hash)) == {};
      assert Recency(touches)[..0] == [];
    } else {
      Place(before, hash);
      RecencyOrder(before);
      RecencyOrder(touches);
      PlaceMoves(Recency(before), |Distinct(Since(before, hash))|, h);
      assert Distinct(Since(touches, hash)) == Distinct(Since(before, hash)) + {h};
    }
  }

  lemma NoRepeatsBefore(names: seq<string>, k: nat)
    requires NoRepeats(names) && k <= |names|
    ensures NoRepeats(names[..k])
  {
  }

  /** Moving h to the front shifts an entry back by one, unless h stood before it. */
  lemma PlaceMoves(r: seq<string>, k: nat, h: string)
    requires NoRepeats(r) && k < |r| && r[k] != h
    ensures var moved, ahead := [h] + DropName(r, h), Distinct(r[..k]) + {h};
            && |ahead| < |moved| && moved[|ahead|] == r[k]
            && Distinct(moved[..|ahead|]) == ahead
  {
    hide DropName, NoRepeats, Distinct;
    NoRepeatsBefore(r, k);
    var front := [h] + DropName(r[..k], h);
    var rest := DropNameAt(r, k, h);
    DistinctFront(r[..k], h);
    var moved := [h] + DropName(r, h);
    assert moved == front + ([r[k]] + rest);
    assert moved[..|front|] == front;
  }

  /** A name put in front of a list without repetitions, and nowhere else. */
  lemma DistinctFront(names: seq<string>, h: string)
    requires NoRepeats(names)
    ensures var front := [h] + DropName(names, h);
            Distinct(front) == Distinct(names) + {h} && |Distinct(names) + {h}| == |front|
  {
    hide DropName, NoRepeats;
    DropNameMembers(names, h);
    DropNameKeepsNoRepeats(names, h);
    ConsNoRepeats(h, DropName(names, h));
    DistinctCount([h] + DropName(names, h));
    assert Distinct([h] + DropName(names, h)) == Distinct(names) + {h};
  }

  lemma DropNameAt(r: seq<string>, k: nat, h: string) returns (rest: seq<string>)
    requires k < |r| && r[k] != h
    ensures DropName(r, h) == DropName(r[..k], h) + ([r[k]] + rest)
  {
    assert r == r[..k] + r[k..];
    DropNameSplit(r[..k], r[k..], h);
    rest := DropName(r[k..][1..], h);
  }

  // ----- the cache is least-recently-used -----

  function Hashes<V>(s: seq<Entry<V>>): (names: seq<string>)
    ensures |names| == |s| && forall k :: 0 <= k < |s| ==> names[k] == s[k].hash
  {
    seq(|s|, k requires 0 <= k < |s| => s[k].hash)
  }

  lemma {:induction false} DropHashes<V>(s: seq<Entry<V>>, hash: string)
    ensures Hashes(Drop(s, hash)) == DropName(Hashes(s), hash)
    decreases |s|
  {
    if s != [] {
      DropHashes(s[1..], hash);
      assert Hashes(s)[1..] == Hashes(s[1..]);
    }
  }

  lemma {:induction false} FindHashes<V>(s: seq<Entry<V>>, hash: string)
    ensures Find(s, hash).Some? <==> hash in Hashes(s)
    decreases |s|
  {
    if s != [] {
      FindHashes(s[1..], hash);
      assert Hashes(s) == [s[0].hash] + Hashes(s[1..]);
    }
  }

  lemma {:induction false} DropFinds<V>(s: seq<Entry<V>>, hash: string, other: string)
    ensures Find(Drop(s, hash), other) == if other == hash then None else Find(s, other)
    decreases |s|
  {
    if s != [] { DropFinds(s[1..], hash, other); }
  }

  lemma ConsFinds<V>(e: Entry<V>, s: seq<Entry<V>>, hash: string)
    ensures Find([e] + s, hash) == if e.hash == hash then Some(e.decision) else Find(s, hash)
  {
    assert ([e] + s)[1..] == s;
  }

  lemma {:induction false} TakeFinds<V>(s: seq<Entry<V>>, n: nat, hash: string)
    ensures Find(Take(n, s), hash).Some? ==> Find(Take(n, s), hash) == Find(s, hash)
    decreases |s|
  {
    if s != [] && n > 0 {
      TakeFinds(s[1..], n - 1, hash);
      assert Take(n, s)[1..] == Take(n - 1, s[1..]);
    }
  }

  /** Truncating before or after a move to the front comes to the same. */
  lemma {:induction false} TakeDrop(n: nat, r: seq<string>, h: string)
    requires NoRepeats(r)
    ensures Take(n, DropName(Take(n + 1, r), h)) == Take(n, DropName(r, h))
    decreases |r|
  {
    if |r| > n + 1 {
      assert r == [r[0]] + r[1..];
      assert Take(n + 1, r)[1..] == Take(n, r[1..]);
      if r[0] == h {
        DropNameAbsent(r[1..], h);
        assert forall x :: x in Take(n, r[1..]) ==> x in r[1..];
        DropNameAbsent(Take(n, r[1..]), h);
      } else if n > 0 {
        TakeDrop(n - 1, r[1..], h);
        TakeCons(n, r[0], DropName(Take(n, r[1..]), h));
        TakeCons(n, r[0], DropName(r[1..], h));
      }
    }
  }

  lemma TakeCons<T>(n: nat, x: T, s: seq<T>)
    requires n > 0
    ensures Take(n, [x] + s) == [x] + Take(n - 1, s)
  {
  }

  lemma TakeHashes<V>(n: nat, s: seq<Entry<V>>)
    ensures Hashes(Take(n, s)) == Take(n, Hashes(s))
  {
  }

  /** A use of h, on the names alone: it moves to the front and the rest is cut to capacity. */
  lemma TouchMovesToFront(capacity: nat, r: seq<string>, h: string)
    requires NoRepeats(r) && capacity > 0
    ensures Take(capacity, [h] + DropName(Take(capacity, r), h)) == Take(capacity, [h] + DropName(r, h))
    ensures h in Take(capacity, r) ==> |[h] + DropName(Take(capacity, r), h)| <= capacity
  {
    TakeDrop(capacity - 1, r, h);
    TakeCons(capacity, h, DropName(Take(capacity, r), h));
    TakeCons(capacity, h, DropName(r, h));
    var kept := Take(capacity, r);
    if h in kept { DropNameShorter(kept, h); }
  }

  lemma {:induction false} DropNameShorter(names: seq<string>, name: string)
    ensures |DropName(names, name)| <= |names|
    ensures name in names ==> |DropName(names, name)| < |names|
    decreases |names|
  {
    if names != [] {
      DropNameShorter(names[1..], name);
      assert names == [names[0]] + names[1..];
    }
  }

  /** The entries are those most recently used, in order of use. */
  lemma {:induction false} HoldsMostRecent<V>(capacity: nat, ops: seq<Op<V>>)
    ensures Hashes(Run(capacity, ops).entries) == Take(capacity, Recency(Touches(capacity, ops)))
    decreases |ops|
  {
    if ops == [] {
      assert Hashes(Run(capacity, ops).entries) == [];
    } else {
      var before, op := ops[..|ops| - 1], ops[|ops| - 1];
      HoldsMostRecent(capacity, before);
      RecencyOrder(Touches(capacity, before));
      StepHolds(Run(capacity, before), capacity, op, Touches(capacity, before));
    }
  }

  lemma StepHolds<V>(s: State<V>, capacity: nat, op: Op<V>, touches: seq<string>)
    requires Hashes(s.entries) == Take(capacity, Recency(touches)) && NoRepeats(Recency(touches))
    ensures var touched := op.Setting? || Find(s.entries, op.hash).Some?;
            Hashes(Step(s, capacity, op).entries)
            == Take(capacity, Recency(touches + if touched then [op.hash] else []))
  {
    var r, h := Recency(touches), op.hash;
    FindHashes(s.entries, h);
    assert (touches + [h])[..|touches|] == touches;
    assert Recency(touches + [h]) == [h] + DropName(r, h);
    assert touches + [] == touches;
    if capacity > 0 && (op.Setting? || Find(s.entries, h).Some?) {
      TouchMovesToFront(capacity, r, h);
      DropHashes(s.entries, h);
      if Find(s.entries, h).None? {
        DropNameAbsent(Take(capacity, r), h);
      }
      SetHashes(s, capacity, op);
    }
  }

  /** Either way a use leaves the hash in front of the others. */
  lemma SetHashes<V>(s: State<V>, capacity: nat, op: Op<V>)
    requires capacity > 0 && |s.entries| <= capacity
    requires op.Setting? || Find(s.entries, op.hash).Some?
    requires Find(s.entries, op.hash).Some? ==> |[op.hash] + DropName(Hashes(s.entries), op.hash)| <= capacity
    ensures Hashes(Step(s, capacity, op).entries) == Take(capacity, [op.hash] + DropName(Hashes(s.entries), op.hash))
  {
    var h := op.hash;
    FindHashes(s.entries, h);
    DropHashes(s.entries, h);
    var front := [h] + DropName(Hashes(s.entries), h);
    if Find(s.entries, h).Some? {
      assert Hashes(Step(s, capacity, op).entries) == front;
    } else {
      DropNameAbsent(Hashes(s.entries), h);
      var all := [Entry(h, op.decision)] + s.entries;
      assert Hashes(all) == front;
      TakeHashes(capacity, all);
    }
  }

  /** Whatever is held for a hash is what was last set for it. */
  lemma {:induction false} HoldsLastSet<V>(capacity: nat, ops: seq<Op<V>>, hash: string)
    ensures Find(Run(capacity, ops).entries, hash).Some? ==>
            Find(Run(capacity, ops).entries, hash) == LastSet(ops, hash)
    decreases |ops|
  {
    if ops != [] {
      var before, op := ops[..|ops| - 1], ops[|ops| - 1];
      HoldsLastSet(capacity, before, hash);
      HoldsMostRecent(capacity, before);
      var s := Run(capacity, before);
      DropFinds(s.entries, op.hash, hash);
      if op.Setting? {
        var e := Entry(op.hash, op.decision);
        ConsFinds(e, s.entries, hash);
        ConsFinds(e, Drop(s.entries, op.hash), hash);
        TakeFinds([e] + s.entries, capacity, hash);
      } else if Find(s.entries, op.hash).Some? {
        ConsFinds(Entry(op.hash, Find(s.entries, op.hash).value), Drop(s.entries, op.hash), hash);
      }
    }
  }

  /**
   Over every history: a decision is found for a hash exactly when the hash has been used with fewer than
   `capacity` other hashes used since, and it is the one last set.
   */
  lemma ExactlyLru<V>(capacity: nat, ops: seq<Op<V>>, hash: string)
    ensures Find(Run(capacity, ops).entries, hash)
            == if Recent(capacity, Touches(capacity, ops), hash) then LastSet(ops, hash) else None
  {
    var touches := Touches(capacity, ops);
    var r := Recency(touches);
    FindHashes(Run(capacity, ops).entries, hash);
    HoldsMostRecent(capacity, ops);
    HoldsLastSet(capacity, ops, hash);
    RecencyOrder(touches);
    if hash in touches {
      Place(touches, hash);
      var k := |Distinct(Since(touches, hash))|;
      if k < capacity {
        assert Take(capacity, r)[k] == hash;
      } else {
        assert forall i :: 0 <= i < |Take(capacity, r)| ==> Take(capacity, r)[i] == r[i] && r[i] != r[k];
      }
    } else {
      assert forall x :: x in Take(capacity, r) ==> x in r;
    }
  }

  function Gets<V>(ops: seq<Op<V>>): nat {
    if ops == [] then 0 else Gets(ops[..|ops| - 1]) + if ops[|ops| - 1].Getting? then 1 else 0
  }

  /** How many sets brought in a hash that was not held. */
  function Inserts<V>(capacity: nat, ops: seq<Op<V>>): nat {
    if ops == [] then 0
    else
      var before, op := ops[..|ops| - 1], ops[|ops| - 1];
      Inserts(capacity, before)
      + if op.Setting? && Find(Run(capacity, before).entries, op.hash).None? then 1 else 0
  }

  /** How many gets found their hash. */
  function Found<V>(capacity: nat, ops: seq<Op<V>>): nat {
    if ops == [] then 0
    else
      var before, op := ops[..|ops| - 1], ops[|ops| - 1];
      Found(capacity, before)
      + if op.Getting? && Find(Run(capacity, before).entries, op.hash).Some? then 1 else 0
  }

  /** Nothing is lost uncounted: gets are hits or misses, and inserted entries are held or evicted. */
  lemma {:induction false} Conservation<V>(capacity: nat, ops: seq<Op<V>>)
    ensures var s := Run(capacity, ops);
            && s.hits == Found(capacity, ops) && s.hits + s.misses == Gets(ops)
            && |s.entries| <= capacity
            && (capacity > 0 ==> |s.entries| + s.evictions == Inserts(capacity, ops))
            && (capacity == 0 ==> s.hits == s.evictions == 0)
    decreases |ops|
  {
    if ops != [] {
      var before, op := ops[..|ops| - 1], ops[|ops| - 1];
      Conservation(capacity, before);
      var s := Run(capacity, before);
      HoldsMostRecent(capacity, before);
      RecencyOrder(Touches(capacity, before));
      if Find(s.entries, op.hash).Some? {
        FindHashes(s.entries, op.hash);
        DropHashes(s.entries, op.hash);
        DropNameOne(Hashes(s.entries), op.hash);
      }
    }
  }

  lemma {:induction false} DropNameOne(names: seq<string>, name: string)
    requires NoRepeats(names) && name in names
    ensures |DropName(names, name)| == |names| - 1
    decreases |names|
  {
    assert names == [names[0]] + names[1..];
    if names[0] == name {
      assert name !in names[1..];
      DropNameAbsent(names[1..], name);
    } else {
      DropNameOne(names[1..], name);
    }
  }

  // ----- the cache object -----

  class Element<V> {
    const hash: string
    var decision: V

    constructor (hash: string, decision: V)
      ensures this.hash == hash && this.decision == decision
    {
      this.hash, this.decision := hash, decision;
    }
  }

  ghost function View<V>(lru: seq<Element<V>>): (s: seq<Entry<V>>)
    reads lru
    ensures |s| == |lru| && forall k :: 0 <= k < |lru| ==> s[k] == Entry(lru[k].hash, lru[k].decision)
  {
    seq(|lru|, k requires 0 <= k < |lru| reads lru => Entry(lru[k].hash, lru[k].decision))
  }

  lemma ViewFront<V>(e: Element<V>, rest: seq<Element<V>>)
    ensures View([e] + rest) == [Entry(e.hash, e.decision)] + View(rest)
  {
  }

  /** The list without one element. */
  function Unlinked<V>(lru: seq<Element<V>>, e: Element<V>): seq<Element<V>> {
    if lru == [] then [] else if lru[0] == e then Unlinked(lru[1..], e) else [lru[0]] + Unlinked(lru[1..], e)
  }

  lemma {:induction false} UnlinkedMembers<V>(lru: seq<Element<V>>, e: Element<V>)
    ensures forall x :: x in Unlinked(lru, e) <==> x in lru && x != e
    decreases |lru|
  {
    if lru != [] {
      UnlinkedMembers(lru[1..], e);
      assert lru == [lru[0]] + lru[1..];
    }
  }

  lemma {:induction false} UnlinkedView<V>(lru: seq<Element<V>>, e: Element<V>)
    requires forall x :: x in lru && x.hash == e.hash ==> x == e
    ensures View(Unlinked(lru, e)) == Drop(View(lru), e.hash)
    decreases |lru|
  {
    if lru != [] {
      UnlinkedView(lru[1..], e);
      assert View(lru)[1..] == View(lru[1..]);
    }
  }

  lemma {:induction false} FindView<V>(lru: seq<Element<V>>, hash: string)
    ensures Find(View(lru), hash) == None <==> forall x :: x in lru ==> x.hash != hash
    ensures forall e :: e in lru && e.hash == hash && (forall x :: x in lru && x.hash == hash ==> x == e) ==>
              Find(View(lru), hash) == Some(e.decision)
    decreases |lru|
  {
    if lru != [] {
      FindView(lru[1..], hash);
      assert View(lru)[1..] == View(lru[1..]);
      assert lru == [lru[0]] + lru[1..];
    }
  }

  lemma SetOnce<V>(s: State<V>, capacity: nat, hash: string, decision: V)
    requires 0 < capacity && |s.entries| <= capacity
    ensures Find(s.entries, hash).Some? ==>
              Set(s, capacity, hash, decision) == s.(entries := [Entry(hash, decision)] + Drop(s.entries, hash))
    ensures Find(s.entries, hash).None? ==>
              Set(s, capacity, hash, decision)
              == s.(entries := Take(capacity, [Entry(hash, decision)] + s.entries),
                    evictions := s.evictions + if |s.entries| < capacity then 0 else 1)
  {
  }

  class Cache<V> {
    const maxEntries: nat
    var entries: map<string, Element<V>>
    var lru: seq<Element<V>>
    var hits: nat
    var misses: nat
    var evictions: nat

    ghost predicate Valid()
      reads this`entries, this`lru
    {
      Linked() && |lru| <= maxEntries
    }

    /** The map and the list hold the same elements, each once. */
    ghost predicate Linked()
      reads this`entries, this`lru
    {
      && (forall e :: e in lru ==> e.hash in entries && entries[e.hash] == e)
      && (forall h :: h in entries ==> entries[h] in lru && entries[h].hash == h)
      && (forall i, j :: 0 <= i < j < |lru| ==> lru[i] != lru[j])
    }

    ghost function Now(): State<V>
      reads this, lru
    {
      State(View(lru), hits, misses, evictions)
    }

    /** A negative size means the default; zero disables caching. */
    constructor (size: int)
      ensures maxEntries == if size < 0 then DEFAULT_MAX_ENTRIES else size
      ensures Valid() && Now() == State([], 0, 0, 0) && lru == []
    {
      maxEntries := if size < 0 then DEFAULT_MAX_ENTRIES else size;
      entries, lru, hits, misses, evictions := map[], [], 0, 0, 0;
    }

    lemma Holds(hash: string)
      requires Valid()
      ensures Find(View(lru), hash) == if hash in entries then Some(entries[hash].decision) else None
      ensures hash in entries ==>
                && entries[hash] in lru && entries[hash].hash == hash
                && View(Unlinked(lru, entries[hash])) == Drop(View(lru), hash)
    {
      FindView(lru, hash);
      if hash in entries {
        UnlinkedView(lru, entries[hash]);
      }
    }

    method GetByHash(hash: string) returns (d: Option<V>)
      requires Valid()
      modifies `lru, `hits, `misses
      ensures Valid() && (Now(), d) == Get(old(Now()), hash)
      ensures forall e :: e in lru ==> e in old(lru)
    {
      Holds(hash);
      hide Linked, Find, Drop, View, Unlinked;
      if hash !in entries {
        misses := misses + 1;
        assert View(lru) == old(View(lru));
        return None;
      }
      var element := entries[hash];
      d := Some(element.decision);
      MoveToFront(element);
      assert View(Unlinked(old(lru), element)) == old(View(Unlinked(lru, element)));
      ghost var view := View(lru);
      hits := hits + 1;
      assert View(lru) == view;
    }

    method MoveToFront(e: Element<V>)
      requires Valid() && e in lru
      modifies `lru
      ensures Valid() && forall x :: x in lru ==> x in old(lru)
      ensures View(lru) == [Entry(e.hash, e.decision)] + View(Unlinked(old(lru), e))
    {
      hide View, Unlinked;
      UnlinkedOnce(lru, e);
      UnlinkedMembers(lru, e);
      lru := [e] + Unlinked(lru, e);
      ViewFront(e, Unlinked(old(lru), e));
    }

    method SetByHash(hash: string, decision: V)
      requires Valid()
      modifies `entries, `lru, `evictions, lru
      ensures Valid() && Now() == Set(old(Now()), maxEntries, hash, decision)
      ensures forall e :: e in lru ==> e in old(lru) || fresh(e)
    {
      hide Linked, Find, Drop, View, Unlinked, Take;
      if maxEntries == 0 { return; }
      Holds(hash);
      SetOnce(Now(), maxEntries, hash, decision);
      hide Set;
      if hash in entries {
        Overwrite(entries[hash], decision);
        return;
      }
      Insert(hash, decision);
    }

    method Overwrite(element: Element<V>, decision: V)
      requires Valid() && element in lru
      modifies `lru, element
      ensures Valid() && forall x :: x in lru ==> x in old(lru)
      ensures View(lru) == [Entry(element.hash, decision)] + old(View(Unlinked(lru, element)))
    {
      UnlinkedMembers(lru, element);
      ghost var others := Unlinked(lru, element);
      hide Unlinked, Linked;
      element.decision := decision;
      assert View(others) == old(View(others));
      MoveToFront(element);
    }

    /** A hash that is not held goes in front, and the oldest leaves if that is one too many. */
    method Insert(hash: string, decision: V)
      requires Valid() && maxEntries > 0 && hash !in entries
      modifies `entries, `lru, `evictions
      ensures Valid() && View(lru) == Take(maxEntries, [Entry(hash, decision)] + old(View(lru)))
      ensures evictions == old(evictions) + if old(|lru|) < maxEntries then 0 else 1
      ensures forall e :: e in lru ==> e in old(lru) || fresh(e)
    {
      hide Linked;
      PushFront(hash, decision);
      if |lru| <= maxEntries { return; }
      RemoveOldest();
      evictions := evictions + 1;
    }

    method PushFront(hash: string, decision: V)
      requires Linked() && hash !in entries
      modifies `entries, `lru
      ensures Linked() && |lru| == old(|lru|) + 1 && View(lru) == [Entry(hash, decision)] + old(View(lru))
      ensures forall e :: e in lru ==> e in old(lru) || fresh(e)
    {
      hide View;
      var element := new Element(hash, decision);
      ghost var before := lru;
      assert View(lru) == old(View(lru));
      entries := entries[hash := element];
      lru := [element] + lru;
      assert View(before) == old(View(before));
    }

    method RemoveOldest()
      requires Linked() && lru != []
      modifies `entries, `lru
      ensures Linked() && lru == old(lru[..|lru| - 1])
    {
      var last := |lru| - 1;
      var oldest := lru[last];
      assert oldest in lru;
      assert forall i :: 0 <= i < last ==> lru[i] in lru && lru[i].hash != oldest.hash;
      entries := entries - {oldest.hash};
      lru := lru[..last];
    }
  }

  lemma {:induction false} UnlinkedOnce<V>(lru: seq<Element<V>>, e: Element<V>)
    requires e in lru && forall i, j :: 0 <= i < j < |lru| ==> lru[i] != lru[j]
    ensures |Unlinked(lru, e)| == |lru| - 1
    ensures forall i, j :: 0 <= i < j < |lru| - 1 ==> Unlinked(lru, e)[i] != Unlinked(lru, e)[j]
    decreases |lru|
  {
    var s := Unlinked(lru[1..], e);
    assert lru == [lru[0]] + lru[1..];
    if lru[0] == e {
      UnlinkedNone(lru[1..], e);
    } else {
      UnlinkedOnce(lru[1..], e);
      UnlinkedMembers(lru[1..], e);
      assert lru[0] !in lru[1..];
      assert forall i :: 0 <= i < |s| ==> s[i] in s;
    }
  }

  lemma {:induction false} UnlinkedNone<V>(lru: seq<Element<V>>, e: Element<V>)
    requires e !in lru
    ensures Unlinked(lru, e) == lru
    decreases |lru|
  {
    if lru != [] {
      UnlinkedNone(lru[1..], e);
      assert lru == [lru[0]] + lru[1..];
    }
  }
}
