/**
 The consistent-hashing ring (internal/distributed/sharding/ring.go): virtual nodes kept sorted by hash,
 lookup by binary search, and the effect of membership changes on who owns a key. The hash is any
 function; the sort leaves equal hashes in any order.
 */
module Ring {
  import opened Wrappers
  import Decimal

  type NodeId = string

  datatype VirtualNode = VirtualNode(hash: nat, node: NodeId)

  /** What never changes about a ring: its hash and how many virtual nodes a node places. */
  datatype Config = Config(hash: string -> nat, replicas: nat)

  datatype State = State(virtuals: seq<VirtualNode>, nodes: set<NodeId>)

  const DEFAULT_VIRTUAL_NODES: nat := 150

  /** The points of one node. */
  function Placed(c: Config, node: NodeId): (s: seq<VirtualNode>)
    ensures |s| == c.replicas && forall k :: 0 <= k < |s| ==> s[k].node == node
  {
    seq(c.replicas, i requires i >= 0 => VirtualNode(c.hash(node + "#" + Decimal.Itoa(i)), node))
  }

  ghost predicate IsPoint(c: Config, nodes: set<NodeId>, p: VirtualNode) {
    p.node in nodes && p in Placed(c, p.node)
  }

  predicate Sorted(s: seq<VirtualNode>) {
    forall i, j :: 0 <= i < j < |s| ==> s[i].hash <= s[j].hash
  }

  /** Sorted, and holding exactly the points of the members, each as often as it was placed. */
  ghost predicate Valid(c: Config, s: State) {
    && c.replicas > 0
    && Sorted(s.virtuals)
    && forall p :: multiset(s.virtuals)[p] == if p.node in s.nodes then multiset(Placed(c, p.node))[p] else 0
  }

  /** Point i of a node lies at the hash of its id, "#" and i; a ring holds these points of its members, no others. */
  lemma RingPoints(c: Config, s: State, p: VirtualNode)
    requires Valid(c, s)
    ensures p in s.virtuals <==>
            p.node in s.nodes && exists i :: 0 <= i < c.replicas && p.hash == c.hash(p.node + "#" + Decimal.Itoa(i))
  {
    ValidPoints(c, s);
    if p.node in s.nodes {
      var placed := Placed(c, p.node);
      if i :| 0 <= i < c.replicas && p.hash == c.hash(p.node + "#" + Decimal.Itoa(i)) {
        assert placed[i] == p;
      }
    }
  }

  /** So a node owns the keys that name its points, unless another node has a point there too. */
  lemma OwnsItsNames(c: Config, s: State, node: NodeId, i: nat)
    requires Valid(c, s) && node in s.nodes && i < c.replicas
    requires forall p :: p in s.virtuals && p.hash == c.hash(node + "#" + Decimal.Itoa(i)) ==> p.node == node
    ensures LookupOf(c, s, node + "#" + Decimal.Itoa(i)) == Some(node)
  {
    var h := c.hash(node + "#" + Decimal.Itoa(i));
    RingPoints(c, s, VirtualNode(h, node));
    FirstFound(s.virtuals, h, VirtualNode(h, node));
  }

  /** In a sorted list, the first at or after a hash that occurs has that hash. */
  lemma {:induction false} FirstFound(s: seq<VirtualNode>, h: nat, p: VirtualNode)
    requires Sorted(s) && p in s && p.hash == h
    ensures First(s, h).Some? && First(s, h).value in s && First(s, h).value.hash == h
    decreases |s|
  {
    var n := |s| - 1;
    if p in s[..n] {
      FirstFound(s[..n], h, p);
    } else {
      FirstBelow(s[..n], h);
      if First(s[..n], h).Some? {
        var q := First(s[..n], h).value;
        var k :| 0 <= k < n && s[k] == q;
        assert s[k].hash <= s[n].hash;
      }
    }
  }

  lemma {:induction false} FirstBelow(s: seq<VirtualNode>, h: nat)
    ensures First(s, h).Some? ==> First(s, h).value in s && First(s, h).value.hash >= h
    decreases |s|
  {
    if s != [] { FirstBelow(s[..|s| - 1], h); }
  }

  // ----- membership changes -----

  function Without(s: seq<VirtualNode>, node: NodeId): seq<VirtualNode> {
    if s == [] then []
    else
      var rest := Without(s[..|s| - 1], node);
      if s[|s| - 1].node == node then rest else rest + [s[|s| - 1]]
  }

  /** Adding fixes the members and the points, but not the order of equal hashes. */
  ghost predicate Added(c: Config, s: State, node: NodeId, after: State) {
    if node in s.nodes then after == s
    else
      && after.nodes == s.nodes + {node}
      && Sorted(after.virtuals)
      && multiset(after.virtuals) == multiset(s.virtuals + Placed(c, node))
  }

  function Removed(s: State, node: NodeId): State {
    if node !in s.nodes then s else State(Without(s.virtuals, node), s.nodes - {node})
  }

  // ----- lookup -----

  /** The first virtual node at or after h, in ring order. */
  function First(s: seq<VirtualNode>, h: nat): Option<VirtualNode> {
    if s == [] then None
    else
      match First(s[..|s| - 1], h)
      case Some(p) => Some(p)
      case None => if s[|s| - 1].hash >= h then Some(s[|s| - 1]) else None
  }

  function Owner(s: seq<VirtualNode>, h: nat): Option<NodeId> {
    if s == [] then None
    else
      match First(s, h)
      case Some(p) => Some(p.node)
      case None => Some(s[0].node)
  }

  function LookupOf(c: Config, s: State, key: string): Option<NodeId> {
    Owner(s.virtuals, c.hash(key))
  }

  /** p has the least hash at or above h, or the least of all when none is at or above. */
  ghost predicate Successor(c: Config, nodes: set<NodeId>, h: nat, p: VirtualNode) {
    && IsPoint(c, nodes, p)
    && if p.hash >= h then forall q :: IsPoint(c, nodes, q) && q.hash >= h ==> p.hash <= q.hash
       else forall q :: IsPoint(c, nodes, q) ==> q.hash < h && p.hash <= q.hash
  }

  /** All points at the successor position belong to one node. */
  ghost predicate Undisputed(c: Config, nodes: set<NodeId>, h: nat) {
    forall p, q :: Successor(c, nodes, h, p) && Successor(c, nodes, h, q) ==> p.node == q.node
  }

  ghost predicate TieFree(c: Config, nodes: set<NodeId>) {
    forall p, q :: IsPoint(c, nodes, p) && IsPoint(c, nodes, q) && p.hash == q.hash ==> p.node == q.node
  }

  lemma TieFreeIsUndisputed(c: Config, nodes: set<NodeId>, h: nat)
    requires TieFree(c, nodes)
    ensures Undisputed(c, nodes, h)
  {
  }

  // ----- the ring holds its members' points, through every history -----

  lemma ValidPoints(c: Config, s: State)
    requires Valid(c, s)
    ensures forall p :: p in s.virtuals <==> IsPoint(c, s.nodes, p)
  {
    forall p
      ensures p in s.virtuals <==> IsPoint(c, s.nodes, p)
    {
      assert p in s.virtuals <==> multiset(s.virtuals)[p] > 0;
      assert p in Placed(c, p.node) <==> multiset(Placed(c, p.node))[p] > 0;
    }
  }

  lemma {:induction false} WithoutCounts(s: seq<VirtualNode>, node: NodeId, p: VirtualNode)
    ensures multiset(Without(s, node))[p] == if p.node == node then 0 else multiset(s)[p]
    decreases |s|
  {
    if s != [] {
      var rest := s[..|s| - 1];
      assert s == rest + [s[|s| - 1]];
      WithoutCounts(rest, node, p);
    }
  }

  lemma {:induction false} WithoutSorted(s: seq<VirtualNode>, node: NodeId)
    requires Sorted(s)
    ensures Sorted(Without(s, node)) && forall p :: p in Without(s, node) ==> p in s
    decreases |s|
  {
    if s != [] {
      var rest, last := s[..|s| - 1], s[|s| - 1];
      WithoutSorted(rest, node);
      var kept := Without(rest, node);
      forall i | 0 <= i < |kept|
        ensures kept[i].hash <= last.hash
      {
        assert kept[i] in rest;
      }
    }
  }

  lemma AddKeepsValid(c: Config, s: State, node: NodeId, after: State)
    requires Valid(c, s) && Added(c, s, node, after)
    ensures Valid(c, after) && after.nodes == s.nodes + {node}
  {
    if node !in s.nodes {
      forall p
        ensures multiset(after.virtuals)[p] == if p.node in after.nodes then multiset(Placed(c, p.node))[p] else 0
      {
        assert p in Placed(c, node) ==> p.node == node;
      }
    }
  }

  lemma RemoveKeepsValid(c: Config, s: State, node: NodeId)
    requires Valid(c, s)
    ensures Valid(c, Removed(s, node)) && Removed(s, node).nodes == s.nodes - {node}
  {
    if node in s.nodes {
      WithoutSorted(s.virtuals, node);
      forall p { WithoutCounts(s.virtuals, node, p); }
    }
  }

  datatype Change = Add(node: NodeId) | Remove(node: NodeId)

  function MembersAfter(changes: seq<Change>): set<NodeId> {
    if changes == [] then {}
    else
      var before := MembersAfter(changes[..|changes| - 1]);
      match changes[|changes| - 1]
      case Add(n) => before + {n}
      case Remove(n) => before - {n}
  }

  ghost predicate Follows(c: Config, s: State, change: Change, after: State) {
    match change
    case Add(n) => Added(c, s, n, after)
    case Remove(n) => after == Removed(s, n)
  }

  /** The states of a ring that starts empty and goes through the changes. */
  ghost predicate History(c: Config, changes: seq<Change>, states: seq<State>) {
    && c.replicas > 0
    && |states| == |changes| + 1 && states[0] == State([], {})
    && forall k :: 0 <= k < |changes| ==> Follows(c, states[k], changes[k], states[k + 1])
  }

  lemma {:induction false} HistoryValid(c: Config, changes: seq<Change>, states: seq<State>)
    requires History(c, changes, states)
    ensures Valid(c, states[|changes|]) && states[|changes|].nodes == MembersAfter(changes)
    decreases |changes|
  {
    if changes != [] {
      var n := |changes| - 1;
      HistoryValid(c, changes[..n], states[..n + 1]);
      assert Follows(c, states[n], changes[n], states[n + 1]);
      match changes[n]
      case Add(node) => AddKeepsValid(c, states[n], node, states[n + 1]);
      case Remove(node) => RemoveKeepsValid(c, states[n], node);
    }
  }

  // ----- lookup finds the successor -----

  lemma {:induction false} FirstIs(s: seq<VirtualNode>, h: nat, i: nat)
    requires i <= |s|
    requires forall j :: 0 <= j < i ==> s[j].hash < h
    requires i < |s| ==> s[i].hash >= h
    ensures First(s, h) == if i < |s| then Some(s[i]) else None
    decreases |s|
  {
    if s != [] {
      FirstIs(s[..|s| - 1], h, if i == |s| then |s| - 1 else i);
    }
  }

  /** Where the search stops: the first position at or after h. */
  lemma {:induction false} Position(s: seq<VirtualNode>, h: nat) returns (i: nat)
    ensures i <= |s| && (forall j :: 0 <= j < i ==> s[j].hash < h) && (i < |s| ==> s[i].hash >= h)
    ensures First(s, h) == if i < |s| then Some(s[i]) else None
  {
    i := 0;
    while i < |s| && s[i].hash < h
      invariant i <= |s| && forall j :: 0 <= j < i ==> s[j].hash < h
    {
      i := i + 1;
    }
    FirstIs(s, h, i);
  }

  /** The owner is the node of a point at the successor position. */
  lemma OwnerIsSuccessor(c: Config, s: State, h: nat) returns (p: VirtualNode)
    requires Valid(c, s) && s.nodes != {}
    ensures Successor(c, s.nodes, h, p) && Owner(s.virtuals, h) == Some(p.node)
  {
    var at;
    p, at := OwnerIsFound(c, s, h);
  }

  lemma MembersHavePoints(c: Config, s: State)
    requires Valid(c, s) && s.nodes != {}
    ensures s.virtuals != [] && Sorted(s.virtuals) && forall p :: p in s.virtuals <==> IsPoint(c, s.nodes, p)
  {
    ValidPoints(c, s);
    var n :| n in s.nodes;
    assert IsPoint(c, s.nodes, Placed(c, n)[0]);
  }

  lemma OwnerIsFound(c: Config, s: State, h: nat) returns (p: VirtualNode, at: nat)
    requires Valid(c, s) && s.nodes != {}
    ensures Successor(c, s.nodes, h, p) && Owner(s.virtuals, h) == Some(p.node)
    ensures at < |s.virtuals| && s.virtuals[at] == p
    ensures if p.hash >= h then forall j :: 0 <= j < at ==> s.virtuals[j].hash < h
            else at == 0 && forall j :: 0 <= j < |s.virtuals| ==> s.virtuals[j].hash < h
  {
    hide Valid, IsPoint, Placed, First;
    MembersHavePoints(c, s);
    var i := Position(s.virtuals, h);
    at := if i < |s.virtuals| then i else 0;
    p := s.virtuals[at];
    assert p in s.virtuals;
  }

  lemma EmptyOwnsNothing(c: Config, s: State, h: nat)
    requires Valid(c, s)
    ensures Owner(s.virtuals, h) == None <==> s.nodes == {}
  {
    ValidPoints(c, s);
    assert forall i :: 0 <= i < |s.virtuals| ==> s.virtuals[i] in s.virtuals;
    if s.nodes != {} {
      var p := OwnerIsSuccessor(c, s, h);
    }
  }

  // ----- history independence -----

  /** Two rings with the same members give the same owner where it is undisputed. */
  lemma SameOwner(c: Config, s: State, t: State, h: nat)
    requires Valid(c, s) && Valid(c, t) && s.nodes == t.nodes && Undisputed(c, s.nodes, h)
    ensures Owner(s.virtuals, h) == Owner(t.virtuals, h)
  {
    EmptyOwnsNothing(c, s, h);
    EmptyOwnsNothing(c, t, h);
    if s.nodes != {} {
      var p := OwnerIsSuccessor(c, s, h);
      var q := OwnerIsSuccessor(c, t, h);
    }
  }

  /** Two histories that end in the same members give every undisputed key the same owner. */
  lemma HistoryIndependent(c: Config, changes: seq<Change>, states: seq<State>,
                           changes': seq<Change>, states': seq<State>, key: string)
    requires History(c, changes, states) && History(c, changes', states')
    requires MembersAfter(changes) == MembersAfter(changes')
    requires Undisputed(c, MembersAfter(changes), c.hash(key))
    ensures LookupOf(c, states[|changes|], key) == LookupOf(c, states'[|changes'|], key)
  {
    HistoryValid(c, changes, states);
    HistoryValid(c, changes', states');
    SameOwner(c, states[|changes|], states'[|changes'|], c.hash(key));
  }

  function Swap(s: seq<VirtualNode>, i: nat, j: nat): (t: seq<VirtualNode>)
    requires i < |s| && j < |s|
    ensures |t| == |s| && t[i] == s[j] && multiset(t) == multiset(s)
    ensures forall k :: 0 <= k < |s| && k != i ==> t[k] == if k == j then s[i] else s[k]
  {
    s[i := s[j]][j := s[i]]
  }

  /** Points with the same hash can stand in either order. */
  lemma SwapTied(c: Config, s: State, i: nat, j: nat)
    requires Valid(c, s) && i < |s.virtuals| && j < |s.virtuals| && s.virtuals[i].hash == s.virtuals[j].hash
    ensures Valid(c, s.(virtuals := Swap(s.virtuals, i, j)))
  {
    SwapSorted(s.virtuals, i, j);
    hide Placed, Swap, Sorted;
    assert multiset(Swap(s.virtuals, i, j)) == multiset(s.virtuals);
  }

  lemma SwapSorted(s: seq<VirtualNode>, i: nat, j: nat)
    requires Sorted(s) && i < |s| && j < |s| && s[i].hash == s[j].hash
    ensures Sorted(Swap(s, i, j))
  {
    hide Swap;
    assert forall k :: 0 <= k < |s| ==> Swap(s, i, j)[k].hash == s[k].hash;
  }

  /** Whichever of the tied points stands first is the owner's. */
  lemma SwapOwner(s: seq<VirtualNode>, h: nat, i: nat, j: nat)
    requires i < |s| && j < |s| && s[i].hash == s[j].hash
    requires if s[i].hash >= h then forall k :: 0 <= k < i ==> s[k].hash < h
             else i == 0 && forall k :: 0 <= k < |s| ==> s[k].hash < h
    ensures Owner(Swap(s, i, j), h) == Some(s[j].node)
  {
    hide Swap;
    var t := Swap(s, i, j);
    assert forall k :: 0 <= k < |s| ==> t[k].hash == s[k].hash;
    FirstIs(t, h, if s[i].hash >= h then i else |s|);
  }

  lemma SuccessorsTie(c: Config, nodes: set<NodeId>, h: nat, p: VirtualNode, q: VirtualNode)
    requires Successor(c, nodes, h, p) && Successor(c, nodes, h, q)
    ensures p.hash == q.hash
  {
  }

  /** Where a position is disputed, some ring with the same points gives another owner. */
  lemma DisputedOwner(c: Config, s: State, h: nat) returns (t: State)
    requires Valid(c, s) && !Undisputed(c, s.nodes, h)
    ensures Valid(c, t) && t.nodes == s.nodes && Owner(t.virtuals, h) != Owner(s.virtuals, h)
  {
    var q, j := Rival(c, s, h);
    hide Successor, IsPoint, Placed, Valid, Owner, Swap;
    var p, at := OwnerIsFound(c, s, h);
    SuccessorsTie(c, s.nodes, h, p, q);
    SwapTied(c, s, at, j);
    SwapOwner(s.virtuals, h, at, j);
    t := State(Swap(s.virtuals, at, j), s.nodes);
  }

  /** Another node's point at the owner's position, and where it is kept. */
  lemma Rival(c: Config, s: State, h: nat) returns (q: VirtualNode, j: nat)
    requires Valid(c, s) && !Undisputed(c, s.nodes, h)
    ensures s.nodes != {} && Successor(c, s.nodes, h, q) && Owner(s.virtuals, h) != Some(q.node)
    ensures j < |s.virtuals| && s.virtuals[j] == q
  {
    hide Valid, Placed, Owner;
    ValidPoints(c, s);
    var a, b :| Successor(c, s.nodes, h, a) && Successor(c, s.nodes, h, b) && a.node != b.node;
    q := if Owner(s.virtuals, h) != Some(a.node) then a else b;
    assert q in s.virtuals;
    j :| 0 <= j < |s.virtuals| && s.virtuals[j] == q;
  }

  lemma RemovedThenAdded(c: Config, s: State, node: NodeId)
    requires Valid(c, s) && node in s.nodes
    ensures Added(c, Removed(s, node), node, s)
  {
    var t := Removed(s, node);
    assert s.nodes == t.nodes + {node};
    forall p
      ensures multiset(s.virtuals)[p] == multiset(t.virtuals + Placed(c, node))[p]
    {
      WithoutCounts(s.virtuals, node, p);
      assert p in Placed(c, node) ==> p.node == node;
    }
    assert multiset(s.virtuals) == multiset(t.virtuals + Placed(c, node));
  }

  /** Every arrangement of the members' points is the end of a history: the sort may leave ties in any order. */
  lemma {:induction false} ArrangementHasHistory(c: Config, s: State) returns (changes: seq<Change>, states: seq<State>)
    requires Valid(c, s)
    ensures History(c, changes, states) && states[|changes|] == s && MembersAfter(changes) == s.nodes
    decreases s.nodes
  {
    hide Valid, Added, Removed, Placed;
    if s.nodes == {} {
      NoMembers(c, s);
      changes, states := [], [s];
    } else {
      var n :| n in s.nodes;
      RemoveKeepsValid(c, s, n);
      RemovedThenAdded(c, s, n);
      var before, past := ArrangementHasHistory(c, Removed(s, n));
      changes, states := before + [Add(n)], past + [s];
      assert changes[..|before|] == before;
      forall k | 0 <= k < |changes|
        ensures Follows(c, states[k], changes[k], states[k + 1])
      {
        if k < |before| { assert Follows(c, past[k], before[k], past[k + 1]); }
      }
    }
  }

  lemma NoMembers(c: Config, s: State)
    requires Valid(c, s) && s.nodes == {}
    ensures s == State([], {}) && c.replicas > 0
  {
    EmptyOwnsNothing(c, s, 0);
    assert s.virtuals == [];
  }

  /** Every history that ends in the same members gives the key the same owner. */
  ghost predicate OwnerSettled(c: Config, nodes: set<NodeId>, key: string, owner: Option<NodeId>) {
    forall changes, states {:trigger History(c, changes, states)} ::
      History(c, changes, states) && MembersAfter(changes) == nodes ==> LookupOf(c, states[|changes|], key) == owner
  }

  /** A key's owner depends on the members alone, and not on the history, exactly when it is undisputed. */
  lemma OwnerDetermined(c: Config, changes: seq<Change>, states: seq<State>, key: string)
    requires History(c, changes, states)
    ensures Undisputed(c, MembersAfter(changes), c.hash(key)) <==>
            OwnerSettled(c, MembersAfter(changes), key, LookupOf(c, states[|changes|], key))
  {
    hide Undisputed, Valid;
    var s := states[|changes|];
    HistoryValid(c, changes, states);
    if Undisputed(c, s.nodes, c.hash(key)) {
      forall changes', states' | History(c, changes', states') && MembersAfter(changes') == s.nodes
        ensures LookupOf(c, states'[|changes'|], key) == LookupOf(c, s, key)
      {
        HistoryIndependent(c, changes', states', changes, states, key);
      }
    } else {
      var t := DisputedOwner(c, s, c.hash(key));
      var changes', states' := ArrangementHasHistory(c, t);
    }
  }

  // ----- minimal rebalancing -----

  lemma {:induction false} FirstWithout(s: seq<VirtualNode>, node: NodeId, h: nat)
    ensures First(s, h) == None ==> First(Without(s, node), h) == None
    ensures First(s, h).Some? && First(s, h).value.node != node ==> First(Without(s, node), h) == First(s, h)
    decreases |s|
  {
    if s != [] {
      var rest := s[..|s| - 1];
      FirstWithout(rest, node, h);
      var kept := Without(rest, node);
      assert (kept + [s[|s| - 1]])[..|kept|] == kept;
    }
  }

  lemma {:induction false} HeadWithout(s: seq<VirtualNode>, node: NodeId)
    requires s != [] && s[0].node != node
    ensures Without(s, node) != [] && Without(s, node)[0] == s[0]
    decreases |s|
  {
    if |s| > 1 { HeadWithout(s[..|s| - 1], node); }
  }

  /** Removal needs no assumption on ties: exactly the keys the node owned change owner. */
  lemma RemovalMovesOnlyItsKeys(c: Config, s: State, node: NodeId, key: string)
    requires Valid(c, s)
    ensures LookupOf(c, s, key) != LookupOf(c, Removed(s, node), key) <==> LookupOf(c, s, key) == Some(node)
    ensures LookupOf(c, Removed(s, node), key).Some? <==> s.nodes - {node} != {}
  {
    var h := c.hash(key);
    RemoveKeepsValid(c, s, node);
    EmptyOwnsNothing(c, s, h);
    EmptyOwnsNothing(c, Removed(s, node), h);
    if s.nodes - {node} != {} {
      var p := OwnerIsSuccessor(c, Removed(s, node), h);
      assert p.node != node;
    }
    if s.virtuals != [] {
      FirstWithout(s.virtuals, node, h);
      if s.virtuals[0].node != node { HeadWithout(s.virtuals, node); }
    }
    if s.nodes != {} {
      var q := OwnerIsSuccessor(c, s, h);
    }
  }

  /** Adding a node moves keys only to it, where the owner among the old members was undisputed. */
  lemma AddingMovesKeysOnlyToIt(c: Config, s: State, node: NodeId, after: State, key: string)
    requires Valid(c, s) && Added(c, s, node, after) && Undisputed(c, s.nodes, c.hash(key))
    ensures LookupOf(c, after, key) == LookupOf(c, s, key) || LookupOf(c, after, key) == Some(node)
  {
    if node !in s.nodes {
      AddKeepsValid(c, s, node, after);
      RemoveKeepsValid(c, after, node);
      assert after.nodes - {node} == s.nodes;
      SameOwner(c, Removed(after, node), s, c.hash(key));
      RemovalMovesOnlyItsKeys(c, after, node, key);
    }
  }

  /** Adding a node and removing it again gives every undisputed key back. */
  lemma AddThenRemove(c: Config, s: State, node: NodeId, after: State, key: string)
    requires Valid(c, s) && node !in s.nodes && Added(c, s, node, after) && Undisputed(c, s.nodes, c.hash(key))
    ensures LookupOf(c, Removed(after, node), key) == LookupOf(c, s, key)
  {
    AddKeepsValid(c, s, node, after);
    RemoveKeepsValid(c, after, node);
    assert after.nodes - {node} == s.nodes;
    SameOwner(c, Removed(after, node), s, c.hash(key));
  }

  /** The node a key changes to when a node is removed, if it changes to any. */
  function NewOwner(c: Config, s: State, from: NodeId, key: string): Option<NodeId> {
    var before, after := LookupOf(c, s, key), LookupOf(c, Removed(s, from), key);
    if before == after then None else after
  }

  /** A removal hands over exactly the keys of the removed node, to nodes that remain. */
  lemma HandsOverExactly(c: Config, s: State, from: NodeId, key: string)
    requires Valid(c, s)
    ensures NewOwner(c, s, from, key).Some? <==> LookupOf(c, s, key) == Some(from) && s.nodes - {from} != {}
    ensures NewOwner(c, s, from, key).Some? ==>
            && NewOwner(c, s, from, key) == LookupOf(c, Removed(s, from), key)
            && NewOwner(c, s, from, key).value in s.nodes - {from}
  {
    hide Valid, Owner, Without;
    RemovalMovesOnlyItsKeys(c, s, from, key);
    RemoveKeepsValid(c, s, from);
    if LookupOf(c, Removed(s, from), key).Some? { OwnersAreMembers(c, Removed(s, from), key); }
    if LookupOf(c, s, key).Some? { OwnersAreMembers(c, s, key); }
  }

  lemma OwnersAreMembers(c: Config, s: State, key: string)
    requires Valid(c, s) && LookupOf(c, s, key).Some?
    ensures LookupOf(c, s, key).value in s.nodes
  {
    hide Placed, First;
    EmptyOwnsNothing(c, s, c.hash(key));
    var p := OwnerIsSuccessor(c, s, c.hash(key));
  }

  // ----- the ring object -----

  lemma InsertSorted(s: seq<VirtualNode>, k: nat, p: VirtualNode)
    requires Sorted(s) && k <= |s|
    requires forall i :: 0 <= i < k ==> s[i].hash <= p.hash
    requires forall i :: k <= i < |s| ==> p.hash <= s[i].hash
    ensures Sorted(s[..k] + [p] + s[k..])
    ensures multiset(s[..k] + [p] + s[k..]) == multiset(s) + multiset{p}
  {
    assert s == s[..k] + s[k..];
  }

  lemma EmptySorted()
    ensures Sorted([])
  {
  }

  lemma BelowPrefix(s: seq<VirtualNode>, k: nat, h: nat)
    requires Sorted(s) && k <= |s| && (k > 0 ==> s[k - 1].hash <= h)
    ensures forall i :: 0 <= i < k ==> s[i].hash <= h
  {
  }

  method InsertByHash(s: seq<VirtualNode>, p: VirtualNode) returns (t: seq<VirtualNode>)
    requires Sorted(s)
    ensures Sorted(t) && multiset(t) == multiset(s) + multiset{p}
  {
    hide Sorted;
    var k := |s|;
    while k > 0 && s[k - 1].hash > p.hash
      invariant 0 <= k <= |s|
      invariant forall i :: k <= i < |s| ==> p.hash <= s[i].hash
    {
      k := k - 1;
    }
    BelowPrefix(s, k, p.hash);
    InsertSorted(s, k, p);
    t := s[..k] + [p] + s[k..];
  }

  /** Some sort by hash: its result is sorted and has the same elements; nothing more is relied on. */
  method SortByHash(s: seq<VirtualNode>) returns (t: seq<VirtualNode>)
    ensures Sorted(t) && multiset(t) == multiset(s)
  {
    hide Sorted;
    t := [];
    EmptySorted();
    var n := 0;
    while n < |s|
      invariant 0 <= n <= |s| && Sorted(t) && multiset(t) == multiset(s[..n])
    {
      assert s[..n + 1] == s[..n] + [s[n]];
      t := InsertByHash(t, s[n]);
      n := n + 1;
    }
    assert s[..n] == s;
  }

  /** The least index at which the hash is at or above h, by bisection. */
  method Search(s: seq<VirtualNode>, h: nat) returns (i: nat)
    requires Sorted(s)
    ensures i <= |s|
    ensures forall k :: 0 <= k < i ==> s[k].hash < h
    ensures forall k :: i <= k < |s| ==> s[k].hash >= h
  {
    i := 0;
    var j := |s|;
    while i < j
      invariant 0 <= i <= j <= |s|
      invariant forall k :: 0 <= k < i ==> s[k].hash < h
      invariant forall k :: j <= k < |s| ==> s[k].hash >= h
    {
      var m := (i + j) / 2;
      if s[m].hash < h { i := m + 1; } else { j := m; }
    }
  }

  method LookupIn(c: Config, s: seq<VirtualNode>, key: string) returns (node: string, found: bool)
    requires Sorted(s)
    ensures found == Owner(s, c.hash(key)).Some?
    ensures node == if found then Owner(s, c.hash(key)).value else ""
  {
    if |s| == 0 { return "", false; }
    var h := c.hash(key);
    var i := Search(s, h);
    FirstIs(s, h, i);
    if i >= |s| { i := 0; }
    return s[i].node, true;
  }

  /** Keeps what is not node's, within the one buffer. */
  method FilterInPlace(a: array<VirtualNode>, node: NodeId) returns (kept: nat)
    modifies a
    ensures kept <= a.Length && a[..kept] == Without(old(a[..]), node)
  {
    ghost var s := a[..];
    kept := 0;
    var i := 0;
    while i < a.Length
      invariant 0 <= kept <= i <= a.Length
      invariant a[i..] == s[i..] && a[..kept] == Without(s[..i], node)
    {
      assert a[i] == s[i] && s[..i + 1][..i] == s[..i];
      assert a[i + 1..] == a[i..][1..] && s[i + 1..] == s[i..][1..];
      if a[i].node != node {
        a[kept] := a[i];
        kept := kept + 1;
        assert a[..kept] == a[..kept - 1] + [s[i]];
      }
      i := i + 1;
    }
    assert s[..i] == s;
  }

  class HashRing {
    const config: Config
    var virtuals: seq<VirtualNode>
    var nodes: set<NodeId>

    ghost function Now(): State
      reads this
    {
      State(virtuals, nodes)
    }

    /** A non-positive option keeps the default number of virtual nodes. */
    constructor (hash: string -> nat, virtualNodes: int)
      ensures Valid(config, Now()) && Now() == State([], {}) && config.hash == hash
      ensures config.replicas == if virtualNodes > 0 then virtualNodes else DEFAULT_VIRTUAL_NODES
    {
      config := Config(hash, if virtualNodes > 0 then virtualNodes else DEFAULT_VIRTUAL_NODES);
      virtuals, nodes := [], {};
    }

    method AddNode(node: NodeId)
      requires Valid(config, Now())
      modifies this
      ensures Valid(config, Now()) && Added(config, old(Now()), node, Now())
    {
      if node in nodes { return; }
      ghost var before := Now();
      nodes := nodes + {node};
      var i := 0;
      while i < config.replicas
        invariant 0 <= i <= config.replicas
        invariant nodes == before.nodes + {node}
        invariant virtuals == before.virtuals + Placed(config, node)[..i]
      {
        var h := config.hash(node + "#" + Decimal.Itoa(i));
        virtuals := virtuals + [VirtualNode(h, node)];
        i := i + 1;
      }
      assert Placed(config, node)[..i] == Placed(config, node);
      virtuals := SortByHash(virtuals);
      AddKeepsValid(config, before, node, Now());
    }

    method RemoveNode(node: NodeId)
      requires Valid(config, Now())
      modifies this
      ensures Valid(config, Now()) && Now() == Removed(old(Now()), node)
    {
      RemoveKeepsValid(config, Now(), node);
      if node !in nodes { return; }
      nodes := nodes - {node};
      var held := virtuals;
      var filtered := new VirtualNode[|held|](i requires 0 <= i < |held| => held[i]);
      assert filtered[..] == held;
      var kept := FilterInPlace(filtered, node);
      virtuals := filtered[..kept];
    }

    method Lookup(key: string) returns (node: string, found: bool)
      requires Valid(config, Now())
      ensures found == LookupOf(config, Now(), key).Some? == (nodes != {})
      ensures node == if found then LookupOf(config, Now(), key).value else ""
      ensures found ==> exists p :: Successor(config, nodes, config.hash(key), p) && p.node == node
    {
      EmptyOwnsNothing(config, Now(), config.hash(key));
      node, found := LookupIn(config, virtuals, key);
      if found {
        ghost var p := OwnerIsSuccessor(config, Now(), config.hash(key));
      }
    }

    /** Who would take over which of the keys if the node left: the before/after difference of RemoveNode. */
    method MigrationKeys(keys: seq<string>, from: NodeId) returns (moves: map<string, NodeId>)
      requires Valid(config, Now())
      ensures forall k :: k in moves <==> k in keys && NewOwner(config, Now(), from, k).Some?
      ensures forall k :: k in moves ==> NewOwner(config, Now(), from, k) == Some(moves[k])
    {
      hide Valid, NewOwner;
      var sim := Simulate(from);
      moves := map[];
      var n := 0;
      while n < |keys|
        invariant 0 <= n <= |keys|
        invariant forall k :: k in moves <==> k in keys[..n] && NewOwner(config, Now(), from, k).Some?
        invariant forall k :: k in moves ==> NewOwner(config, Now(), from, k) == Some(moves[k])
      {
        var current, next, ok := BeforeAndAfter(sim, keys[n], from);
        if ok && current != next && current == from {
          moves := moves[keys[n] := next];
        }
        n := n + 1;
      }
      assert keys[..n] == keys;
    }

    method BeforeAndAfter(sim: seq<VirtualNode>, key: string, ghost from: NodeId)
      returns (current: string, next: string, ok: bool)
      requires Valid(config, Now()) && sim == Without(virtuals, from)
      ensures NewOwner(config, Now(), from, key)
              == if ok && current != next && current == from then Some(next) else None
    {
      SimulatesRemoval(config, Now(), from);
      RemovalMovesOnlyItsKeys(config, Now(), from, key);
      var held;
      current, held := LookupIn(config, virtuals, key);
      next, ok := LookupIn(config, sim, key);
    }

    /** The virtual nodes that would be left without a node. */
    method Simulate(from: NodeId) returns (sim: seq<VirtualNode>)
      ensures sim == Without(virtuals, from)
    {
      sim := [];
      var i := 0;
      while i < |virtuals|
        invariant 0 <= i <= |virtuals| && sim == Without(virtuals[..i], from)
      {
        assert virtuals[..i + 1][..i] == virtuals[..i];
        if virtuals[i].node != from { sim := sim + [virtuals[i]]; }
        i := i + 1;
      }
      assert virtuals[..i] == virtuals;
    }
  }

  /** Filtering out a node that is not a member changes nothing. */
  lemma SimulatesRemoval(c: Config, s: State, node: NodeId)
    requires Valid(c, s)
    ensures Sorted(Without(s.virtuals, node)) && Without(s.virtuals, node) == Removed(s, node).virtuals
  {
    WithoutSorted(s.virtuals, node);
    if node !in s.nodes {
      ValidPoints(c, s);
      assert forall i :: 0 <= i < |s.virtuals| ==> s.virtuals[i] in s.virtuals;
      NothingToFilter(s.virtuals, node);
    }
  }

  lemma {:induction false} NothingToFilter(s: seq<VirtualNode>, node: NodeId)
    requires forall i :: 0 <= i < |s| ==> s[i].node != node
    ensures Without(s, node) == s
    decreases |s|
  {
    if s != [] {
      NothingToFilter(s[..|s| - 1], node);
      assert s == s[..|s| - 1] + [s[|s| - 1]];
    }
  }
}
