/** Byte-wise string order and sorting, as sort.Strings uses them. */
module Text {
  /** s sorts strictly before t. */
  predicate Before(s: string, t: string) {
    if t == "" then false
    else if s == "" then true
    else s[0] < t[0] || (s[0] == t[0] && Before(s[1..], t[1..]))
  }

  lemma {:induction false} BeforeTotal(s: string, t: string)
    ensures s == t || Before(s, t) || Before(t, s)
    ensures !(Before(s, t) && Before(t, s)) && !Before(s, s)
    decreases |s|
  {
    if s != "" && t != "" {
      BeforeTotal(s[1..], t[1..]);
      if s[0] == t[0] && s[1..] == t[1..] {
        assert s == [s[0]] + s[1..] == [t[0]] + t[1..] == t;
      }
    }
    if s != "" { BeforeTotal(s[1..], s[1..]); }
  }

  lemma {:induction false} BeforeTransitive(s: string, t: string, u: string)
    requires Before(s, t) && Before(t, u)
    ensures Before(s, u)
    decreases |s|
  {
    if s != "" && s[0] == t[0] == u[0] {
      BeforeTransitive(s[1..], t[1..], u[1..]);
    }
  }

  predicate Sorted(names: seq<string>) {
    forall i, j :: 0 <= i < j < |names| ==> Before(names[i], names[j])
  }

  /** A strictly sorted listing of a set is unique. */
  lemma {:induction false} SortedUnique(a: seq<string>, b: seq<string>)
    requires Sorted(a) && Sorted(b)
    requires forall x :: x in a <==> x in b
    ensures a == b
    decreases |a|
  {
    if a == [] {
      assert forall i :: 0 <= i < |b| ==> b[i] in b;
    } else {
      assert a[0] in b && b[0] in a;
      var j :| 0 <= j < |b| && b[j] == a[0];
      var i :| 0 <= i < |a| && a[i] == b[0];
      BeforeTotal(a[0], b[0]);
      assert a[0] == b[0];
      forall x
        ensures x in a[1..] <==> x in b[1..]
      {
        TailMembers(a, x);
        TailMembers(b, x);
      }
      SortedUnique(a[1..], b[1..]);
      assert a == [a[0]] + a[1..] && b == [b[0]] + b[1..];
    }
  }

  lemma TailMembers(a: seq<string>, x: string)
    requires a != [] && Sorted(a)
    ensures x in a[1..] <==> x in a && x != a[0]
  {
    BeforeTotal(a[0], a[0]);
    if x in a && x != a[0] {
      var i :| 0 <= i < |a| && a[i] == x;
      assert a[1..][i - 1] == x;
    }
  }

  lemma {:induction false} SortedSize(ids: seq<string>, keys: set<string>)
    requires Sorted(ids) && forall x :: x in ids <==> x in keys
    ensures |ids| == |keys|
    decreases |ids|
  {
    if ids == [] {
      assert keys == {};
    } else {
      forall x
        ensures x in ids[1..] <==> x in keys - {ids[0]}
      {
        TailMembers(ids, x);
      }
      assert ids[0] in keys;
      SortedSize(ids[1..], keys - {ids[0]});
    }
  }

  /** The names of a list without repetitions are as many as its entries. */
  lemma {:induction false} ListSize(names: seq<string>)
    requires forall i, j :: 0 <= i < j < |names| ==> names[i] != names[j]
    ensures |set x | x in names| == |names|
    decreases |names|
  {
    if names != [] {
      var n := |names| - 1;
      ListSize(names[..n]);
      assert names == names[..n] + [names[n]];
      assert names[n] !in names[..n];
      assert (set x | x in names) == (set x | x in names[..n]) + {names[n]};
    }
  }

  /** Inserts a new name into a sorted list. */
  method Insert(names: seq<string>, name: string) returns (r: seq<string>)
    requires Sorted(names) && name !in names
    ensures Sorted(r)
    ensures forall x :: x in r <==> x in names || x == name
  {
    hide Before;
    var i := 0;
    while i < |names| && Before(names[i], name)
      invariant 0 <= i <= |names|
      invariant forall j :: 0 <= j < i ==> Before(names[j], name)
    {
      i := i + 1;
    }
    r := names[..i] + [name] + names[i..];
    forall j | i <= j < |names|
      ensures Before(name, names[j])
    {
      BeforeTotal(name, names[i]);
      if i < j { BeforeTransitive(name, names[i], names[j]); }
    }
    assert names == names[..i] + names[i..];
    forall x
      ensures x in r <==> x in names || x == name
    {
    }
  }

  /** Lists a set of names in sorted order. */
  method SortNames(names: set<string>) returns (r: seq<string>)
    ensures Sorted(r) && forall x :: x in r <==> x in names
  {
    r := [];
    var left := names;
    while left != {}
      invariant left <= names && Sorted(r)
      invariant forall x :: x in r <==> x in names - left
      decreases |left|
    {
      var name :| name in left;
      r := Insert(r, name);
      left := left - {name};
    }
  }

  /** In order, repetitions allowed. */
  predicate InOrder(names: seq<string>) {
    forall i, j :: 0 <= i < j < |names| ==> !Before(names[j], names[i])
  }

  lemma InsertInOrder(names: seq<string>, i: nat, name: string)
    requires InOrder(names) && i <= |names|
    requires forall j :: 0 <= j < i ==> !Before(name, names[j])
    requires forall j :: i <= j < |names| ==> !Before(names[j], name)
    ensures InOrder(names[..i] + [name] + names[i..])
    ensures multiset(names[..i] + [name] + names[i..]) == multiset(names) + multiset{name}
  {
    hide Before;
    assert names == names[..i] + names[i..];
  }

  /** !Before is transitive, as Before is total. */
  lemma NotBefore(a: string, b: string, c: string)
    requires !Before(b, a) && !Before(c, b)
    ensures !Before(c, a)
  {
    BeforeTotal(a, b);
    BeforeTotal(b, c);
    if Before(c, a) {
      if a == b || b == c {
      } else {
        BeforeTransitive(c, a, b);
      }
    }
  }

  /** Sorts a list of names, keeping repetitions. */
  method SortList(names: seq<string>) returns (r: seq<string>)
    ensures InOrder(r) && multiset(r) == multiset(names)
  {
    hide Before;
    r := [];
    var n := 0;
    while n < |names|
      invariant 0 <= n <= |names| && InOrder(r) && multiset(r) == multiset(names[..n])
    {
      var i := |r|;
      BeforeTotal(names[n], names[n]);
      while i > 0 && Before(names[n], r[i - 1])
        invariant 0 <= i <= |r|
        invariant forall j :: i <= j < |r| ==> !Before(r[j], names[n])
      {
        BeforeTotal(names[n], r[i - 1]);
        i := i - 1;
      }
      forall j | 0 <= j < i
        ensures !Before(names[n], r[j])
      {
        if j < i - 1 { NotBefore(r[j], r[i - 1], names[n]); }
      }
      assert names[..n + 1] == names[..n] + [names[n]];
      InsertInOrder(r, i, names[n]);
      r := r[..i] + [names[n]] + r[i..];
      n := n + 1;
    }
    assert names[..n] == names;
  }
}
