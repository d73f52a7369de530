/**
 The solver front end (internal/z3/z3.go): the program handed to Z3, and the decision cache around it.
 Z3 and the parser of its output are any functions of the text they are given.
 */
module CachedSolver {
  import opened Wrappers
  import opened DecisionCache
  import Text

  // ----- the SMT-LIB program -----

  /** A value of the model map: a sort name, or a Go value whose type gives the sort. */
  datatype Hint = Name(text: string) | Boolean | Integer | Floating | Other

  predicate HasPrefix(s: string, prefix: string) {
    |prefix| <= |s| && s[..|prefix|] == prefix
  }

  /** s cut at its first '_', if it has one. */
  function Cut(s: string): Option<(string, string)> {
    if s == "" then None
    else if s[0] == '_' then Some(("", s[1..]))
    else match Cut(s[1..])
      case None => None
      case Some((head, tail)) => Some(([s[0]] + head, tail))
  }

  function InferSort(hint: Hint): string {
    match hint
    case Name(x) =>
      if HasPrefix(x, "BitVec_") then "(_ BitVec " + x[7..] + ")"
      else if HasPrefix(x, "Array_") && Cut(x[6..]).Some? then
        var (key, value) := Cut(x[6..]).value;
        "(Array " + key + " " + value + ")"
      else if x != "" then x
      else "Int"
    case Boolean => "Bool"
    case Integer => "Int"
    case Floating => "Real"
    case Other => "Int"
  }

  predicate Contains(s: string, part: string) {
    HasPrefix(s, part) || (s != "" && Contains(s[1..], part))
  }

  function Declarations(model: map<string, Hint>, names: seq<string>): string
    requires forall x :: x in names ==> x in model
  {
    if names == [] then ""
    else
      var name := names[|names| - 1];
      Declarations(model, names[..|names| - 1])
      + "(declare-const " + name + " " + InferSort(model[name]) + ")\n"
  }

  function Assemble(constraints: string, declarations: string): string {
    var cores := Contains(constraints, ":named");
    (if cores then "(set-option :produce-unsat-cores true)\n" else "")
    + declarations + constraints + "\n(check-sat)\n(get-model)\n"
    + (if cores then "(get-unsat-core)\n" else "") + "(exit)\n"
  }

  /** The program for these constraints: every name of the model declared once, in sorted order. */
  ghost predicate IsProgram(constraints: string, model: map<string, Hint>, smt2: string) {
    exists names ::
      && Text.Sorted(names) && (forall x :: x in names <==> x in model)
      && smt2 == Assemble(constraints, Declarations(model, names))
  }

  // ----- what the program says -----

  function Flatten(pieces: seq<string>): string {
    if pieces == [] then "" else Flatten(pieces[..|pieces| - 1]) + pieces[|pieces| - 1]
  }

  ghost predicate Occurs(part: string, s: string) {
    exists before, after :: s == before + part + after
  }

  lemma {:induction false} ContainsExactly(s: string, part: string)
    ensures Contains(s, part) <==> Occurs(part, s)
    decreases |s|
  {
    if HasPrefix(s, part) {
      assert s == "" + part + s[|part|..];
    } else if s == "" {
      forall before, after
        ensures s != before + part + after
      {
        assert |before + part + after| == |before| + |part| + |after|;
      }
    } else {
      ContainsExactly(s[1..], part);
      OccursLater(s, part);
    }
  }

  lemma OccursLater(s: string, part: string)
    requires s != "" && !HasPrefix(s, part)
    ensures Occurs(part, s) <==> Occurs(part, s[1..])
  {
    if Occurs(part, s) {
      var before, after :| s == before + part + after;
      assert s[|before|..|before| + |part|] == part;
      assert s[1..] == before[1..] + part + after;
    }
    if Occurs(part, s[1..]) {
      var before, after :| s[1..] == before + part + after;
      assert s == [s[0]] + s[1..] == ([s[0]] + before) + part + after;
    }
  }

  lemma {:induction false} DeclarationsInOrder(model: map<string, Hint>, names: seq<string>)
    returns (lines: seq<string>)
    requires forall x :: x in names ==> x in model
    ensures |lines| == |names| && Flatten(lines) == Declarations(model, names)
    ensures forall k :: 0 <= k < |names| ==>
              lines[k] == "(declare-const " + names[k] + " " + InferSort(model[names[k]]) + ")\n"
    decreases |names|
  {
    hide InferSort;
    lines := [];
    if names != [] {
      var n := |names| - 1;
      var before := DeclarationsInOrder(model, names[..n]);
      var last := "(declare-const " + names[n] + " " + InferSort(model[names[n]]) + ")\n";
      lines := before + [last];
      assert lines[..n] == before;
      assert Flatten(before) + "(declare-const " + names[n] + " " + InferSort(model[names[n]]) + ")\n"
             == Flatten(before) + last;
    }
  }

  /**
   The program states the whole query and nothing else: the option for cores exactly when an assertion is named,
   one declaration for each name of the model, in order and with its sort, then exactly the constraints, and only
   then the commands that ask.
   */
  lemma ProgramStatesQuery(constraints: string, model: map<string, Hint>, smt2: string)
    returns (names: seq<string>, lines: seq<string>)
    requires IsProgram(constraints, model, smt2)
    ensures Text.Sorted(names) && |lines| == |names| && forall x :: x in names <==> x in model
    ensures forall k :: 0 <= k < |names| ==>
              lines[k] == "(declare-const " + names[k] + " " + InferSort(model[names[k]]) + ")\n"
    ensures smt2 == if Occurs(":named", constraints)
                    then "(set-option :produce-unsat-cores true)\n" + Flatten(lines) + constraints
                         + ("\n(check-sat)\n(get-model)\n" + "(get-unsat-core)\n" + "(exit)\n")
                    else Flatten(lines) + constraints + ("\n(check-sat)\n(get-model)\n" + "(exit)\n")
  {
    hide InferSort, Contains, Occurs, Declarations, Text.Sorted, Flatten;
    names :| Text.Sorted(names) && (forall x :: x in names <==> x in model)
             && smt2 == Assemble(constraints, Declarations(model, names));
    lines := DeclarationsInOrder(model, names);
    ContainsExactly(constraints, ":named");
    AssembledText(constraints, Flatten(lines));
  }

  lemma AssembledText(constraints: string, declarations: string)
    ensures Assemble(constraints, declarations)
            == if Contains(constraints, ":named")
               then "(set-option :produce-unsat-cores true)\n" + declarations + constraints
                    + ("\n(check-sat)\n(get-model)\n" + "(get-unsat-core)\n" + "(exit)\n")
               else declarations + constraints + ("\n(check-sat)\n(get-model)\n" + "(exit)\n")
  {
    hide Contains;
    if Contains(constraints, ":named") {
      Regroup("(set-option :produce-unsat-cores true)\n" + declarations + constraints,
              "\n(check-sat)\n(get-model)\n", "(get-unsat-core)\n", "(exit)\n");
    } else {
      Regroup("" + declarations + constraints, "\n(check-sat)\n(get-model)\n", "", "(exit)\n");
      NothingAdded(declarations, "\n(check-sat)\n(get-model)\n");
    }
  }

  lemma Regroup(head: string, a: string, b: string, c: string)
    ensures head + a + b + c == head + (a + b + c)
  {
  }

  lemma NothingAdded(a: string, b: string)
    ensures "" + a == a && b + "" == b
  {
  }

  /** Over one model, the program determines the constraints: two queries never share a text. */
  lemma QueryDetermined(a: string, b: string, model: map<string, Hint>, smt2: string)
    requires IsProgram(a, model, smt2) && IsProgram(b, model, smt2)
    ensures a == b
  {
    hide Contains, Declarations, Text.Sorted;
    var m :| Text.Sorted(m) && (forall x :: x in m <==> x in model) && smt2 == Assemble(a, Declarations(model, m));
    var n :| Text.Sorted(n) && (forall x :: x in n <==> x in model) && smt2 == Assemble(b, Declarations(model, n));
    Text.SortedUnique(m, n);
    ConstraintsDetermined(a, b, Declarations(model, m));
  }

  /** The end of a program tells whether it asks for a core. */
  lemma AssembledEnd(c: string, d: string)
    ensures |Assemble(c, d)| >= 10
    ensures Assemble(c, d)[|Assemble(c, d)| - 10] == if Contains(c, ":named") then 'e' else 'l'
  {
    hide Contains;
    AssembledText(c, d);
  }

  lemma ConstraintsDetermined(a: string, b: string, d: string)
    requires Assemble(a, d) == Assemble(b, d)
    ensures a == b
  {
    hide Contains;
    AssembledEnd(a, d);
    AssembledEnd(b, d);
    AssembledText(a, d);
    AssembledText(b, d);
    if Contains(a, ":named") {
      Between("(set-option :produce-unsat-cores true)\n" + d, a, b,
              "\n(check-sat)\n(get-model)\n" + "(get-unsat-core)\n" + "(exit)\n");
    } else {
      Between(d, a, b, "\n(check-sat)\n(get-model)\n" + "(exit)\n");
    }
  }

  lemma Between(prefix: string, a: string, b: string, suffix: string)
    requires prefix + a + suffix == prefix + b + suffix
    ensures a == b
  {
    var s, n := prefix + a + suffix, |prefix|;
    assert |a| == |b|;
    assert a == s[n..n + |a|] == b;
  }

  /** The sort of a name: bit-vectors and arrays by their prefixes, other names as they are, else by the value. */
  lemma SortsByHint(x: string, key: string)
    ensures InferSort(Name("BitVec_" + x)) == "(_ BitVec " + x + ")"
    ensures '_' !in key ==> InferSort(Name("Array_" + key + "_" + x)) == "(Array " + key + " " + x + ")"
    ensures '_' !in key ==> InferSort(Name("Array_" + key)) == "Array_" + key
    ensures x != "" && !HasPrefix(x, "BitVec_") && !HasPrefix(x, "Array_") ==> InferSort(Name(x)) == x
    ensures InferSort(Name("")) == "Int" && InferSort(Boolean) == "Bool" && InferSort(Floating) == "Real"
    ensures InferSort(Integer) == InferSort(Other) == "Int"
  {
    SortOfBitVec(x);
    if '_' !in key { SortOfArray(key, x); }
  }

  lemma SortOfBitVec(x: string)
    ensures InferSort(Name("BitVec_" + x)) == "(_ BitVec " + x + ")"
  {
    var s := "BitVec_" + x;
    assert s[..7] == "BitVec_" && s[7..] == x;
  }

  lemma SortOfArray(key: string, x: string)
    requires '_' !in key
    ensures InferSort(Name("Array_" + key + "_" + x)) == "(Array " + key + " " + x + ")"
    ensures InferSort(Name("Array_" + key)) == "Array_" + key
  {
    var s, t := "Array_" + key + "_" + x, "Array_" + key;
    assert s[..6] == "Array_" && s[6..] == key + "_" + x && s[0] == 'A';
    assert t[..6] == "Array_" && t[6..] == key && t[0] == 'A';
    CutsAtFirst(key, x);
  }

  lemma {:induction false} CutsAtFirst(key: string, x: string)
    requires '_' !in key
    ensures Cut(key + "_" + x) == Some((key, x)) && Cut(key) == None
    decreases |key|
  {
    var s := key + "_" + x;
    if key == "" {
      assert s[0] == '_' && s[1..] == x;
    } else {
      assert s[0] == key[0] && s[1..] == key[1..] + "_" + x;
      CutsAtFirst(key[1..], x);
      assert [key[0]] + key[1..] == key;
    }
  }

  /** The program, and so the key of the cache, does not depend on the order in which the map is visited. */
  lemma ProgramUnique(constraints: string, model: map<string, Hint>, a: string, b: string)
    requires IsProgram(constraints, model, a) && IsProgram(constraints, model, b)
    ensures a == b
  {
    var m :| Text.Sorted(m) && (forall x :: x in m <==> x in model)
             && a == Assemble(constraints, Declarations(model, m));
    var n :| Text.Sorted(n) && (forall x :: x in n <==> x in model)
             && b == Assemble(constraints, Declarations(model, n));
    Text.SortedUnique(m, n);
  }

  method BuildSMT2(constraints: string, model: map<string, Hint>) returns (smt2: string)
    ensures IsProgram(constraints, model, smt2)
  {
    hide InferSort, Contains, Assemble;
    var names := Text.SortNames(model.Keys);
    var declarations := "";
    var k := 0;
    while k < |names|
      invariant 0 <= k <= |names|
      invariant declarations == Declarations(model, names[..k])
    {
      assert names[..k + 1][..k] == names[..k];
      declarations := declarations + "(declare-const " + names[k] + " " + InferSort(model[names[k]]) + ")\n";
      k := k + 1;
    }
    assert names[..k] == names;
    smt2 := Assemble(constraints, declarations);
  }

  // ----- answers -----

  datatype Decision = Decision(sat: bool, model: map<string, string>, unsatCore: seq<string>)

  /** A decision, or one of the results that are never cached: unknown, or an error. */
  datatype Answer = Decided(decision: Decision) | Unknown | Failed

  /** A finished Z3 process: whether it exited cleanly, and what it printed. */
  datatype Process = Process(exitOk: bool, stdout: string)

  datatype Backend = Backend(z3: string -> Process, parse: string -> Answer, hash: string -> string)

  /** What Z3 says about a program, with no cache involved. */
  function Direct(b: Backend, smt2: string): Answer {
    var p := b.z3(smt2);
    if !p.exitOk && p.stdout == "" then Failed else b.parse(p.stdout)
  }

  /** Output counts however Z3 exited, since it also fails on the command that does not fit the verdict; only silence
   with a failed exit is an error of its own. */
  lemma OutputDecides(b: Backend, smt2: string)
    ensures b.z3(smt2).exitOk || b.z3(smt2).stdout != "" ==> Direct(b, smt2) == b.parse(b.z3(smt2).stdout)
    ensures !b.z3(smt2).exitOk && b.z3(smt2).stdout == "" ==> Direct(b, smt2) == Failed
  {
  }

  datatype Deadline = Met | PassedBefore | PassedDuring

  datatype Query = Query(smt2: string, deadline: Deadline)

  /** The lookup of a query: the cache after it, and the answer if there is one without Z3. */
  function Looked(s: State<Decision>, b: Backend, q: Query): (State<Decision>, Option<Answer>) {
    if q.deadline.PassedBefore? then (s, Some(Unknown))
    else
      var (got, found) := Get(s, b.hash(q.smt2));
      (got, if found.Some? then Some(Decided(found.value)) else None)
  }

  /** The end of a query that went to Z3: the cache after it, and the answer. */
  function Solved(s: State<Decision>, capacity: nat, b: Backend, q: Query): (State<Decision>, Answer) {
    if q.deadline.PassedDuring? then (s, Unknown)
    else
      var a := Direct(b, q.smt2);
      (if a.Decided? then Set(s, capacity, b.hash(q.smt2), a.decision) else s, a)
  }

  /** One query that no other interrupts. */
  function Serve(s: State<Decision>, capacity: nat, b: Backend, q: Query): (State<Decision>, Answer) {
    var (got, answer) := Looked(s, b, q);
    if answer.Some? then (got, answer.value) else Solved(got, capacity, b, q)
  }

  // ----- queries that interleave -----

  /** A query that has been looked up, and its answer once it has one. */
  datatype Job = Job(query: Query, answer: Option<Answer>)

  datatype Session = Session(cache: State<Decision>, jobs: seq<Job>)

  /** The cache is locked for a lookup and again for storing a decision, not in between. */
  datatype Move = Look(query: Query) | Finish(job: nat)

  function Moved(s: Session, capacity: nat, b: Backend, m: Move): Session {
    match m
    case Look(q) =>
      var (cache, answer) := Looked(s.cache, b, q);
      Session(cache, s.jobs + [Job(q, answer)])
    case Finish(k) =>
      if k < |s.jobs| && s.jobs[k].answer.None? then
        var (cache, answer) := Solved(s.cache, capacity, b, s.jobs[k].query);
        Session(cache, s.jobs[k := Job(s.jobs[k].query, Some(answer))])
      else s
  }

  function Play(capacity: nat, b: Backend, moves: seq<Move>): Session
    decreases |moves|
  {
    if moves == [] then Session(State([], 0, 0, 0), [])
    else Moved(Play(capacity, b, moves[..|moves| - 1]), capacity, b, moves[|moves| - 1])
  }

  /** A query whose two moves follow each other is served as one. */
  lemma ServedAtOnce(s: Session, capacity: nat, b: Backend, q: Query)
    ensures var (cache, answer) := Serve(s.cache, capacity, b, q);
            Moved(Moved(s, capacity, b, Look(q)), capacity, b, Finish(|s.jobs|))
            == Session(cache, s.jobs + [Job(q, Some(answer))])
  {
    hide Get, Set, Direct;
  }

  // ----- the cache is transparent -----

  /** A text that BuildSMT2 can produce. */
  ghost predicate Buildable(smt2: string) {
    exists constraints, model :: IsProgram(constraints, model, smt2)
  }

  ghost predicate AllBuildable(moves: seq<Move>) {
    forall k :: 0 <= k < |moves| && moves[k].Look? ==> Buildable(moves[k].query.smt2)
  }

  /** Programs with one hash have one answer, if any of them is decided. */
  ghost predicate Separates(b: Backend) {
    forall p, q :: Buildable(p) && Buildable(q) && b.hash(p) == b.hash(q) && Direct(b, p).Decided? ==>
      Direct(b, q) == Direct(b, p)
  }

  lemma InjectiveSeparates(b: Backend)
    requires forall p, q :: Buildable(p) && Buildable(q) && b.hash(p) == b.hash(q) ==> p == q
    ensures Separates(b)
  {
  }

  /** Every held decision is what Z3 would say. */
  ghost predicate Faithful(s: State<Decision>, b: Backend) {
    forall p :: Buildable(p) && Find(s.entries, b.hash(p)).Some? ==>
      Direct(b, p) == Decided(Find(s.entries, b.hash(p)).value)
  }

  lemma GetKeeps<V>(s: State<V>, hash: string, other: string)
    ensures Find(Get(s, hash).0.entries, other) == Find(s.entries, other)
  {
    var found := Find(s.entries, hash);
    if found.Some? {
      ConsFinds(Entry(hash, found.value), Drop(s.entries, hash), other);
      DropFinds(s.entries, hash, other);
    }
  }

  lemma SetFinds<V>(s: State<V>, capacity: nat, hash: string, d: V, other: string)
    requires capacity > 0
    ensures var found := Find(Set(s, capacity, hash, d).entries, other);
            if other == hash then found == Some(d) else found.None? || found == Find(s.entries, other)
  {
    var e := Entry(hash, d);
    ConsFinds(e, s.entries, other);
    ConsFinds(e, Drop(s.entries, hash), other);
    DropFinds(s.entries, hash, other);
    TakeFinds([e] + s.entries, capacity, other);
    TakeCons(capacity, e, s.entries);
  }

  lemma LookIsFaithful(s: State<Decision>, b: Backend, q: Query)
    requires Faithful(s, b) && Buildable(q.smt2)
    ensures Faithful(Looked(s, b, q).0, b)
    ensures !q.deadline.PassedBefore? && Looked(s, b, q).1.Some? ==> Looked(s, b, q).1 == Some(Direct(b, q.smt2))
    ensures q.deadline.PassedBefore? ==> Looked(s, b, q) == (s, Some(Unknown))
  {
    hide Find, Get, Direct, Buildable;
    var h := b.hash(q.smt2);
    forall p
      ensures Find(Get(s, h).0.entries, b.hash(p)) == Find(s.entries, b.hash(p))
    {
      GetKeeps(s, h, b.hash(p));
    }
    GetFinds(s, h);
  }

  lemma SolvingIsFaithful(s: State<Decision>, capacity: nat, b: Backend, q: Query)
    requires Faithful(s, b) && (capacity == 0 || Separates(b)) && Buildable(q.smt2)
    ensures Faithful(Solved(s, capacity, b, q).0, b)
    ensures q.deadline.Met? ==> Solved(s, capacity, b, q).1 == Direct(b, q.smt2)
    ensures q.deadline.PassedDuring? ==> Solved(s, capacity, b, q) == (s, Unknown)
  {
    hide Find, Set, Direct, Buildable;
    var h := b.hash(q.smt2);
    if capacity == 0 {
      SetNothing(s, h);
    } else if Direct(b, q.smt2).Decided? {
      var d := Direct(b, q.smt2).decision;
      forall p | Buildable(p)
        ensures var found := Find(Set(s, capacity, h, d).entries, b.hash(p));
                found.Some? ==> Direct(b, p) == Decided(found.value)
      {
        SetFinds(s, capacity, h, d, b.hash(p));
      }
    }
  }

  lemma GetFinds<V>(s: State<V>, hash: string)
    ensures Get(s, hash).1 == Find(s.entries, hash)
  {
  }

  lemma SetNothing<V>(s: State<V>, hash: string)
    ensures forall d :: Set(s, 0, hash, d) == s
  {
  }

  /**
   An answer in time is the one Z3 would give. A query that was late from the start is unknown; one that became late
   is unknown too, unless the cache held the answer of Z3.
   */
  ghost predicate RightJob(b: Backend, j: Job) {
    var direct := Direct(b, j.query.smt2);
    match j.query.deadline
    case Met => j.answer.Some? ==> j.answer.value == direct
    case PassedBefore => j.answer == Some(Unknown)
    case PassedDuring => j.answer.Some? ==> j.answer.value == Unknown || j.answer.value == direct
  }

  ghost predicate Right(s: Session, b: Backend) {
    forall k :: 0 <= k < |s.jobs| ==> RightJob(b, s.jobs[k])
  }

  ghost predicate Buildables(s: Session) {
    forall k :: 0 <= k < |s.jobs| ==> Buildable(s.jobs[k].query.smt2)
  }

  /** However lookups and stores interleave, the cache holds only what Z3 says, and so do the answers. */
  lemma {:induction false} PlaysFaithfully(capacity: nat, b: Backend, moves: seq<Move>)
    requires (capacity == 0 || Separates(b)) && AllBuildable(moves)
    ensures var s := Play(capacity, b, moves); Faithful(s.cache, b) && Right(s, b) && Buildables(s)
    decreases |moves|
  {
    hide Buildable, Direct, Looked, Solved, Separates, Find;
    if moves == [] {
      EmptyIsFaithful(b);
    } else {
      var n := |moves| - 1;
      PlaysFaithfully(capacity, b, moves[..n]);
      var s := Play(capacity, b, moves[..n]);
      match moves[n]
      case Look(q) => LookIsFaithful(s.cache, b, q);
      case Finish(k) =>
        if k < |s.jobs| && s.jobs[k].answer.None? { SolvingIsFaithful(s.cache, capacity, b, s.jobs[k].query); }
    }
  }

  lemma EmptyIsFaithful(b: Backend)
    ensures Faithful(State([], 0, 0, 0), b)
  {
  }

  /**
   The cache changes no answer, over any interleaving of queries with any deadlines passed in between, exactly
   when it is disabled or the hash never joins a decided program with one that Z3 answers differently.
   */
  lemma CacheIsTransparent(capacity: nat, b: Backend)
    ensures (forall moves :: AllBuildable(moves) ==> Right(Play(capacity, b, moves), b))
            <==> capacity == 0 || Separates(b)
  {
    hide Buildable, Right, Play;
    if capacity == 0 || Separates(b) {
      forall moves | AllBuildable(moves)
        ensures Right(Play(capacity, b, moves), b)
      {
        PlaysFaithfully(capacity, b, moves);
      }
    } else {
      var p, q :| Buildable(p) && Buildable(q) && b.hash(p) == b.hash(q)
                  && Direct(b, p).Decided? && Direct(b, q) != Direct(b, p);
      assert AllBuildable([Look(Query(p, Met)), Finish(0), Look(Query(q, Met))]);
      Collision(capacity, b, p, q);
    }
  }

  lemma Collision(capacity: nat, b: Backend, p: string, q: string)
    requires capacity > 0 && b.hash(p) == b.hash(q) && Direct(b, p).Decided? && Direct(b, q) != Direct(b, p)
    ensures !Right(Play(capacity, b, [Look(Query(p, Met)), Finish(0), Look(Query(q, Met))]), b)
  {
    hide Set, Direct;
    var moves := [Look(Query(p, Met)), Finish(0), Look(Query(q, Met))];
    var empty: State<Decision> := State([], 0, 0, 0);
    var s1 := Session(empty.(misses := 1), [Job(Query(p, Met), None)]);
    var s2 := Session(Set(s1.cache, capacity, b.hash(p), Direct(b, p).decision),
                      [Job(Query(p, Met), Some(Direct(b, p)))]);
    assert moves[..1][..0] == [] && moves[..2][..1] == moves[..1] && moves[..3] == moves;
    assert Play(capacity, b, moves[..1]) == s1;
    assert Play(capacity, b, moves[..2]) == s2;
    SetFinds(s1.cache, capacity, b.hash(p), Direct(b, p).decision, b.hash(q));
    assert Play(capacity, b, moves).jobs[1] == Job(Query(q, Met), Some(Direct(b, p)));
  }

  // ----- the solver object -----

  class Solver {
    const backend: Backend
    const cache: Cache<Decision>

    constructor (backend: Backend, cache: Cache<Decision>)
      ensures this.backend == backend && this.cache == cache
    {
      this.backend, this.cache := backend, cache;
    }

    method SolveConstraints(constraints: string, model: map<string, Hint>, deadline: Deadline)
      returns (a: Answer, smt2: string)
      requires cache.Valid()
      modifies cache, cache.lru
      ensures cache.Valid() && IsProgram(constraints, model, smt2) && Buildable(smt2)
      ensures (cache.Now(), a) == Serve(old(cache.Now()), cache.maxEntries, backend, Query(smt2, deadline))
    {
      smt2 := BuildSMT2(constraints, model);
      hide IsProgram;
      if deadline.PassedBefore? { return Unknown, smt2; }
      hide Get, Set, Cache.Valid;
      var key := backend.hash(smt2);
      var decision := cache.GetByHash(key);
      if decision.Some? { return Decided(decision.value), smt2; }
      if deadline.PassedDuring? { return Unknown, smt2; }
      var process := backend.z3(smt2);
      if !process.exitOk && |process.stdout| == 0 { return Failed, smt2; }
      a := backend.parse(process.stdout);
      if a.Decided? {
        cache.SetByHash(key, a.decision);
      }
    }
  }
}
