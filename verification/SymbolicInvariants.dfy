/**
 What every terminal state of a run inherits from the state it started in, and how the counters
 of a run account for its states.
 */
module SymbolicInvariants {
  import opened Wrappers
  import opened Smt
  import opened SymbolicExecutor
  import opened SymbolicReport

  type StateRelation = (SymbolicState, SymbolicState) -> bool

  /** The states one instruction can lead to, before any arm of an `if` is run. */
  ghost predicate Successor(cfg: Config, s: SymbolicState, t: SymbolicState) {
    var u := s.(depth := s.depth + 1);
    && u.depth <= cfg.maxDepth
    && ((u.stack != [] && (t == u.Pop().Assume(Condition(u.Top())) || t == u.Pop().Assume(Not(Condition(u.Top())))))
        || exists ins :: ExecuteInstruction(u, ins) == Some(t))
  }

  /** A preorder that every single step respects. */
  ghost predicate Inherited(cfg: Config, rel: StateRelation) {
    && (forall s :: rel(s, s))
    && (forall s, t, u :: rel(s, t) && rel(t, u) ==> rel(s, u))
    && (forall s, t :: Successor(cfg, s, t) ==> rel(s, t))
  }

  ghost predicate AllFrom(rel: StateRelation, s: SymbolicState, o: Outcome) {
    o.Done? ==> forall t :: t in o.states ==> rel(s, t)
  }

  lemma FromEarlier(cfg: Config, rel: StateRelation, s: SymbolicState, m: SymbolicState, o: Outcome)
    requires Inherited(cfg, rel) && rel(s, m) && AllFrom(rel, m, o)
    ensures AllFrom(rel, s, o)
  {
    if o.Done? {
      forall t | t in o.states
        ensures rel(s, t)
      {
        assert rel(m, t);
      }
    }
  }

  /** Such a relation holds between the initial state and every terminal state. */
  lemma {:induction false} EveryTerminal(cfg: Config, rel: StateRelation, program: seq<Instruction>, s: SymbolicState)
    requires Inherited(cfg, rel)
    ensures AllFrom(rel, s, RunState(cfg, program, s))
    decreases program, 0
  {
    var o := RunState(cfg, program, s);
    if program != [] && o.Done? {
      EveryStep(cfg, rel, program[0], s);
      var mid := StepState(cfg, program[0], s);
      forall m | m in mid.states
        ensures AllFrom(rel, s, Runner(cfg, program[1..])(m))
      {
        EveryTerminal(cfg, rel, program[1..], m);
        FromEarlier(cfg, rel, s, m, RunState(cfg, program[1..], m));
      }
      EachFrom(Runner(cfg, program[1..]), mid.states, rel, s);
    }
  }

  lemma {:induction false} EveryStep(cfg: Config, rel: StateRelation, ins: Instruction, s: SymbolicState)
    requires Inherited(cfg, rel)
    ensures AllFrom(rel, s, StepState(cfg, ins, s))
    decreases ins
  {
    var o, u := StepState(cfg, ins, s), s.(depth := s.depth + 1);
    if u.depth <= cfg.maxDepth && o.Done? {
      if ins.opcode == OP_IF {
        var c := Condition(u.Top());
        EveryArm(cfg, rel, ins.consequent, s, u.Pop().Assume(c));
        EveryArm(cfg, rel, ins.otherwise, s, u.Pop().Assume(Not(c)));
      } else {
        assert Successor(cfg, s, ExecuteInstruction(u, ins).value);
      }
    }
  }

  lemma {:induction false} EveryArm(cfg: Config, rel: StateRelation, code: seq<Instruction>,
                                    s: SymbolicState, candidate: SymbolicState)
    requires Inherited(cfg, rel) && Successor(cfg, s, candidate)
    ensures AllFrom(rel, s, Branch(cfg, code, candidate))
    decreases code, 1
  {
    EveryTerminal(cfg, rel, code, candidate);
    FromEarlier(cfg, rel, s, candidate, RunState(cfg, code, candidate));
  }

  lemma {:induction false} EachFrom(f: SymbolicState -> Outcome, states: seq<SymbolicState>,
                                    rel: StateRelation, s: SymbolicState)
    requires forall m :: m in states ==> AllFrom(rel, s, f(m))
    ensures AllFrom(rel, s, Each(f, states))
    decreases |states|
  {
    if states != [] {
      EachFrom(f, states[1..], rel, s);
      assert states[0] in states;
    }
  }

  // ----- reachable states -----

  /** Each state follows from the one before by one instruction, or is the entry of an arm. */
  ghost predicate Chain(cfg: Config, states: seq<SymbolicState>) {
    states != [] && forall k :: 0 < k < |states| ==> Successor(cfg, states[k - 1], states[k])
  }

  /** Some chain of steps leads from s to t, whether or not a run later fails, prunes or cuts it. */
  ghost predicate Reaches(cfg: Config, s: SymbolicState, t: SymbolicState) {
    exists states :: Chain(cfg, states) && states[0] == s && states[|states| - 1] == t
  }

  lemma ReachesFurther(cfg: Config, s: SymbolicState, t: SymbolicState, u: SymbolicState)
    requires Reaches(cfg, s, t) && Reaches(cfg, t, u)
    ensures Reaches(cfg, s, u)
  {
    hide Successor;
    var a :| Chain(cfg, a) && a[0] == s && a[|a| - 1] == t;
    var b :| Chain(cfg, b) && b[0] == t && b[|b| - 1] == u;
    var c := a + b[1..];
    forall k | 0 < k < |c|
      ensures Successor(cfg, c[k - 1], c[k])
    {
      if k >= |a| { assert c[k - 1] == b[k - |a|] && c[k] == b[k - |a| + 1]; }
    }
    assert Chain(cfg, c);
  }

  /** The terminal states of a run are among the states its start reaches. */
  lemma TerminalIsReached(cfg: Config, program: seq<Instruction>, s: SymbolicState)
    requires RunState(cfg, program, s).Done?
    ensures forall t :: t in RunState(cfg, program, s).states ==> Reaches(cfg, s, t)
  {
    hide Successor;
    var rel := (a, b) => Reaches(cfg, a, b);
    assert Inherited(cfg, rel) by {
      forall a
        ensures rel(a, a)
      {
        assert Chain(cfg, [a]);
      }
      forall a, b, c | rel(a, b) && rel(b, c)
        ensures rel(a, c)
      {
        ReachesFurther(cfg, a, b, c);
      }
      forall a, b | Successor(cfg, a, b)
        ensures rel(a, b)
      {
        assert Chain(cfg, [a, b]);
      }
    }
    EveryTerminal(cfg, rel, program, s);
  }

  // ----- path accounting -----

  /** Each starting state ends as one more leaf than it met `if`s, and every `if` explored two arms. */
  predicate Balanced(o: Outcome, starts: nat) {
    o.Done? ==> 2 * (|o.states| + o.pruned) == o.explored + 2 * starts
  }

  lemma {:induction false} RunBalanced(cfg: Config, program: seq<Instruction>, s: SymbolicState)
    ensures Balanced(RunState(cfg, program, s), 1)
    decreases program, 0
  {
    if program != [] {
      StepBalanced(cfg, program[0], s);
      var mid := StepState(cfg, program[0], s);
      if mid.Done? {
        forall m
          ensures Balanced(Runner(cfg, program[1..])(m), 1)
        {
          RunBalanced(cfg, program[1..], m);
        }
        EachBalanced(Runner(cfg, program[1..]), mid.states);
      }
    }
  }

  lemma {:induction false} StepBalanced(cfg: Config, ins: Instruction, s: SymbolicState)
    ensures Balanced(StepState(cfg, ins, s), 1)
    decreases ins
  {
    var u := s.(depth := s.depth + 1);
    if u.depth <= cfg.maxDepth && ins.opcode == OP_IF && u.stack != [] {
      var c := Condition(u.Top());
      RunBalanced(cfg, ins.consequent, u.Pop().Assume(c));
      RunBalanced(cfg, ins.otherwise, u.Pop().Assume(Not(c)));
    }
  }

  lemma {:induction false} EachBalanced(f: SymbolicState -> Outcome, states: seq<SymbolicState>)
    requires forall m :: Balanced(f(m), 1)
    ensures Balanced(Each(f, states), |states|)
    decreases |states|
  {
    if states != [] {
      EachBalanced(f, states[1..]);
      assert Balanced(f(states[0]), 1);
    }
  }

  lemma {:induction false} AssembleCounts(cfg: Config, results: seq<ValueType>, states: seq<SymbolicState>)
    ensures Assemble(cfg, results, states).Some? ==>
            var (paths, dropped) := Assemble(cfg, results, states).value; |paths| + dropped == |states|
    decreases |states|
  {
    if states != [] {
      AssembleCounts(cfg, results, states[..|states| - 1]);
    }
  }

  /**
   Every report accounts for its paths, whatever the pruning and depth settings: each explored
   branch ends in exactly one reported or pruned path.
   */
  lemma PathsAccountedFor(req: Request, solve: Solver)
    requires ReportOf(req, solve).Some?
    ensures var r := ReportOf(req, solve).value;
            && 2 * (|r.paths| + r.pruned) == r.explored + 1
            && r.explored % 2 == 1 && r.explored <= 4095
            && |r.paths| + r.pruned <= 2048
  {
    RunBalanced(ConfigOf(req, solve), req.fn.body, Initial(req));
    AssembleCounts(ConfigOf(req, solve), req.fn.results, Explore(req, solve).states);
  }

  /** No surviving state executed more instructions than the depth limit. */
  lemma DepthBounded(req: Request, solve: Solver)
    requires Accepted(req) && Explore(req, solve).Done?
    ensures forall t :: t in Explore(req, solve).states ==> t.depth <= if req.maxDepth == 0 then 100 else req.maxDepth
  {
    var cfg := ConfigOf(req, solve);
    var bounded := (s: SymbolicState, t: SymbolicState) => s.depth <= cfg.maxDepth ==> t.depth <= cfg.maxDepth;
    assert Inherited(cfg, bounded) by {
      forall s, t | Successor(cfg, s, t)
        ensures bounded(s, t)
      {
        StepKeepsPath(cfg, s, t);
      }
    }
    EveryTerminal(cfg, bounded, req.fn.body, Initial(req));
  }

  /** A step counts one instruction and only ever adds constraints. */
  lemma StepKeepsPath(cfg: Config, s: SymbolicState, t: SymbolicState)
    requires Successor(cfg, s, t)
    ensures t.depth == s.depth + 1 && s.constraints <= t.constraints
  {
    var u := s.(depth := s.depth + 1);
    if ins :| ExecuteInstruction(u, ins) == Some(t) {
    }
  }
}
