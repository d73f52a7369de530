/**
 When a symbolic execution succeeds: a step succeeds exactly when the concrete step does and no comparison
 result is used as a number, so success is decided by the widths of the values alone. And what a report owes
 to the solver: nothing in it rests on a question that got no answer.
 */
module SymbolicProgress {
  import opened Wrappers
  import opened Bits
  import opened Smt
  import opened SymbolicExecutor
  import opened SymbolicInvariants
  import opened SymbolicReport
  import opened SymbolicSoundness
  import opened WasmInterpreter

  // ----- one instruction -----

  /** A comparison result, which has no width, is an operand of an instruction that needs numbers. */
  predicate ReusesFlag(s: SymbolicState, ins: Instruction) {
    var op := ins.opcode;
    if op == OP_I32_EQZ || op == OP_I64_EQZ then s.stack != [] && s.Top().boolean
    else (IsRelop(op) || IsBinop(op)) && |s.stack| >= 2 && (s.Top().boolean || s.Pop().Top().boolean)
  }

  /** The converse of StepSimulates, up to the one thing the executor cannot do. */
  lemma StepSucceedsExactly(env: Assignment, m: Machine, s: SymbolicState, ins: Instruction)
    requires Related(env, m, s)
    ensures ExecuteInstruction(s, ins).Some? <==> ExecuteBasic(false, m, ins).Some? && !ReusesFlag(s, ins)
    ensures ExecuteBasic(true, m, ins).Some? && !ReusesFlag(s, ins) ==> ExecuteInstruction(s, ins).Some?
  {
    hide Eval;
    if s.stack != [] {
      PopRelated(env, m, s);
      if s.Pop().stack != [] { PopRelated(env, m.Pop(), s.Pop()); }
    }
  }

  // ----- widths -----

  /** The widths of a state's values, with 0 for a comparison result, and the instructions executed. */
  datatype Frame = Frame(locals: seq<nat>, stack: seq<nat>, depth: nat) {
    function Top(): nat
      requires stack != []
    {
      stack[|stack| - 1]
    }

    function Pop(): Frame
      requires stack != []
    {
      this.(stack := stack[..|stack| - 1])
    }

    function Push(width: nat): Frame {
      this.(stack := stack + [width])
    }
  }

  function WidthsOf(values: seq<SymbolicValue>): seq<nat> {
    seq(|values|, i requires 0 <= i < |values| => values[i].bits)
  }

  function FrameOf(s: SymbolicState): Frame {
    Frame(WidthsOf(s.locals), WidthsOf(s.stack), s.depth)
  }

  /** The typing rule of an instruction other than `if`; None when the operands do not fit. */
  function Effect(f: Frame, ins: Instruction): Option<Frame> {
    var op := ins.opcode;
    if op == OP_LOCAL_GET then
      if ins.index < |f.locals| then Some(f.Push(f.locals[ins.index])) else None
    else if op == OP_LOCAL_SET || op == OP_LOCAL_TEE then
      if f.stack != [] && ins.index < |f.locals|
      then Some((if op == OP_LOCAL_SET then f.Pop() else f).(locals := f.locals[ins.index := f.Top()]))
      else None
    else if op == OP_I32_CONST || op == OP_I64_CONST then Some(f.Push(if op == OP_I32_CONST then 32 else 64))
    else if op == OP_I32_EQZ || op == OP_I64_EQZ then
      if f.stack != [] && f.Top() == NamedWidth(op) then Some(f.Pop().Push(0)) else None
    else if IsRelop(op) then
      if |f.stack| >= 2 && f.Top() == f.Pop().Top() != 0 then Some(f.Pop().Pop().Push(0)) else None
    else if IsBinop(op) then
      if |f.stack| >= 2 && f.Top() == f.Pop().Top() == NamedWidth(op) then Some(f.Pop()) else None
    else if op == OP_DROP && f.stack != [] then Some(f.Pop())
    else None
  }

  /** The step succeeds exactly when the rule applies, and leaves the widths the rule says. */
  predicate Fits(s: SymbolicState, ins: Instruction) {
    var step, effect := ExecuteInstruction(s, ins), Effect(FrameOf(s), ins);
    if step.Some? then effect == Some(FrameOf(step.value)) else effect.None?
  }

  lemma EffectOfStep(s: SymbolicState, ins: Instruction)
    ensures Fits(s, ins)
  {
    hide Fits;
    var op := ins.opcode;
    if op == OP_LOCAL_GET || op == OP_LOCAL_SET || op == OP_LOCAL_TEE {
      LocalFits(s, ins);
    } else if IsRelop(op) || IsBinop(op) {
      BinaryFits(s, ins);
    } else {
      UnaryFits(s, ins);
    }
  }

  lemma LocalFits(s: SymbolicState, ins: Instruction)
    requires ins.opcode == OP_LOCAL_GET || ins.opcode == OP_LOCAL_SET || ins.opcode == OP_LOCAL_TEE
    ensures Fits(s, ins)
  {
    hide FrameOf;
    FrameSizes(s);
    if ins.index < |s.locals| {
      if ins.opcode == OP_LOCAL_GET {
        FramePush(s, s.locals[ins.index]);
      } else if s.stack != [] {
        FrameSet(s, ins.index, ins.opcode == OP_LOCAL_TEE);
      }
    }
  }

  lemma UnaryFits(s: SymbolicState, ins: Instruction)
    requires ins.opcode != OP_LOCAL_GET && ins.opcode != OP_LOCAL_SET && ins.opcode != OP_LOCAL_TEE
    requires !IsRelop(ins.opcode) && !IsBinop(ins.opcode)
    ensures Fits(s, ins)
  {
    hide FrameOf;
    FrameSizes(s);
    if ins.opcode == OP_I32_CONST || ins.opcode == OP_I64_CONST {
      FramePush(s, TypedConstant(ins.value, if ins.opcode == OP_I32_CONST then 32 else 64));
    } else if s.stack != [] {
      FramePop(s);
      FramePush(s.Pop(), EqzValue(s.Top()));
    }
  }

  lemma BinaryFits(s: SymbolicState, ins: Instruction)
    requires IsRelop(ins.opcode) || IsBinop(ins.opcode)
    ensures Fits(s, ins)
  {
    hide FrameOf, Compare, WrappedArithmetic;
    FrameSizes(s);
    if |s.stack| >= 2 {
      FramePop(s);
      FramePop(s.Pop());
      var op, b, a := ins.opcode, s.Top(), s.Pop().Top();
      if IsRelop(op) {
        FramePush(s.Pop().Pop(), CompareValues(op, ComparisonOperator(op).value, a, b));
      } else {
        FramePush(s.Pop().Pop(), ArithValues(op, NamedWidth(op), a, b));
      }
    }
  }

  lemma FrameSizes(s: SymbolicState)
    ensures |FrameOf(s).stack| == |s.stack| && |FrameOf(s).locals| == |s.locals|
    ensures forall i :: 0 <= i < |s.locals| ==> FrameOf(s).locals[i] == s.locals[i].bits
  {
  }

  lemma FramePush(s: SymbolicState, v: SymbolicValue)
    ensures FrameOf(s.Push(v)) == FrameOf(s).Push(v.bits)
  {
  }

  lemma FramePop(s: SymbolicState)
    requires s.stack != []
    ensures FrameOf(s).stack != [] && FrameOf(s).Top() == s.Top().bits && FrameOf(s.Pop()) == FrameOf(s).Pop()
    ensures FrameOf(s) == FrameOf(s.Pop()).Push(s.Top().bits)
  {
  }

  lemma FrameSet(s: SymbolicState, i: nat, tee: bool)
    requires s.stack != [] && i < |s.locals|
    ensures var t := s.Pop().(locals := s.locals[i := s.Top()]);
            var f := FrameOf(s);
            && |f.stack| == |s.stack| && |f.locals| == |s.locals|
            && FrameOf(if tee then t.Push(s.Top()) else t)
               == (if tee then f else f.Pop()).(locals := f.locals[i := f.Top()])
  {
  }

  // ----- whole programs -----

  /** The frames all paths through a program end in, and the arms of `if`s on the way. */
  datatype Survey = Ill | Fine(ends: seq<Frame>, branches: nat)

  function Join(a: Survey, b: Survey, branches: nat): Survey {
    if a.Ill? || b.Ill? then Ill else Fine(a.ends + b.ends, a.branches + b.branches + branches)
  }

  /** Types every path of at most `limit` instructions through a program, taking both arms of every `if`. */
  function SurveyAll(limit: nat, program: seq<Instruction>, f: Frame): Survey
    decreases program, 0
  {
    if program == [] then Fine([f], 0)
    else
      match SurveyOne(limit, program[0], f)
      case Ill => Ill
      case Fine(mid, branches) => Join(SurveyEach(limit, program[1..], mid), Fine([], 0), branches)
  }

  function SurveyEach(limit: nat, program: seq<Instruction>, frames: seq<Frame>): Survey
    decreases program, 1, |frames|
  {
    if frames == [] then Fine([], 0)
    else Join(SurveyAll(limit, program, frames[0]), SurveyEach(limit, program, frames[1..]), 0)
  }

  function SurveyOne(limit: nat, ins: Instruction, f: Frame): Survey
    decreases ins
  {
    var g := f.(depth := f.depth + 1);
    if g.depth > limit then Fine([], 0)
    else if ins.opcode != OP_IF then
      match Effect(g, ins)
      case Some(h) => Fine([h], 0)
      case None => Ill
    else if g.stack == [] then Ill
    else Join(SurveyAll(limit, ins.consequent, g.Pop()), SurveyAll(limit, ins.otherwise, g.Pop()), 2)
  }

  function FramesOf(states: seq<SymbolicState>): seq<Frame> {
    seq(|states|, i requires 0 <= i < |states| => FrameOf(states[i]))
  }

  /** The outcome is what the survey says. */
  predicate Surveyed(o: Outcome, v: Survey) {
    if v.Ill? then o.Failed? else o.Done? && o.explored == v.branches && FramesOf(o.states) == v.ends
  }

  lemma SurveyedBoth(a: Outcome, v: Survey, b: Outcome, w: Survey, branches: nat)
    requires Surveyed(a, v) && Surveyed(b, w)
    ensures Surveyed(Charge(Combine(a, b), branches, 0), Join(v, w, branches))
    ensures Surveyed(Combine(a, b), Join(v, w, 0))
  {
    if a.Done? && b.Done? {
      assert FramesOf(a.states + b.states) == FramesOf(a.states) + FramesOf(b.states);
    }
  }

  /** Without pruning the survey decides whether a run fails, how far it branches and in what frames it ends. */
  lemma {:induction false} RunAsSurveyed(cfg: Config, program: seq<Instruction>, s: SymbolicState)
    requires !cfg.prune
    ensures Surveyed(RunState(cfg, program, s), SurveyAll(cfg.maxDepth, program, FrameOf(s)))
    decreases program, 0
  {
    hide StepState, SurveyOne, FrameOf;
    if program == [] {
      assert FramesOf([s]) == [FrameOf(s)];
    } else {
      StepAsSurveyed(cfg, program[0], s);
      var mid := StepState(cfg, program[0], s);
      if mid.Done? {
        EachAsSurveyed(cfg, program[1..], mid.states);
        var v := SurveyEach(cfg.maxDepth, program[1..], FramesOf(mid.states));
        if v.Fine? { assert v.ends + [] == v.ends; }
      }
    }
  }

  lemma {:induction false} EachAsSurveyed(cfg: Config, program: seq<Instruction>, states: seq<SymbolicState>)
    requires !cfg.prune
    ensures Surveyed(Each(Runner(cfg, program), states), SurveyEach(cfg.maxDepth, program, FramesOf(states)))
    decreases program, 1, |states|
  {
    hide RunState, SurveyAll, FrameOf, Surveyed;
    if states == [] {
      SurveyedNothing(0);
    } else {
      RunAsSurveyed(cfg, program, states[0]);
      EachAsSurveyed(cfg, program, states[1..]);
      assert FramesOf(states)[1..] == FramesOf(states[1..]) && FramesOf(states)[0] == FrameOf(states[0]);
      SurveyedBoth(RunState(cfg, program, states[0]), SurveyAll(cfg.maxDepth, program, FrameOf(states[0])),
                   Each(Runner(cfg, program), states[1..]),
                   SurveyEach(cfg.maxDepth, program, FramesOf(states[1..])), 0);
    }
  }

  lemma SurveyedNothing(pruned: nat)
    ensures Surveyed(Done([], 0, pruned), Fine([], 0))
  {
  }

  lemma {:induction false} StepAsSurveyed(cfg: Config, ins: Instruction, s: SymbolicState)
    requires !cfg.prune
    ensures Surveyed(StepState(cfg, ins, s), SurveyOne(cfg.maxDepth, ins, FrameOf(s)))
    decreases ins
  {
    hide ExecuteInstruction, Effect, Surveyed, RunState, SurveyAll;
    var t := s.(depth := s.depth + 1);
    assert FrameOf(t) == FrameOf(s).(depth := s.depth + 1);
    if t.depth > cfg.maxDepth {
      SurveyedNothing(1);
    } else if ins.opcode != OP_IF {
      EffectOfStep(t, ins);
      SurveyedBasic(ExecuteInstruction(t, ins));
    } else if t.stack == [] {
      SurveyedFailure();
    } else {
      var c := Condition(t.Top());
      var yes, no := t.Pop().Assume(c), t.Pop().Assume(Not(c));
      assert FrameOf(yes) == FrameOf(no) == FrameOf(t).Pop();
      RunAsSurveyed(cfg, ins.consequent, yes);
      RunAsSurveyed(cfg, ins.otherwise, no);
      var a, b := RunState(cfg, ins.consequent, yes), RunState(cfg, ins.otherwise, no);
      SurveyedBoth(a, SurveyAll(cfg.maxDepth, ins.consequent, FrameOf(yes)),
                   b, SurveyAll(cfg.maxDepth, ins.otherwise, FrameOf(no)), 2);
      ChargeCombine(a, b, 1, 1, 0, 0);
    }
  }

  lemma SurveyedBasic(r: Option<SymbolicState>)
    ensures r.Some? ==> Surveyed(Done([r.value], 0, 0), Fine([FrameOf(r.value)], 0))
    ensures Surveyed(Failed, Ill)
  {
    if r.Some? { assert FramesOf([r.value]) == [FrameOf(r.value)]; }
  }

  lemma SurveyedFailure()
    ensures Surveyed(Failed, Ill)
  {
  }

  // ----- pruning with any solver that answers -----

  /** A solver that always says sat or unsat, rightly or not. */
  ghost predicate Answers(solve: Solver) {
    forall cs :: solve(cs).Sat? || solve(cs).Unsat?
  }

  /** The states of `a` occur in `b`, in the same order. */
  predicate Within(a: seq<SymbolicState>, b: seq<SymbolicState>)
    decreases |b|
  {
    a == [] || (b != [] && ((a[0] == b[0] && Within(a[1..], b[1..])) || Within(a, b[1..])))
  }

  lemma {:induction false} WithinAppend(a: seq<SymbolicState>, b: seq<SymbolicState>,
                                        c: seq<SymbolicState>, d: seq<SymbolicState>)
    requires Within(a, b) && Within(c, d)
    ensures Within(a + c, b + d)
    decreases |b|
  {
    if b == [] {
      assert a == [] && a + c == c && b + d == d;
    } else {
      assert (b + d)[0] == b[0] && (b + d)[1..] == b[1..] + d;
      if a != [] && a[0] == b[0] && Within(a[1..], b[1..]) {
        WithinAppend(a[1..], b[1..], c, d);
        assert (a + c)[1..] == a[1..] + c;
      } else {
        WithinAppend(a, b[1..], c, d);
      }
    }
  }

  lemma WithinItself(s: SymbolicState)
    ensures Within([s], [s])
  {
    assert Within([s][1..], [s][1..]);
  }

  lemma {:induction false} WithinMember(a: seq<SymbolicState>, b: seq<SymbolicState>)
    requires Within(a, b)
    ensures forall t :: t in a ==> t in b
    decreases |b|
  {
    if a != [] {
      assert a == [a[0]] + a[1..];
      if a[0] == b[0] && Within(a[1..], b[1..]) {
        WithinMember(a[1..], b[1..]);
      } else {
        WithinMember(a, b[1..]);
      }
    }
  }

  /** Where the first succeeds, so does the second, with some of its states and no more branches. */
  predicate Leaner(full: Outcome, lean: Outcome) {
    full.Done? ==> lean.Done? && Within(lean.states, full.states) && lean.explored <= full.explored
  }

  ghost predicate Alike(full: Config, lean: Config) {
    !full.prune && lean == full.(prune := true) && Answers(full.solve)
  }

  lemma LeanerBoth(a: Outcome, b: Outcome, x: Outcome, y: Outcome)
    requires Leaner(a, x) && Leaner(b, y)
    ensures Leaner(Combine(a, b), Combine(x, y))
  {
    if a.Done? && b.Done? { WithinAppend(x.states, a.states, y.states, b.states); }
  }

  lemma {:induction false} LeanerEach(f: SymbolicState -> Outcome, g: SymbolicState -> Outcome,
                                      some: seq<SymbolicState>, all: seq<SymbolicState>)
    requires Within(some, all) && forall t :: Leaner(f(t), g(t))
    ensures Leaner(Each(f, all), Each(g, some))
    decreases |all|
  {
    hide Leaner;
    if all == [] {
      LeanerNothing(Done([], 0, 0));
    } else if some != [] && some[0] == all[0] && Within(some[1..], all[1..]) {
      LeanerEach(f, g, some[1..], all[1..]);
      LeanerBoth(f(all[0]), Each(f, all[1..]), g(some[0]), Each(g, some[1..]));
    } else {
      LeanerEach(f, g, some, all[1..]);
      LeanerNothing(f(all[0]));
      LeanerBoth(f(all[0]), Each(f, all[1..]), Done([], 0, 0), Each(g, some));
      CombineUnit(Each(g, some));
    }
  }

  lemma LeanerNothing(full: Outcome)
    ensures Leaner(full, Done([], 0, 0))
  {
  }

  /** Pruning turns no success into a failure, whatever the solver answers. */
  lemma {:induction false} RunLeaner(full: Config, lean: Config, program: seq<Instruction>, s: SymbolicState)
    requires Alike(full, lean)
    ensures Leaner(RunState(full, program, s), RunState(lean, program, s))
    decreases program, 0
  {
    hide StepState, Alike;
    if program != [] {
      StepLeaner(full, lean, program[0], s);
      var a, b := StepState(full, program[0], s), StepState(lean, program[0], s);
      forall t
        ensures Leaner(Runner(full, program[1..])(t), Runner(lean, program[1..])(t))
      {
        RunLeaner(full, lean, program[1..], t);
      }
      if a.Done? { LeanerEach(Runner(full, program[1..]), Runner(lean, program[1..]), b.states, a.states); }
    } else {
      WithinItself(s);
    }
  }

  lemma {:induction false} StepLeaner(full: Config, lean: Config, ins: Instruction, s: SymbolicState)
    requires Alike(full, lean)
    ensures Leaner(StepState(full, ins, s), StepState(lean, ins, s))
    decreases ins
  {
    hide ExecuteInstruction, Branch;
    var t := s.(depth := s.depth + 1);
    if ins.opcode == OP_IF && t.stack != [] {
      var c := Condition(t.Top());
      var yes, no := t.Pop().Assume(c), t.Pop().Assume(Not(c));
      ArmLeaner(full, lean, ins.consequent, yes);
      ArmLeaner(full, lean, ins.otherwise, no);
      LeanerBoth(Branch(full, ins.consequent, yes), Branch(full, ins.otherwise, no),
                 Branch(lean, ins.consequent, yes), Branch(lean, ins.otherwise, no));
    } else if t.depth <= full.maxDepth && ExecuteInstruction(t, ins).Some? {
      WithinItself(ExecuteInstruction(t, ins).value);
    }
  }

  lemma {:induction false} ArmLeaner(full: Config, lean: Config, code: seq<Instruction>, candidate: SymbolicState)
    requires Alike(full, lean) && candidate.constraints != []
    ensures Leaner(Branch(full, code, candidate), Branch(lean, code, candidate))
    decreases code, 1
  {
    RunLeaner(full, lean, code, candidate);
  }

  // ----- reports -----

  /** Parameters and locals at their declared widths, an empty stack, nothing executed. */
  function StartFrame(fn: Function): Frame
    requires Supported(fn.params) && Supported(fn.locals)
  {
    Frame(Widths(fn.params) + Widths(fn.locals), [], 0)
  }

  lemma StartsThere(req: Request)
    requires Accepted(req)
    ensures FrameOf(Initial(req)) == StartFrame(req.fn)
  {
  }

  /** All paths of the request's body within its depth limit, which is 100 unless it asks for another. */
  function SurveyOf(req: Request): Survey
    requires 0 <= req.maxDepth && Supported(req.fn.params) && Supported(req.fn.locals)
  {
    SurveyAll(if req.maxDepth == 0 then 100 else req.maxDepth, req.fn.body, StartFrame(req.fn))
  }

  /** What can be said of a request before it is run: supported types, every path typed, and all limits kept. */
  predicate Sensible(req: Request) {
    && 0 <= req.maxDepth <= 256 && Supported(req.fn.params) && Supported(req.fn.locals)
    && var v := SurveyOf(req);
       && v.Fine? && 1 + v.branches <= MAX_EXPLORED
       && forall i :: 0 <= i < |v.ends| ==> |req.fn.results| <= |v.ends[i].stack|
  }

  ghost predicate Answered(solve: Solver, states: seq<SymbolicState>) {
    forall i :: 0 <= i < |states| ==> Feasibility(solve, states[i].constraints).Some?
  }

  /** A report is assembled exactly when every terminal question is answered and every kept path has its results. */
  lemma {:induction false} AssemblesExactly(cfg: Config, results: seq<ValueType>, states: seq<SymbolicState>)
    ensures Assemble(cfg, results, states).Some? <==>
              && Answered(cfg.solve, states)
              && forall i :: 0 <= i < |states| ==>
                   (cfg.prune && Feasibility(cfg.solve, states[i].constraints) == Some(false))
                   || |results| <= |states[i].stack|
    decreases |states|
  {
    hide Feasibility, Render;
    if states != [] {
      var n := |states| - 1;
      AssemblesExactly(cfg, results, states[..n]);
      assert forall i :: 0 <= i < n ==> states[i] == states[..n][i];
      assert states[n] == states[|states| - 1];
    }
  }

  /** Without pruning, a request is reported exactly when it is sensible and the terminal questions are answered. */
  lemma ReportExactly(req: Request, solve: Solver)
    requires !req.prune
    ensures Sensible(req) ==> Explore(req, solve).Done?
    ensures ReportOf(req, solve).Some? <==> Sensible(req) && Answered(solve, Explore(req, solve).states)
  {
    hide Assemble, Answered, RunState, SurveyAll;
    if Accepted(req) {
      StartsThere(req);
      RunAsSurveyed(ConfigOf(req, solve), req.fn.body, Initial(req));
      var o, v := Explore(req, solve), SurveyOf(req);
      if o.Done? {
        AssemblesExactly(ConfigOf(req, solve), req.fn.results, o.states);
        assert forall i :: 0 <= i < |v.ends| ==> |v.ends[i].stack| == |o.states[i].stack|;
      }
    }
  }

  /** With a solver that answers, pruned or not, every sensible request is reported. */
  lemma SensibleIsReported(req: Request, solve: Solver)
    requires Sensible(req) && Answers(solve)
    ensures ReportOf(req, solve).Some?
  {
    hide Assemble, RunState, SurveyAll;
    var plain, pruned := req.(prune := false), req.(prune := true);
    var full, lean := ConfigOf(plain, solve), ConfigOf(pruned, solve);
    assert Initial(plain) == Initial(pruned) == Initial(req);
    assert StartFrame(plain.fn) == StartFrame(req.fn);
    StartsThere(req);
    RunAsSurveyed(full, req.fn.body, Initial(req));
    RunLeaner(full, lean, req.fn.body, Initial(req));
    var o, p := Explore(plain, solve), Explore(pruned, solve);
    var v := SurveyOf(req);
    WithinMember(p.states, o.states);
    forall i | 0 <= i < |o.states|
      ensures |req.fn.results| <= |o.states[i].stack|
    {
      assert FramesOf(o.states)[i] == v.ends[i];
    }
    forall i | 0 <= i < |p.states|
      ensures |req.fn.results| <= |p.states[i].stack|
    {
      assert p.states[i] in o.states;
    }
    AssemblesExactly(full, req.fn.results, o.states);
    AssemblesExactly(lean, req.fn.results, p.states);
    if req.prune { assert req == pruned; } else { assert req == plain; }
  }

  /**
   Total correctness: a sensible request is reported, and for every argument vector whose execution ends within
   the depth limit the report has exactly one path with true constraints, which shows the result.
   */
  lemma EveryCallIsReported(req: Request, solve: Solver, env: Assignment)
    requires Sensible(req) && Answers(solve) && InDomain(env, Widths(req.fn.params))
    requires req.prune ==> Sound(solve, Widths(req.fn.params))
    ensures ReportOf(req, solve).Some?
    ensures var e := Execute(false, req.fn.body, Arguments(req, env));
            var live := LivePaths(ReportOf(req, solve).value.paths, env);
            if e.Finished? && e.steps <= (if req.maxDepth == 0 then 100 else req.maxDepth)
            then |live| == 1 && OutputDenotes(env, req.fn.results, live[0].output, e.machine)
            else live == []
  {
    hide *;
    SensibleIsReported(req, solve);
    PathsPartitionArguments(req, solve, env);
  }

  // ----- questions without an answer -----

  /** Whatever the first solver answers sat or unsat, the second answers the same. */
  ghost predicate Extends(solve: Solver, more: Solver) {
    forall cs :: solve(cs).Sat? || solve(cs).Unsat? ==> more(cs) == solve(cs)
  }

  lemma {:induction false} RunStands(cfg: Config, more: Config, program: seq<Instruction>, s: SymbolicState)
    requires more == cfg.(solve := more.solve) && Extends(cfg.solve, more.solve)
    requires RunState(cfg, program, s).Done?
    ensures RunState(more, program, s) == RunState(cfg, program, s)
    decreases program, 0
  {
    hide StepState;
    if program != [] {
      StepStands(cfg, more, program[0], s);
      EachStands(cfg, more, program[1..], StepState(cfg, program[0], s).states);
    }
  }

  lemma {:induction false} EachStands(cfg: Config, more: Config, program: seq<Instruction>, states: seq<SymbolicState>)
    requires more == cfg.(solve := more.solve) && Extends(cfg.solve, more.solve)
    requires Each(Runner(cfg, program), states).Done?
    ensures Each(Runner(more, program), states) == Each(Runner(cfg, program), states)
    decreases program, 1, |states|
  {
    hide RunState;
    if states != [] {
      RunStands(cfg, more, program, states[0]);
      EachStands(cfg, more, program, states[1..]);
    }
  }

  lemma {:induction false} StepStands(cfg: Config, more: Config, ins: Instruction, s: SymbolicState)
    requires more == cfg.(solve := more.solve) && Extends(cfg.solve, more.solve)
    requires StepState(cfg, ins, s).Done?
    ensures StepState(more, ins, s) == StepState(cfg, ins, s)
    decreases ins
  {
    hide ExecuteInstruction;
    var t := s.(depth := s.depth + 1);
    if t.depth <= cfg.maxDepth && ins.opcode == OP_IF {
      var c := Condition(t.Top());
      ArmStands(cfg, more, ins.consequent, t.Pop().Assume(c));
      ArmStands(cfg, more, ins.otherwise, t.Pop().Assume(Not(c)));
    }
  }

  lemma {:induction false} ArmStands(cfg: Config, more: Config, code: seq<Instruction>, candidate: SymbolicState)
    requires more == cfg.(solve := more.solve) && Extends(cfg.solve, more.solve)
    requires Branch(cfg, code, candidate).Done?
    ensures Branch(more, code, candidate) == Branch(cfg, code, candidate)
    decreases code, 1
  {
    if !cfg.prune || Feasibility(cfg.solve, candidate.constraints) == Some(true) {
      RunStands(cfg, more, code, candidate);
    }
  }

  lemma {:induction false} AssembleStands(cfg: Config, more: Config, results: seq<ValueType>,
                                          states: seq<SymbolicState>)
    requires more == cfg.(solve := more.solve) && Extends(cfg.solve, more.solve)
    requires Assemble(cfg, results, states).Some?
    ensures Assemble(more, results, states) == Assemble(cfg, results, states)
    decreases |states|
  {
    hide Render;
    if states != [] { AssembleStands(cfg, more, results, states[..|states| - 1]); }
  }

  /**
   A report never rests on a question the solver left open: had those questions been answered, in whatever way,
   the report would be the same. So a run that meets an open question where the answer matters has no report.
   */
  lemma ReportStands(req: Request, solve: Solver, more: Solver)
    requires ReportOf(req, solve).Some? && Extends(solve, more)
    ensures ReportOf(req, more) == ReportOf(req, solve)
  {
    hide RunState, Assemble;
    var cfg := ConfigOf(req, solve);
    RunStands(cfg, ConfigOf(req, more), req.fn.body, Initial(req));
    AssembleStands(cfg, ConfigOf(req, more), req.fn.results, Explore(req, solve).states);
  }

  /** The verdict shown with a path is the solver's answer to its constraints. */
  predicate Justified(solve: Solver, p: Path) {
    if p.constraints == [] then p.feasible else solve(p.constraints) == if p.feasible then Sat else Unsat
  }

  lemma {:induction false} AssembleJustified(cfg: Config, results: seq<ValueType>, states: seq<SymbolicState>)
    requires Assemble(cfg, results, states).Some?
    ensures forall p :: p in Assemble(cfg, results, states).value.0 ==>
                          Justified(cfg.solve, p) && (cfg.prune ==> p.feasible)
    decreases |states|
  {
    hide Render;
    if states != [] {
      AssembleJustified(cfg, results, states[..|states| - 1]);
      AssembleLast(cfg, results, states);
    }
  }

  /** Every reported path carries an answer of the solver, and a pruned report has only the answer sat. */
  lemma PathsJustified(req: Request, solve: Solver)
    requires ReportOf(req, solve).Some?
    ensures forall p :: p in ReportOf(req, solve).value.paths ==> Justified(solve, p) && (req.prune ==> p.feasible)
  {
    hide RunState, Assemble, Justified;
    AssembleJustified(ConfigOf(req, solve), req.fn.results, Explore(req, solve).states);
  }

  // ----- requests without symbols -----

  predicate AllKnown(values: seq<SymbolicValue>) {
    forall i :: 0 <= i < |values| ==> values[i].known.Some?
  }

  /** Folding is complete: an instruction on known values leaves only known values. */
  lemma StepKeepsKnown(s: SymbolicState, ins: Instruction)
    requires AllKnown(s.locals) && AllKnown(s.stack) && ExecuteInstruction(s, ins).Some?
    ensures var t := ExecuteInstruction(s, ins).value; AllKnown(t.locals) && AllKnown(t.stack)
  {
  }

  lemma SuccessorKeepsKnown(cfg: Config, s: SymbolicState, t: SymbolicState)
    requires Successor(cfg, s, t) && AllKnown(s.locals) && AllKnown(s.stack)
    ensures AllKnown(t.locals) && AllKnown(t.stack)
  {
    hide ExecuteInstruction;
    var u := s.(depth := s.depth + 1);
    if ins :| ExecuteInstruction(u, ins) == Some(t) { StepKeepsKnown(u, ins); }
  }

  /** When every parameter is given, every path ends with numbers only. */
  lemma GivenEndsKnown(req: Request, solve: Solver)
    requires Accepted(req) && Explore(req, solve).Done?
    requires forall i :: 0 <= i < |req.fn.params| ==> IsGiven(req, i)
    ensures forall t :: t in Explore(req, solve).states ==> AllKnown(t.stack)
  {
    hide Successor, RunState;
    var cfg, s := ConfigOf(req, solve), Initial(req);
    var keeps := (a: SymbolicState, b: SymbolicState) =>
      AllKnown(a.locals) && AllKnown(a.stack) ==> AllKnown(b.locals) && AllKnown(b.stack);
    assert Inherited(cfg, keeps) by {
      forall a, b | Successor(cfg, a, b)
        ensures keeps(a, b)
      {
        if AllKnown(a.locals) && AllKnown(a.stack) { SuccessorKeepsKnown(cfg, a, b); }
      }
    }
    EveryTerminal(cfg, keeps, req.fn.body, s);
    forall t | t in Explore(req, solve).states
      ensures AllKnown(t.stack)
    {
      assert keeps(s, t);
    }
  }

  lemma {:induction false} AssembleKnown(cfg: Config, results: seq<ValueType>, states: seq<SymbolicState>)
    requires Assemble(cfg, results, states).Some? && forall t :: t in states ==> AllKnown(t.stack)
    ensures forall p, i :: p in Assemble(cfg, results, states).value.0 && 0 <= i < |p.output| ==> p.output[i].Known?
    decreases |states|
  {
    hide Feasibility, RenderValue;
    if states != [] {
      var n := |states| - 1;
      AssembleLast(cfg, results, states);
      assert states[n] in states;
      AssembleKnown(cfg, results, states[..n]);
      forall i | 0 <= i < |results| <= |states[n].stack|
        ensures Render(results, states[n].stack)[i].Known?
      {
        RendersDeclared(results[i], states[n].stack[|states[n].stack| - |results| + i]);
      }
    }
  }

  /** A known value is shown as a number of the declared width, whatever its own; an unknown one as its term. */
  lemma RendersDeclared(t: ValueType, v: SymbolicValue)
    ensures v.known.None? ==> RenderValue(t, v) == Term(v.expr)
    ensures v.known.Some? ==>
            && RenderValue(t, v).Known?
            && (t == I32 ==> -0x8000_0000 <= RenderValue(t, v).value < 0x8000_0000
                             && (RenderValue(t, v).value - v.known.value) % 0x1_0000_0000 == 0)
            && (t != I32 ==> RenderValue(t, v).value == v.known.value)
  {
  }

  /** So a call with all arguments given is reported as numbers: no path of it shows a symbol. */
  lemma GivenIsNumbers(req: Request, solve: Solver)
    requires ReportOf(req, solve).Some?
    requires forall i :: 0 <= i < |req.fn.params| ==> IsGiven(req, i)
    ensures forall p, i :: p in ReportOf(req, solve).value.paths && 0 <= i < |p.output| ==> p.output[i].Known?
  {
    hide RunState, Assemble, AllKnown;
    GivenEndsKnown(req, solve);
    AssembleKnown(ConfigOf(req, solve), req.fn.results, Explore(req, solve).states);
  }
}
