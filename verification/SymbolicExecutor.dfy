/**
 The bounded symbolic executor of internal/verify/symbolic.go: symbolic values with constant
 folding, one-instruction steps, forking at `if`, depth and feasibility pruning, and the
 assembly of the final report. Every error of the source is the single outcome None or Failed.
 */
module SymbolicExecutor {
  import opened Wrappers
  import opened Bits
  import opened Smt

  const MAX_EXPLORED: nat := 4096
  const DEFAULT_MAX_DEPTH: nat := 100
  const MAX_DEPTH: nat := 256

  const OP_IF: Byte := 0x04
  const OP_DROP: Byte := 0x1a
  const OP_LOCAL_GET: Byte := 0x20
  const OP_LOCAL_SET: Byte := 0x21
  const OP_LOCAL_TEE: Byte := 0x22
  const OP_I32_CONST: Byte := 0x41
  const OP_I64_CONST: Byte := 0x42
  const OP_I32_EQZ: Byte := 0x45
  const OP_I64_EQZ: Byte := 0x50

  datatype Instruction = Instruction(opcode: Byte, index: UInt32, value: Int64,
                                     consequent: seq<Instruction>, otherwise: seq<Instruction>)

  /** A value type byte of the module: 0x7f, 0x7e, or one the executor does not support. */
  datatype ValueType = I32 | I64 | OtherType

  datatype Function = Function(params: seq<ValueType>, results: seq<ValueType>,
                               locals: seq<ValueType>, body: seq<Instruction>)

  // ----- symbolic values -----

  datatype SymbolicValue = SymbolicValue(expr: Expr, known: Option<Int64>, boolean: bool, bits: nat)

  function WidthOf(t: ValueType): Option<nat> {
    match t
    case I32 => Some(32)
    case I64 => Some(64)
    case OtherType => None
  }

  function WrapSigned(v: Int64, bits: nat): Int64 {
    if bits == 32 then Signed(v % TWO32, 32) else v
  }

  function TypedConstant(v: Int64, bits: nat): SymbolicValue {
    var w := WrapSigned(v, bits);
    SymbolicValue(Literal(Unsigned(w, bits), bits), Some(w), false, bits)
  }

  function BoolValue(e: Expr, known: Option<bool>): SymbolicValue {
    match known
    case Some(b) => SymbolicValue(Truth(b), Some(if b then 1 else 0), true, 0)
    case None => SymbolicValue(e, None, true, 0)
  }

  function ZeroExpr(v: SymbolicValue): Expr {
    Literal(0, v.bits)
  }

  /** The formula that says a value is nonzero. */
  function Condition(v: SymbolicValue): Expr {
    if v.known.Some? then Truth(v.known.value != 0)
    else if v.boolean then v.expr
    else Not(Rel(Equal, v.expr, ZeroExpr(v)))
  }

  /** The ten comparisons, in opcode order: i32 from 0x46, i64 from 0x51. */
  const COMPARISONS: seq<RelOp> := [Equal, Distinct, Slt, Ult, Sgt, Ugt, Sle, Ule, Sge, Uge]

  function ComparisonOperator(op: Byte): Option<RelOp> {
    if 0x46 <= op <= 0x4f then Some(COMPARISONS[op - 0x46])
    else if 0x51 <= op <= 0x5a then Some(COMPARISONS[op - 0x51])
    else None
  }

  /** The folding of a comparison of two known values. */
  predicate Compare(op: Byte, a: Int64, b: Int64, bits: nat) {
    var ua := if bits < 64 then a % TWO64 % TWO32 else a % TWO64;
    var ub := if bits < 64 then b % TWO64 % TWO32 else b % TWO64;
    if op == 0x46 || op == 0x51 then a == b
    else if op == 0x47 || op == 0x52 then a != b
    else if op == 0x48 || op == 0x53 then a < b
    else if op == 0x49 || op == 0x54 then ua < ub
    else if op == 0x4a || op == 0x55 then a > b
    else if op == 0x4b || op == 0x56 then ua > ub
    else if op == 0x4c || op == 0x57 then a <= b
    else if op == 0x4d || op == 0x58 then ua <= ub
    else if op == 0x4e || op == 0x59 then a >= b
    else ua >= ub
  }

  function ArithmeticWidth(op: Byte): Option<nat> {
    if op == 0x6a || op == 0x6b || op == 0x6c then Some(32)
    else if op == 0x7c || op == 0x7d || op == 0x7e then Some(64)
    else None
  }

  function ArithmeticOperator(op: Byte): ArithOp {
    if op == 0x6a || op == 0x7c then BvAdd
    else if op == 0x6b || op == 0x7d then BvSub
    else BvMul
  }

  /** The folding of a wrapping operation: uint64 arithmetic, then truncation to the width. */
  function WrappedArithmetic(a: Int64, b: Int64, op: Byte, bits: nat): Int64 {
    var ua, ub := a % TWO64, b % TWO64;
    var value :=
      match ArithmeticOperator(op)
      case BvAdd => (ua + ub) % TWO64
      case BvSub => (ua - ub) % TWO64
      case BvMul => (ua * ub) % TWO64;
    if bits == 32 then Signed(value % TWO32, 32) else Signed(value, 64)
  }

  // ----- states -----

  datatype SymbolicState = SymbolicState(locals: seq<SymbolicValue>, stack: seq<SymbolicValue>,
                                         constraints: seq<Expr>, depth: nat)
  {
    function Top(): SymbolicValue
      requires stack != []
    {
      stack[|stack| - 1]
    }

    function Pop(): SymbolicState
      requires stack != []
    {
      this.(stack := stack[..|stack| - 1])
    }

    function Push(v: SymbolicValue): SymbolicState {
      this.(stack := stack + [v])
    }

    function Assume(c: Expr): SymbolicState {
      this.(constraints := constraints + [c])
    }
  }

  function EqzValue(v: SymbolicValue): SymbolicValue {
    BoolValue(Rel(Equal, v.expr, ZeroExpr(v)),
              if v.known.Some? then Some(v.known.value == 0) else None)
  }

  function CompareValues(op: Byte, rop: RelOp, a: SymbolicValue, b: SymbolicValue): SymbolicValue {
    BoolValue(Rel(rop, a.expr, b.expr),
              if a.known.Some? && b.known.Some?
              then Some(Compare(op, a.known.value, b.known.value, a.bits)) else None)
  }

  function ArithValues(op: Byte, bits: nat, a: SymbolicValue, b: SymbolicValue): SymbolicValue {
    if a.known.Some? && b.known.Some?
    then TypedConstant(WrappedArithmetic(a.known.value, b.known.value, op, bits), bits)
    else SymbolicValue(Arith(ArithmeticOperator(op), a.expr, b.expr), None, false, bits)
  }

  /** One instruction other than `if`; None is an execution error. */
  function ExecuteInstruction(s: SymbolicState, ins: Instruction): Option<SymbolicState> {
    var op := ins.opcode;
    if op == OP_LOCAL_GET then
      if ins.index < |s.locals| then Some(s.Push(s.locals[ins.index])) else None
    else if op == OP_LOCAL_SET || op == OP_LOCAL_TEE then
      if s.stack == [] || ins.index >= |s.locals| then None
      else
        var t := s.Pop().(locals := s.locals[ins.index := s.Top()]);
        Some(if op == OP_LOCAL_TEE then t.Push(s.Top()) else t)
    else if op == OP_I32_CONST then Some(s.Push(TypedConstant(ins.value, 32)))
    else if op == OP_I64_CONST then Some(s.Push(TypedConstant(ins.value, 64)))
    else if op == OP_I32_EQZ || op == OP_I64_EQZ then
      if s.stack == [] || s.Top().bits != (if op == OP_I32_EQZ then 32 else 64) then None
      else Some(s.Pop().Push(EqzValue(s.Top())))
    else if ComparisonOperator(op).Some? then
      if |s.stack| < 2 then None
      else
        var b, a := s.Top(), s.Pop().Top();
        if a.bits == 0 || a.bits != b.bits then None
        else Some(s.Pop().Pop().Push(CompareValues(op, ComparisonOperator(op).value, a, b)))
    else if ArithmeticWidth(op).Some? then
      if |s.stack| < 2 then None
      else
        var b, a, bits := s.Top(), s.Pop().Top(), ArithmeticWidth(op).value;
        if a.bits != bits || b.bits != bits then None
        else Some(s.Pop().Pop().Push(ArithValues(op, bits, a, b)))
    else if op == OP_DROP then
      if s.stack == [] then None else Some(s.Pop())
    else None
  }

  // ----- specification of the executor: every state on its own -----

  datatype Config = Config(maxDepth: nat, prune: bool, solve: Solver)

  /** Surviving states in order, with the branches explored and the states dropped on the way. */
  datatype Outcome = Failed | Done(states: seq<SymbolicState>, explored: nat, pruned: nat)

  function Combine(a: Outcome, b: Outcome): Outcome {
    if a.Failed? || b.Failed? then Failed
    else Done(a.states + b.states, a.explored + b.explored, a.pruned + b.pruned)
  }

  /** Adds to the counters of an outcome. */
  function Charge(o: Outcome, explored: nat, pruned: nat): Outcome {
    if o.Failed? then Failed
    else Done(o.states, explored + o.explored, pruned + o.pruned)
  }

  /** The answer to a feasibility question; None when the solver gives no verdict. */
  function Feasibility(solve: Solver, constraints: seq<Expr>): Option<bool> {
    if constraints == [] then Some(true)
    else
      match solve(constraints)
      case Sat => Some(true)
      case Unsat => Some(false)
      case _ => None
  }

  /** Applies `f` to each state alone and concatenates what comes out. */
  function Each(f: SymbolicState -> Outcome, states: seq<SymbolicState>): Outcome {
    if states == [] then Done([], 0, 0)
    else Combine(f(states[0]), Each(f, states[1..]))
  }

  /** Applies `f` to every state an earlier part produced. */
  function Then(o: Outcome, f: SymbolicState -> Outcome): Outcome {
    if o.Failed? then Failed
    else Charge(Each(f, o.states), o.explored, o.pruned)
  }

  /** Runs one state through a whole program, depth first. */
  function RunState(cfg: Config, program: seq<Instruction>, s: SymbolicState): Outcome
    decreases program, 0
  {
    if program == [] then Done([s], 0, 0)
    else Then(StepState(cfg, program[0], s), Runner(cfg, program[1..]))
  }

  function Runner(cfg: Config, program: seq<Instruction>): SymbolicState -> Outcome
    decreases program, 1
  {
    s => RunState(cfg, program, s)
  }

  function StepState(cfg: Config, ins: Instruction, s: SymbolicState): Outcome
    decreases ins
  {
    var t := s.(depth := s.depth + 1);
    if t.depth > cfg.maxDepth then Done([], 0, 1)
    else if ins.opcode == OP_IF then
      if t.stack == [] then Failed
      else
        var c := Condition(t.Top());
        Combine(Branch(cfg, ins.consequent, t.Pop().Assume(c)),
                Branch(cfg, ins.otherwise, t.Pop().Assume(Not(c))))
    else
      match ExecuteInstruction(t, ins)
      case Some(u) => Done([u], 0, 0)
      case None => Failed
  }

  /** One arm of an `if`, skipped when pruning finds its constraints infeasible. */
  function Branch(cfg: Config, code: seq<Instruction>, candidate: SymbolicState): Outcome
    decreases code, 3
  {
    if !cfg.prune then Charge(RunState(cfg, code, candidate), 1, 0)
    else
      match Feasibility(cfg.solve, candidate.constraints)
      case None => Failed
      case Some(false) => Done([], 1, 1)
      case Some(true) => Charge(RunState(cfg, code, candidate), 1, 0)
  }

  function Stepper(cfg: Config, ins: Instruction): SymbolicState -> Outcome {
    s => StepState(cfg, ins, s)
  }

  // ----- the breadth-wise loop agrees with running every state alone -----

  lemma {:induction false} CombineAssociative(a: Outcome, b: Outcome, c: Outcome)
    ensures Combine(Combine(a, b), c) == Combine(a, Combine(b, c))
  {
    if a.Done? && b.Done? && c.Done? {
      assert (a.states + b.states) + c.states == a.states + (b.states + c.states);
    }
  }

  lemma {:induction false} CombineUnit(a: Outcome)
    ensures Combine(Done([], 0, 0), a) == a == Combine(a, Done([], 0, 0))
  {
    if a.Done? {
      assert [] + a.states == a.states == a.states + [];
    }
  }

  lemma {:induction false} EachAppend(f: SymbolicState -> Outcome, a: seq<SymbolicState>, b: seq<SymbolicState>)
    ensures Each(f, a + b) == Combine(Each(f, a), Each(f, b))
    decreases |a|
  {
    if a == [] {
      assert a + b == b;
      CombineUnit(Each(f, b));
    } else {
      assert (a + b)[0] == a[0] && (a + b)[1..] == a[1..] + b;
      EachAppend(f, a[1..], b);
      CombineAssociative(f(a[0]), Each(f, a[1..]), Each(f, b));
    }
  }

  lemma {:induction false} EachSplit(f: SymbolicState -> Outcome, states: seq<SymbolicState>, j: nat)
    requires j < |states|
    ensures Each(f, states[..j + 1]) == Combine(Each(f, states[..j]), f(states[j]))
    ensures Each(f, states) == Combine(Each(f, states[..j + 1]), Each(f, states[j + 1..]))
  {
    assert states[..j + 1] == states[..j] + [states[j]];
    EachAppend(f, states[..j], [states[j]]);
    CombineUnit(f(states[j]));
    assert states == states[..j + 1] + states[j + 1..];
    EachAppend(f, states[..j + 1], states[j + 1..]);
  }

  lemma {:induction false} ChargeCombine(a: Outcome, b: Outcome, e: nat, e': nat, p: nat, p': nat)
    ensures Charge(Combine(a, b), e + e', p + p') == Combine(Charge(a, e, p), Charge(b, e', p'))
  {
  }

  lemma {:induction false} ThenCombine(a: Outcome, b: Outcome, g: SymbolicState -> Outcome)
    ensures Then(Combine(a, b), g) == Combine(Then(a, g), Then(b, g))
  {
    if a.Done? && b.Done? {
      var x, y := Each(g, a.states), Each(g, b.states);
      calc {
        Then(Combine(a, b), g);
        Charge(Each(g, a.states + b.states), a.explored + b.explored, a.pruned + b.pruned);
        { EachAppend(g, a.states, b.states); }
        Charge(Combine(x, y), a.explored + b.explored, a.pruned + b.pruned);
        { ChargeCombine(x, y, a.explored, b.explored, a.pruned, b.pruned); }
        Combine(Then(a, g), Then(b, g));
      }
    }
  }

  /** Advancing all states by `h` and then by `g` is taking each through both. */
  lemma {:induction false} EachThen(f: SymbolicState -> Outcome, h: SymbolicState -> Outcome,
                                    g: SymbolicState -> Outcome, states: seq<SymbolicState>)
    requires forall s :: f(s) == Then(h(s), g)
    ensures Each(f, states) == Then(Each(h, states), g)
    decreases |states|
  {
    if states != [] {
      EachThen(f, h, g, states[1..]);
      ThenCombine(h(states[0]), Each(h, states[1..]), g);
    }
  }

  lemma {:induction false} BreadthFirst(cfg: Config, program: seq<Instruction>, states: seq<SymbolicState>)
    requires program != []
    ensures Each(Runner(cfg, program), states)
            == Then(Each(Stepper(cfg, program[0]), states), Runner(cfg, program[1..]))
  {
    forall s: SymbolicState
      ensures Runner(cfg, program)(s) == Then(Stepper(cfg, program[0])(s), Runner(cfg, program[1..]))
    {
    }
    EachThen(Runner(cfg, program), Stepper(cfg, program[0]), Runner(cfg, program[1..]), states);
  }

  /** The result and counters a call of the executor must leave, given the specified outcome. */
  ghost predicate Agrees(o: Outcome, r: Option<seq<SymbolicState>>,
                         explored: nat, pruned: nat, explored': nat, pruned': nat)
  {
    && explored' <= MAX_EXPLORED
    && (r.Some? <==> o.Done? && explored + o.explored <= MAX_EXPLORED)
    && (r.Some? ==> r.value == o.states && explored' == explored + o.explored && pruned' == pruned + o.pruned)
  }

  class Executor {
    const cfg: Config
    var explored: nat
    var pruned: nat

    constructor (cfg: Config)
      ensures this.cfg == cfg && explored == 1 && pruned == 0
    {
      this.cfg := cfg;
      explored, pruned := 1, 0;
    }

    /** Advances all states through the program one instruction at a time. */
    method Run(program: seq<Instruction>, states: seq<SymbolicState>) returns (r: Option<seq<SymbolicState>>)
      requires explored <= MAX_EXPLORED
      modifies this
      ensures Agrees(Each(Runner(cfg, program), states), r, old(explored), old(pruned), explored, pruned)
      decreases program, 1
    {
      hide Each, RunState, StepState;
      var current := states;
      var i := 0;
      while i < |program|
        invariant 0 <= i <= |program|
        invariant old(explored) <= explored <= MAX_EXPLORED && old(pruned) <= pruned
        invariant Each(Runner(cfg, program), states)
                  == Charge(Each(Runner(cfg, program[i..]), current), explored - old(explored), pruned - old(pruned))
      {
        BreadthFirst(cfg, program[i..], current);
        assert program[i..][1..] == program[i + 1..];
        var next := Advance(program[i], current);
        if next.None? { return None; }
        current := next.value;
        i := i + 1;
      }
      assert program[i..] == [];
      EmptyProgram(cfg, current);
      return Some(current);
    }

    /** Advances every state by one instruction. */
    method Advance(ins: Instruction, states: seq<SymbolicState>) returns (r: Option<seq<SymbolicState>>)
      requires explored <= MAX_EXPLORED
      modifies this
      ensures Agrees(Each(Stepper(cfg, ins), states), r, old(explored), old(pruned), explored, pruned)
      decreases ins, 1
    {
      var next := [];
      var j := 0;
      while j < |states|
        invariant 0 <= j <= |states|
        invariant old(explored) <= explored <= MAX_EXPLORED && old(pruned) <= pruned
        invariant Each(Stepper(cfg, ins), states[..j])
                  == Done(next, explored - old(explored), pruned - old(pruned))
      {
        EachSplit(Stepper(cfg, ins), states, j);
        var stepped := AdvanceState(ins, states[j]);
        if stepped.None? { return None; }
        next := next + stepped.value;
        j := j + 1;
      }
      assert states[..j] == states;
      return Some(next);
    }

    method AdvanceState(ins: Instruction, s: SymbolicState) returns (r: Option<seq<SymbolicState>>)
      requires explored <= MAX_EXPLORED
      modifies this
      ensures Agrees(StepState(cfg, ins, s), r, old(explored), old(pruned), explored, pruned)
      decreases ins, 0
    {
      var state := s.(depth := s.depth + 1);
      if state.depth > cfg.maxDepth {
        pruned := pruned + 1;
        return Some([]);
      }
      if ins.opcode == OP_IF {
        if state.stack == [] { return None; }
        var condition := Condition(state.Top());
        state := state.Pop();
        var taken := Fork(ins.consequent, state.Assume(condition));
        if taken.None? { return None; }
        var skipped := Fork(ins.otherwise, state.Assume(Not(condition)));
        if skipped.None? { return None; }
        return Some(taken.value + skipped.value);
      }
      var stepped := ExecuteInstruction(state, ins);
      return if stepped.Some? then Some([stepped.value]) else None;
    }

    /** Explores one arm of an `if`. */
    method Fork(code: seq<Instruction>, candidate: SymbolicState) returns (r: Option<seq<SymbolicState>>)
      requires explored <= MAX_EXPLORED
      modifies this
      ensures Agrees(Branch(cfg, code, candidate), r, old(explored), old(pruned), explored, pruned)
      decreases code, 2
    {
      if explored >= MAX_EXPLORED { return None; }
      explored := explored + 1;
      if cfg.prune {
        var feasible := Feasibility(cfg.solve, candidate.constraints);
        if feasible.None? { return None; }
        if !feasible.value {
          pruned := pruned + 1;
          return Some([]);
        }
      }
      r := Run(code, [candidate]);
      assert Each(Runner(cfg, code), [candidate]) == RunState(cfg, code, candidate);
    }
  }

  lemma {:induction false} EmptyProgram(cfg: Config, states: seq<SymbolicState>)
    ensures Each(Runner(cfg, []), states) == Done(states, 0, 0)
    decreases |states|
  {
    if states != [] {
      EmptyProgram(cfg, states[1..]);
    }
  }
}
