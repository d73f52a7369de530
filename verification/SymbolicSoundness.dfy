/**
 The symbolic executor against the concrete interpreter: for every argument vector, exactly one
 reported path has true constraints, and that path's output denotes the concrete result.
 */
module SymbolicSoundness {
  import opened Wrappers
  import opened Bits
  import opened Smt
  import opened SymbolicExecutor
  import opened SymbolicReport
  import opened SymbolicInvariants
  import opened WasmInterpreter

  // ----- values -----

  /**
   The symbolic value stands for the word under the assignment. Comparison results are Bool terms
   without a width and stand for the i32 values 0 and 1. A folded value is the signed reading.
   */
  predicate Represents(env: Assignment, w: Word, v: SymbolicValue) {
    if v.boolean then
      && v.bits == 0 && w.bits == 32 && w.value <= 1
      && Eval(v.expr, env) == Boolean(w.value == 1)
      && (v.known.Some? ==> v.known.value == w.value)
    else
      && IsWidth(v.bits) && v.bits == w.bits && w.value < Modulus(v.bits)
      && Eval(v.expr, env) == BitVec(w.bits, w.value)
      && (v.known.Some? ==> v.known.value == Signed(w.value, w.bits))
  }

  lemma ConstantRepresents(env: Assignment, v: Int64, bits: nat)
    requires IsWidth(bits)
    ensures Represents(env, Word(bits, Unsigned(v, bits)), TypedConstant(v, bits))
  {
    SignedRoundTrip(v, bits);
    SignedRoundTrip(Unsigned(v, bits), bits);
  }

  lemma ConditionMeaning(env: Assignment, w: Word, v: SymbolicValue)
    requires Represents(env, w, v)
    ensures Eval(Condition(v), env) == Boolean(w.value != 0)
  {
    if v.known.None? && !v.boolean {
      assert Eval(Rel(Equal, v.expr, ZeroExpr(v)), env) == Boolean(w.value == 0);
    }
  }

  lemma NotMeaning(c: Expr, b: bool, env: Assignment)
    requires Eval(c, env) == Boolean(b)
    ensures Eval(Not(c), env) == Boolean(!b)
  {
  }

  lemma EqzRepresents(env: Assignment, w: Word, v: SymbolicValue)
    requires Represents(env, w, v) && v.bits != 0
    ensures Represents(env, FromBool(w.value == 0), EqzValue(v))
  {
  }

  /** Folding a comparison gives what the comparison means. */
  lemma CompareFolds(op: Byte, a: nat, b: nat, bits: nat)
    requires IsRelop(op) && IsWidth(bits) && a < Modulus(bits) && b < Modulus(bits)
    ensures Compare(op, Signed(a, bits), Signed(b, bits), bits) == Relop(op, a, b, bits)
    ensures RelMeaning(ComparisonOperator(op).value, a, b, bits) == Relop(op, a, b, bits)
  {
    UnsignedOfSigned(a, bits);
    UnsignedOfSigned(b, bits);
  }

  lemma UnsignedOfSigned(a: nat, bits: nat)
    requires IsWidth(bits) && a < Modulus(bits)
    ensures (if bits < 64 then Signed(a, bits) % TWO64 % TWO32 else Signed(a, bits) % TWO64) == a
    ensures Signed(Signed(a, bits) % Modulus(bits), bits) == Signed(a, bits)
  {
  }

  lemma CompareRepresents(env: Assignment, op: Byte, x: Word, a: SymbolicValue, y: Word, b: SymbolicValue)
    requires IsRelop(op) && Represents(env, x, a) && Represents(env, y, b)
    requires a.bits != 0 && a.bits == b.bits
    ensures Represents(env, FromBool(Relop(op, x.value, y.value, x.bits)),
                       CompareValues(op, ComparisonOperator(op).value, a, b))
  {
    CompareFolds(op, x.value, y.value, x.bits);
  }

  /** Folding through uint64 arithmetic gives the wrapped result at the operand width. */
  lemma ArithFolds(op: Byte, a: nat, b: nat, bits: nat)
    requires IsBinop(op) && bits == NamedWidth(op) && a < Modulus(bits) && b < Modulus(bits)
    ensures WrappedArithmetic(Signed(a, bits), Signed(b, bits), op, bits) == Signed(Binop(op, a, b, bits), bits)
    ensures ArithMeaning(ArithmeticOperator(op), a, b, bits) == Binop(op, a, b, bits)
  {
    var sa, sb := Signed(a, bits), Signed(b, bits);
    if bits == 32 {
      ExtendedOperand(a);
      ExtendedOperand(b);
      TruncatedOperations(sa % TWO64, sb % TWO64, a, b, Extension(a), Extension(b));
      LowBits(op, sa, sb, sa % TWO64, sb % TWO64);
    } else {
      UnsignedOfSigned(a, bits);
      UnsignedOfSigned(b, bits);
    }
  }

  function Extension(a: nat): int {
    if a < TWO32 / 2 then 0 else TWO32 - 1
  }

  lemma ExtendedOperand(a: nat)
    requires a < TWO32
    ensures Signed(a, 32) % TWO64 == a + Extension(a) * TWO32
  {
  }

  lemma LowBits(op: Byte, a: Int64, b: Int64, x: nat, y: nat)
    requires x == a % TWO64 && y == b % TWO64
    requires 0x6a <= op <= 0x6c
    ensures WrappedArithmetic(a, b, op, 32) ==
            Signed((if op == 0x6a then x + y else if op == 0x6b then x - y else x * y) % TWO64 % TWO32, 32)
  {
  }

  /** Operations on operands extended above bit 32 agree in their low 32 bits. */
  lemma TruncatedOperations(x: int, y: int, a: int, b: int, i: int, j: int)
    requires x == a + i * TWO32 && y == b + j * TWO32
    ensures (x + y) % TWO64 % TWO32 == (a + b) % TWO32
    ensures (x - y) % TWO64 % TWO32 == (a - b) % TWO32
    ensures x * y % TWO64 % TWO32 == a * b % TWO32
  {
    Truncates(x + y, a + b, i + j);
    Truncates(x - y, a - b, i - j);
    var k := a * j + i * b + i * j * TWO32;
    assert x * y == a * b + k * TWO32;
    Truncates(x * y, a * b, k);
  }

  lemma Truncates(x: int, y: int, k: int)
    requires x == y + k * TWO32
    ensures x % TWO64 % TWO32 == y % TWO32
  {
    var q := x / TWO64;
    assert x % TWO64 == y + (k - q * TWO32) * TWO32;
    ResidueUnique(x % TWO64, y, k - q * TWO32, TWO32);
  }

  lemma ArithRepresents(env: Assignment, op: Byte, x: Word, a: SymbolicValue, y: Word, b: SymbolicValue)
    requires IsBinop(op) && Represents(env, x, a) && Represents(env, y, b)
    requires a.bits == b.bits == NamedWidth(op)
    ensures Represents(env, Word(x.bits, Binop(op, x.value, y.value, x.bits)), ArithValues(op, NamedWidth(op), a, b))
  {
    ArithFolds(op, x.value, y.value, x.bits);
    var r := Binop(op, x.value, y.value, x.bits);
    UnsignedOfSigned(r, x.bits);
    if a.known.Some? && b.known.Some? {
      ConstantRepresents(env, WrappedArithmetic(a.known.value, b.known.value, op, x.bits), x.bits);
    }
  }

  // ----- one instruction -----

  predicate RepresentsAll(env: Assignment, ws: seq<Word>, vs: seq<SymbolicValue>) {
    |ws| == |vs| && forall i :: 0 <= i < |ws| ==> Represents(env, ws[i], vs[i])
  }

  predicate Related(env: Assignment, m: Machine, s: SymbolicState) {
    RepresentsAll(env, m.locals, s.locals) && RepresentsAll(env, m.stack, s.stack)
  }

  lemma PopRelated(env: Assignment, m: Machine, s: SymbolicState)
    requires Related(env, m, s) && s.stack != []
    ensures m.stack != [] && Related(env, m.Pop(), s.Pop()) && Represents(env, m.Top(), s.Top())
  {
  }

  lemma PushRelated(env: Assignment, m: Machine, s: SymbolicState, w: Word, v: SymbolicValue)
    requires Related(env, m, s) && Represents(env, w, v)
    ensures Related(env, m.Push(w), s.Push(v))
  {
  }

  /** A symbolic step that succeeds is matched by a concrete step. */
  lemma StepSimulates(env: Assignment, m: Machine, s: SymbolicState, ins: Instruction)
    requires Related(env, m, s) && ExecuteInstruction(s, ins).Some?
    ensures ExecuteBasic(false, m, ins).Some?
    ensures Related(env, ExecuteBasic(false, m, ins).value, ExecuteInstruction(s, ins).value)
  {
    var op := ins.opcode;
    if op == OP_LOCAL_GET {
      PushRelated(env, m, s, m.locals[ins.index], s.locals[ins.index]);
    } else if op == OP_LOCAL_SET || op == OP_LOCAL_TEE {
      PopRelated(env, m, s);
    } else if op == OP_I32_CONST || op == OP_I64_CONST {
      ConstantRepresents(env, ins.value, if op == OP_I32_CONST then 32 else 64);
    } else if op == OP_I32_EQZ || op == OP_I64_EQZ {
      PopRelated(env, m, s);
      EqzRepresents(env, m.Top(), s.Top());
    } else if op == OP_DROP {
      PopRelated(env, m, s);
    } else {
      BinarySimulates(env, m, s, ins);
    }
  }

  lemma BinarySimulates(env: Assignment, m: Machine, s: SymbolicState, ins: Instruction)
    requires Related(env, m, s) && ExecuteInstruction(s, ins).Some?
    requires ComparisonOperator(ins.opcode).Some? || ArithmeticWidth(ins.opcode).Some?
    ensures ExecuteBasic(false, m, ins).Some?
    ensures Related(env, ExecuteBasic(false, m, ins).value, ExecuteInstruction(s, ins).value)
  {
    PopRelated(env, m, s);
    PopRelated(env, m.Pop(), s.Pop());
    var y, x, b, a := m.Top(), m.Pop().Top(), s.Top(), s.Pop().Top();
    if ComparisonOperator(ins.opcode).Some? {
      CompareRepresents(env, ins.opcode, x, a, y, b);
    } else {
      ArithRepresents(env, ins.opcode, x, a, y, b);
    }
  }

  // ----- live states -----

  /** The states whose path constraints are true under the assignment. */
  function Live(states: seq<SymbolicState>, env: Assignment): seq<SymbolicState> {
    if states == [] then []
    else (if Holds(states[0].constraints, env) then [states[0]] else []) + Live(states[1..], env)
  }

  lemma {:induction false} LiveAppend(a: seq<SymbolicState>, b: seq<SymbolicState>, env: Assignment)
    ensures Live(a + b, env) == Live(a, env) + Live(b, env)
    decreases |a|
  {
    if a == [] {
      assert a + b == b;
    } else {
      assert (a + b)[1..] == a[1..] + b;
      LiveAppend(a[1..], b, env);
    }
  }

  lemma {:induction false} NoneLive(states: seq<SymbolicState>, env: Assignment)
    requires forall t :: t in states ==> !Holds(t.constraints, env)
    ensures Live(states, env) == []
    decreases |states|
  {
    if states != [] {
      assert states[0] in states;
      NoneLive(states[1..], env);
    }
  }

  ghost predicate NoLive(o: Outcome, env: Assignment) {
    o.Done? ==> Live(o.states, env) == []
  }

  /** A state with a false constraint never leads to a live one. */
  lemma DeadStaysDead(cfg: Config, env: Assignment, program: seq<Instruction>, s: SymbolicState)
    requires !Holds(s.constraints, env)
    ensures NoLive(RunState(cfg, program, s), env)
  {
    var grows := (a: SymbolicState, b: SymbolicState) => a.constraints <= b.constraints;
    assert Inherited(cfg, grows) by {
      forall a, b | Successor(cfg, a, b)
        ensures grows(a, b)
      {
        StepKeepsPath(cfg, a, b);
      }
    }
    EveryTerminal(cfg, grows, program, s);
    var o := RunState(cfg, program, s);
    if o.Done? {
      forall t | t in o.states
        ensures !Holds(t.constraints, env)
      {
        assert grows(s, t);
        var i :| 0 <= i < |s.constraints| && Eval(s.constraints[i], env) != Boolean(true);
        assert t.constraints[i] == s.constraints[i];
      }
      NoneLive(o.states, env);
    }
  }

  /** Only the live states of the input contribute live states to the output. */
  lemma {:induction false} LiveEach(f: SymbolicState -> Outcome, states: seq<SymbolicState>, env: Assignment)
    requires forall t: SymbolicState :: !Holds(t.constraints, env) ==> NoLive(f(t), env)
    requires Each(f, states).Done?
    ensures Live(states, env) == [] ==> Live(Each(f, states).states, env) == []
    ensures |Live(states, env)| == 1 ==>
            var t := Live(states, env)[0]; f(t).Done? && Live(Each(f, states).states, env) == Live(f(t).states, env)
    decreases |states|
  {
    if states != [] {
      LiveEach(f, states[1..], env);
      LiveAppend(f(states[0]).states, Each(f, states[1..]).states, env);
      if !Holds(states[0].constraints, env) {
        assert NoLive(f(states[0]), env);
      }
    }
  }

  // ----- whole programs -----

  /** When pruning is on, the solver is trusted about this assignment. */
  ghost predicate Trusted(cfg: Config, env: Assignment) {
    cfg.prune ==> forall cs :: Holds(cs, env) ==> !cfg.solve(cs).Unsat?
  }

  /**
   The outcome follows the concrete execution: one live state, related to the final machine, when
   the execution ends within the depth limit, and none when it does not.
   */
  ghost predicate Tracks(env: Assignment, e: Execution, o: Outcome, depth: nat, maxDepth: nat) {
    o.Done? ==>
      var live := Live(o.states, env);
      if e.Finished? && depth + e.steps <= maxDepth
      then |live| == 1 && Related(env, e.machine, live[0]) && live[0].depth == depth + e.steps
      else live == []
  }

  lemma {:induction false} RunTracks(cfg: Config, env: Assignment, program: seq<Instruction>,
                                     s: SymbolicState, m: Machine)
    requires Trusted(cfg, env) && Related(env, m, s) && Holds(s.constraints, env) && s.depth <= cfg.maxDepth
    ensures Tracks(env, Execute(false, program, m), RunState(cfg, program, s), s.depth, cfg.maxDepth)
    decreases program, 0
  {
    hide StepState, ExecuteOne, RepresentsAll;
    if program == [] {
      assert [s][1..] == [] && Live([s], env) == [s];
    } else if RunState(cfg, program, s).Done? {
      StepTracks(cfg, env, program[0], s, m);
      var mid, e := StepState(cfg, program[0], s), ExecuteOne(false, program[0], m);
      var rest := Runner(cfg, program[1..]);
      forall t: SymbolicState | !Holds(t.constraints, env)
        ensures NoLive(rest(t), env)
      {
        DeadStaysDead(cfg, env, program[1..], t);
      }
      LiveEach(rest, mid.states, env);
      if e.Finished? && s.depth + e.steps <= cfg.maxDepth {
        var t := Live(mid.states, env)[0];
        LiveHolds(mid.states, env);
        RunTracks(cfg, env, program[1..], t, e.machine);
      }
    }
  }

  lemma {:induction false} LiveHolds(states: seq<SymbolicState>, env: Assignment)
    ensures forall t :: t in Live(states, env) ==> Holds(t.constraints, env)
    decreases |states|
  {
    if states != [] {
      LiveHolds(states[1..], env);
    }
  }

  lemma HoldsAlso(cs: seq<Expr>, c: Expr, env: Assignment)
    ensures Holds(cs + [c], env) <==> Holds(cs, env) && Eval(c, env) == Boolean(true)
  {
    if Holds(cs + [c], env) {
      assert forall i :: 0 <= i < |cs| ==> (cs + [c])[i] == cs[i];
      assert (cs + [c])[|cs|] == c;
    }
  }

  lemma {:induction false} StepTracks(cfg: Config, env: Assignment, ins: Instruction, s: SymbolicState, m: Machine)
    requires Trusted(cfg, env) && Related(env, m, s) && Holds(s.constraints, env) && s.depth <= cfg.maxDepth
    ensures Tracks(env, ExecuteOne(false, ins, m), StepState(cfg, ins, s), s.depth, cfg.maxDepth)
    decreases ins, 1
  {
    hide ExecuteInstruction, ExecuteBasic;
    if s.depth < cfg.maxDepth {
      if ins.opcode != OP_IF {
        BasicTracks(cfg, env, ins, s, m);
      } else if s.stack != [] {
        IfTracks(cfg, env, ins, s, m);
      }
    }
  }

  lemma {:induction false} BasicTracks(cfg: Config, env: Assignment, ins: Instruction, s: SymbolicState, m: Machine)
    requires Related(env, m, s) && Holds(s.constraints, env) && s.depth < cfg.maxDepth
    requires ins.opcode != OP_IF
    ensures Tracks(env, ExecuteOne(false, ins, m), StepState(cfg, ins, s), s.depth, cfg.maxDepth)
  {
    hide ExecuteInstruction, ExecuteBasic;
    var u := s.(depth := s.depth + 1);
    if ExecuteInstruction(u, ins).Some? {
      StepSimulates(env, m, u, ins);
      StepKeepsConstraints(u, ins);
      var t := ExecuteInstruction(u, ins).value;
      assert [t][1..] == [] && Live([t], env) == [t];
    }
  }

  lemma {:induction false} IfTracks(cfg: Config, env: Assignment, ins: Instruction, s: SymbolicState, m: Machine)
    requires Trusted(cfg, env) && Related(env, m, s) && Holds(s.constraints, env) && s.depth < cfg.maxDepth
    requires ins.opcode == OP_IF && s.stack != []
    ensures Tracks(env, ExecuteOne(false, ins, m), StepState(cfg, ins, s), s.depth, cfg.maxDepth)
    decreases ins, 0
  {
    hide ExecuteInstruction, ExecuteBasic, Represents, RepresentsAll, Eval, Condition, Execute, Branch, Live, Holds;
    var u := s.(depth := s.depth + 1);
    PopRelated(env, m, u);
    ConditionMeaning(env, m.Top(), u.Top());
    var c, taken := Condition(u.Top()), m.Top().value != 0;
    var yes, no := u.Pop().Assume(c), u.Pop().Assume(Not(c));
    NotMeaning(c, taken, env);
    HoldsAlso(u.constraints, c, env);
    HoldsAlso(u.constraints, Not(c), env);
    ArmTracks(cfg, env, ins.consequent, yes, m.Pop(), taken);
    ArmTracks(cfg, env, ins.otherwise, no, m.Pop(), !taken);
    var a, b := Branch(cfg, ins.consequent, yes), Branch(cfg, ins.otherwise, no);
    if a.Done? && b.Done? {
      LiveAppend(a.states, b.states, env);
    }
  }

  lemma StepKeepsConstraints(s: SymbolicState, ins: Instruction)
    requires ExecuteInstruction(s, ins).Some?
    ensures ExecuteInstruction(s, ins).value.constraints == s.constraints
    ensures ExecuteInstruction(s, ins).value.depth == s.depth
  {
  }

  /** The arm the machine takes is followed; the other one yields nothing live. */
  lemma {:induction false} ArmTracks(cfg: Config, env: Assignment, code: seq<Instruction>,
                                     candidate: SymbolicState, m: Machine, taken: bool)
    requires Trusted(cfg, env) && Related(env, m, candidate) && candidate.depth <= cfg.maxDepth
    requires candidate.constraints != []
    requires Holds(candidate.constraints, env) <==> taken
    ensures !taken ==> NoLive(Branch(cfg, code, candidate), env)
    ensures taken ==> Tracks(env, Execute(false, code, m), Branch(cfg, code, candidate), candidate.depth, cfg.maxDepth)
    decreases code, 1
  {
    if taken {
      RunTracks(cfg, env, code, candidate, m);
    } else {
      DeadStaysDead(cfg, env, code, candidate);
    }
  }

  // ----- reports -----

  /** The words a call with these arguments starts from. */
  function Arguments(req: Request, env: Assignment): Machine
    requires Accepted(req) && InDomain(env, Widths(req.fn.params))
  {
    var fn := req.fn;
    Machine(
      seq(|fn.params|, i requires 0 <= i < |fn.params| =>
        var bits := WidthOf(fn.params[i]).value;
        Word(bits, if IsGiven(req, i) then Unsigned(req.given[i].value, bits) else env[i]))
      + seq(|fn.locals|, i requires 0 <= i < |fn.locals| => Word(WidthOf(fn.locals[i]).value, 0)),
      [])
  }

  lemma InitialRelated(req: Request, env: Assignment)
    requires Accepted(req) && InDomain(env, Widths(req.fn.params))
    ensures Related(env, Arguments(req, env), Initial(req))
  {
    var m, s, fn := Arguments(req, env), Initial(req), req.fn;
    forall i | 0 <= i < |m.locals|
      ensures Represents(env, m.locals[i], s.locals[i])
    {
      if i < |fn.params| {
        if IsGiven(req, i) {
          ConstantRepresents(env, req.given[i].value, WidthOf(fn.params[i]).value);
        } else {
          assert env[i] < Modulus(Widths(fn.params)[i]);
        }
      } else {
        ConstantRepresents(env, 0, WidthOf(fn.locals[i - |fn.params|]).value);
      }
    }
  }

  function LivePaths(paths: seq<Path>, env: Assignment): seq<Path> {
    if paths == [] then []
    else
      var p := paths[|paths| - 1];
      LivePaths(paths[..|paths| - 1], env) + (if Holds(p.constraints, env) then [p] else [])
  }

  lemma LivePathsSnoc(paths: seq<Path>, p: Path, env: Assignment)
    ensures LivePaths(paths + [p], env) == LivePaths(paths, env) + if Holds(p.constraints, env) then [p] else []
  {
    assert (paths + [p])[..|paths|] == paths;
  }

  /** The paths show exactly the outputs of the states. */
  ghost predicate Shows(paths: seq<Path>, states: seq<SymbolicState>, results: seq<ValueType>) {
    && |paths| == |states|
    && forall i :: 0 <= i < |states| ==>
         |results| <= |states[i].stack| && paths[i].output == Render(results, states[i].stack)
  }

  /** The live paths of a report are the live terminal states, rendered. */
  lemma {:induction false} AssembleLive(cfg: Config, results: seq<ValueType>, states: seq<SymbolicState>,
                                        env: Assignment)
    requires Trusted(cfg, env) && Assemble(cfg, results, states).Some?
    ensures Shows(LivePaths(Assemble(cfg, results, states).value.0, env), Live(states, env), results)
    decreases |states|
  {
    if states != [] {
      hide *;
      var init, s := states[..|states| - 1], states[|states| - 1];
      AssembleLast(cfg, results, states);
      AssembleLive(cfg, results, init, env);
      LiveSnoc(init, s, env);
      assert states == init + [s];
      var paths := Assemble(cfg, results, init).value.0;
      var feasible := Feasibility(cfg.solve, s.constraints).value;
      if !feasible && cfg.prune {
        PrunedIsDead(cfg, s.constraints, env);
      } else {
        LivePathsSnoc(paths, Path(s.constraints, feasible, Render(results, s.stack)), env);
        ShowsSnoc(LivePaths(paths, env), Live(init, env), results, s, feasible);
      }
    }
  }

  lemma PrunedIsDead(cfg: Config, constraints: seq<Expr>, env: Assignment)
    requires Trusted(cfg, env) && cfg.prune && Feasibility(cfg.solve, constraints) == Some(false)
    ensures !Holds(constraints, env)
  {
  }

  lemma LiveSnoc(states: seq<SymbolicState>, s: SymbolicState, env: Assignment)
    ensures Live(states + [s], env) == Live(states, env) + if Holds(s.constraints, env) then [s] else []
  {
    assert [s][1..] == [];
    LiveAppend(states, [s], env);
  }

  /** How the last terminal state extends the report. */
  lemma AssembleLast(cfg: Config, results: seq<ValueType>, states: seq<SymbolicState>)
    requires states != [] && Assemble(cfg, results, states).Some?
    ensures Assemble(cfg, results, states[..|states| - 1]).Some?
    ensures var s := states[|states| - 1];
            var before := Assemble(cfg, results, states[..|states| - 1]).value;
            var after := Assemble(cfg, results, states).value;
            && Feasibility(cfg.solve, s.constraints).Some?
            && var feasible := Feasibility(cfg.solve, s.constraints).value;
            if !feasible && cfg.prune then after == (before.0, before.1 + 1)
            else
              && |results| <= |s.stack|
              && after == (before.0 + [Path(s.constraints, feasible, Render(results, s.stack))], before.1)
  {
  }

  lemma ShowsSnoc(paths: seq<Path>, states: seq<SymbolicState>, results: seq<ValueType>,
                  s: SymbolicState, feasible: bool)
    requires Shows(paths, states, results) && |results| <= |s.stack|
    ensures Shows(paths + [Path(s.constraints, feasible, Render(results, s.stack))], states + [s], results)
  {
  }

  /** The rendered result stands for the word. */
  predicate Denotes(env: Assignment, out: Output, w: Word) {
    match out
    case Known(k) => k == Signed(w.value, w.bits)
    case Term(e) =>
      || Eval(e, env) == BitVec(w.bits, w.value)
      || (w.bits == 32 && w.value <= 1 && Eval(e, env) == Boolean(w.value == 1))
  }

  /** Each output denotes the machine's result, where the machine's word has the declared type. */
  predicate OutputDenotes(env: Assignment, results: seq<ValueType>, output: seq<Output>, m: Machine) {
    && |output| == |results| <= |m.stack|
    && forall i :: 0 <= i < |results| ==>
         var w := m.stack[|m.stack| - |results| + i];
         WidthOf(results[i]) == Some(w.bits) ==> Denotes(env, output[i], w)
  }

  lemma RenderDenotes(env: Assignment, results: seq<ValueType>, m: Machine, s: SymbolicState)
    requires Related(env, m, s) && |results| <= |s.stack|
    ensures OutputDenotes(env, results, Render(results, s.stack), m)
  {
    forall i | 0 <= i < |results|
      ensures var w := m.stack[|m.stack| - |results| + i];
              WidthOf(results[i]) == Some(w.bits) ==> Denotes(env, Render(results, s.stack)[i], w)
    {
      var w, v := m.stack[|m.stack| - |results| + i], s.stack[|s.stack| - |results| + i];
      assert Represents(env, w, v);
      UnsignedOfSigned(w.value, w.bits);
    }
  }

  /**
   The reported paths partition the argument vectors. An execution that ends within the depth limit
   makes the constraints of exactly one path true, and that path's output denotes its result; any
   other execution makes none true. This holds with and without pruning.
   */
  lemma PathsPartitionArguments(req: Request, solve: Solver, env: Assignment)
    requires ReportOf(req, solve).Some?
    requires InDomain(env, Widths(req.fn.params))
    requires req.prune ==> Sound(solve, Widths(req.fn.params))
    ensures var e := Execute(false, req.fn.body, Arguments(req, env));
            var live := LivePaths(ReportOf(req, solve).value.paths, env);
            if e.Finished? && e.steps <= (if req.maxDepth == 0 then 100 else req.maxDepth)
            then |live| == 1 && OutputDenotes(env, req.fn.results, live[0].output, e.machine)
            else live == []
  {
    var cfg, s := ConfigOf(req, solve), Initial(req);
    assert Trusted(cfg, env);
    InitialRelated(req, env);
    RunTracks(cfg, env, req.fn.body, s, Arguments(req, env));
    var o := Explore(req, solve);
    AssembleLive(cfg, req.fn.results, o.states, env);
    var e, live := Execute(false, req.fn.body, Arguments(req, env)), Live(o.states, env);
    if e.Finished? && e.steps <= cfg.maxDepth {
      RenderDenotes(env, req.fn.results, e.machine, live[0]);
    }
  }

  /** A machine whose results have their declared types. */
  predicate WellTyped(results: seq<ValueType>, m: Machine) {
    && |results| <= |m.stack|
    && forall i :: 0 <= i < |results| ==> WidthOf(results[i]) == Some(m.stack[|m.stack| - |results| + i].bits)
  }

  /** For executions that pass the validation checks, the one live path shows every result exactly. */
  lemma ValidatedExecution(req: Request, solve: Solver, env: Assignment)
    requires ReportOf(req, solve).Some?
    requires InDomain(env, Widths(req.fn.params))
    requires req.prune ==> Sound(solve, Widths(req.fn.params))
    requires var e := Execute(true, req.fn.body, Arguments(req, env));
             && e.Finished? && e.steps <= (if req.maxDepth == 0 then 100 else req.maxDepth)
             && WellTyped(req.fn.results, e.machine)
    ensures var m := Execute(true, req.fn.body, Arguments(req, env)).machine;
            var live := LivePaths(ReportOf(req, solve).value.paths, env);
            && |live| == 1 && |live[0].output| == |req.fn.results|
            && forall i :: 0 <= i < |req.fn.results| ==>
                 Denotes(env, live[0].output[i], m.stack[|m.stack| - |req.fn.results| + i])
  {
    StrictAgrees(req.fn.body, Arguments(req, env));
    PathsPartitionArguments(req, solve, env);
  }

  // ----- constant folding -----

  /** A known integer is in signed range and is what the value's expression means. */
  predicate FoldedCorrectly(env: Assignment, v: SymbolicValue) {
    v.known.Some? ==>
      var k := v.known.value;
      if v.boolean then 0 <= k <= 1 && Eval(v.expr, env) == Boolean(k == 1)
      else
        && IsWidth(v.bits) && -Modulus(v.bits) / 2 <= k < Modulus(v.bits) / 2
        && Eval(v.expr, env) == BitVec(v.bits, Unsigned(k, v.bits))
  }

  ghost predicate Sane(env: Assignment, s: SymbolicState) {
    exists m :: Related(env, m, s)
  }

  /** Every step keeps every value well sorted and correctly folded, whether or not the path is live. */
  lemma StepKeepsSane(cfg: Config, env: Assignment, s: SymbolicState, t: SymbolicState)
    requires Successor(cfg, s, t) && Sane(env, s)
    ensures Sane(env, t)
  {
    hide ExecuteInstruction, ExecuteBasic;
    var m :| Related(env, m, s);
    var u := s.(depth := s.depth + 1);
    if ins :| ExecuteInstruction(u, ins) == Some(t) {
      StepSimulates(env, m, u, ins);
    } else {
      PopRelated(env, m, u);
      assert Related(env, m.Pop(), t);
    }
  }

  lemma {:induction false} ChainKeepsSane(cfg: Config, env: Assignment, states: seq<SymbolicState>)
    requires Chain(cfg, states) && Sane(env, states[0])
    ensures Sane(env, states[|states| - 1])
    decreases |states|
  {
    hide Successor, Sane;
    if |states| > 1 {
      var n := |states| - 1;
      ChainKeepsSane(cfg, env, states[..n]);
      StepKeepsSane(cfg, env, states[n - 1], states[n]);
    }
  }

  /** In every reachable state, under every assignment, folding agrees with the bit-vector meaning. */
  lemma FoldingAgrees(req: Request, solve: Solver, env: Assignment, t: SymbolicState, v: SymbolicValue)
    requires Accepted(req) && InDomain(env, Widths(req.fn.params))
    requires Reaches(ConfigOf(req, solve), Initial(req), t)
    requires v in t.stack || v in t.locals
    ensures FoldedCorrectly(env, v) && Eval(v.expr, env) != IllSorted
  {
    hide Successor;
    var cfg, s := ConfigOf(req, solve), Initial(req);
    var states :| Chain(cfg, states) && states[0] == s && states[|states| - 1] == t;
    InitialRelated(req, env);
    assert Sane(env, s);
    ChainKeepsSane(cfg, env, states);
    SaneFolds(env, t, v);
  }

  lemma SaneFolds(env: Assignment, s: SymbolicState, v: SymbolicValue)
    requires Sane(env, s) && (v in s.stack || v in s.locals)
    ensures FoldedCorrectly(env, v) && Eval(v.expr, env) != IllSorted
  {
    var m :| Related(env, m, s);
    if v in s.stack {
      var i :| 0 <= i < |s.stack| && s.stack[i] == v;
      RepresentsFolds(env, m.stack[i], v);
    } else {
      var i :| 0 <= i < |s.locals| && s.locals[i] == v;
      RepresentsFolds(env, m.locals[i], v);
    }
  }

  lemma RepresentsFolds(env: Assignment, w: Word, v: SymbolicValue)
    requires Represents(env, w, v)
    ensures FoldedCorrectly(env, v) && Eval(v.expr, env) != IllSorted
  {
    SignedRoundTrip(w.value, w.bits);
  }
}
