/**
 Pruning preserves meaning: with a solver that always answers correctly, a pruned run reports
 exactly the feasible paths of the unpruned run, in the same order, and explores no more.
 */
module SymbolicPruning {
  import opened Wrappers
  import opened Smt
  import opened SymbolicExecutor
  import opened SymbolicInvariants
  import opened SymbolicReport
  import opened SymbolicSoundness

  /** Whether some arguments drive execution down this path. */
  ghost predicate Feasible(s: SymbolicState, widths: seq<nat>) {
    Satisfiable(s.constraints, widths)
  }

  ghost function FeasibleOf(states: seq<SymbolicState>, widths: seq<nat>): seq<SymbolicState> {
    if states == [] then []
    else (if Feasible(states[0], widths) then [states[0]] else []) + FeasibleOf(states[1..], widths)
  }

  lemma {:induction false} FeasibleAppend(a: seq<SymbolicState>, b: seq<SymbolicState>, widths: seq<nat>)
    ensures FeasibleOf(a + b, widths) == FeasibleOf(a, widths) + FeasibleOf(b, widths)
    decreases |a|
  {
    if a == [] {
      assert a + b == b;
    } else {
      assert (a + b)[1..] == a[1..] + b;
      FeasibleAppend(a[1..], b, widths);
    }
  }

  /** What the pruned outcome owes the unpruned one. */
  ghost predicate Prunes(full: Outcome, pruned: Outcome, widths: seq<nat>) {
    full.Done? ==>
      && pruned.Done?
      && pruned.states == FeasibleOf(full.states, widths)
      && pruned.explored <= full.explored
  }

  lemma PrefixSatisfiable(a: seq<Expr>, b: seq<Expr>, widths: seq<nat>)
    ensures a <= b && Satisfiable(b, widths) ==> Satisfiable(a, widths)
  {
    if a <= b && Satisfiable(b, widths) {
      var env :| InDomain(env, widths) && Holds(b, env);
      assert forall i :: 0 <= i < |a| ==> a[i] == b[i];
      assert Holds(a, env);
    }
  }

  /** An infeasible state never leads to a feasible one. */
  lemma InfeasibleStays(cfg: Config, program: seq<Instruction>, s: SymbolicState, widths: seq<nat>)
    requires !Feasible(s, widths) && RunState(cfg, program, s).Done?
    ensures FeasibleOf(RunState(cfg, program, s).states, widths) == []
  {
    var grows := (a: SymbolicState, b: SymbolicState) => a.constraints <= b.constraints;
    assert Inherited(cfg, grows) by {
      forall a, b | Successor(cfg, a, b)
        ensures grows(a, b)
      {
        StepKeepsPath(cfg, a, b);
      }
    }
    EveryTerminal(cfg, grows, program, s);
    forall t | t in RunState(cfg, program, s).states
      ensures !Feasible(t, widths)
    {
      assert grows(s, t);
      PrefixSatisfiable(s.constraints, t.constraints, widths);
    }
    NoneFeasible(RunState(cfg, program, s).states, widths);
  }

  lemma {:induction false} NoneFeasible(states: seq<SymbolicState>, widths: seq<nat>)
    requires forall t :: t in states ==> !Feasible(t, widths)
    ensures FeasibleOf(states, widths) == []
    decreases |states|
  {
    if states != [] {
      assert states[0] in states;
      NoneFeasible(states[1..], widths);
    }
  }

  /** Two configurations that differ only in pruning, with a decisive solver. */
  ghost predicate Paired(full: Config, lean: Config, widths: seq<nat>) {
    !full.prune && lean == full.(prune := true) && Decisive(full.solve, widths)
  }

  lemma {:induction false} RunPrunes(full: Config, lean: Config, program: seq<Instruction>, s: SymbolicState,
                                     widths: seq<nat>)
    requires Paired(full, lean, widths) && Feasible(s, widths)
    ensures Prunes(RunState(full, program, s), RunState(lean, program, s), widths)
    decreases program, 0
  {
    if program == [] {
      assert [s][1..] == [];
    } else if RunState(full, program, s).Done? {
      StepPrunes(full, lean, program[0], s, widths);
      var mid := StepState(full, program[0], s);
      forall t: SymbolicState
        ensures EachPruned(Runner(full, program[1..])(t), Runner(lean, program[1..])(t), t, widths)
      {
        if Feasible(t, widths) {
          RunPrunes(full, lean, program[1..], t, widths);
        } else if RunState(full, program[1..], t).Done? {
          InfeasibleStays(full, program[1..], t, widths);
        }
      }
      EachPrunes(Runner(full, program[1..]), Runner(lean, program[1..]), mid.states, widths);
    }
  }

  ghost predicate EachPruned(full: Outcome, lean: Outcome, t: SymbolicState, widths: seq<nat>) {
    if Feasible(t, widths) then Prunes(full, lean, widths)
    else full.Done? ==> FeasibleOf(full.states, widths) == []
  }

  /** Running only the feasible states is enough for the feasible results. */
  lemma {:induction false} EachPrunes(f: SymbolicState -> Outcome, g: SymbolicState -> Outcome,
                                      states: seq<SymbolicState>, widths: seq<nat>)
    requires forall t :: EachPruned(f(t), g(t), t, widths)
    ensures Prunes(Each(f, states), Each(g, FeasibleOf(states, widths)), widths)
    decreases |states|
  {
    if states != [] && Each(f, states).Done? {
      EachPrunes(f, g, states[1..], widths);
      assert EachPruned(f(states[0]), g(states[0]), states[0], widths);
      FeasibleAppend(f(states[0]).states, Each(f, states[1..]).states, widths);
      if Feasible(states[0], widths) {
        var rest := FeasibleOf(states[1..], widths);
        assert ([states[0]] + rest)[1..] == rest;
      } else {
        assert FeasibleOf(states, widths) == FeasibleOf(states[1..], widths);
      }
    }
  }

  lemma {:induction false} StepPrunes(full: Config, lean: Config, ins: Instruction, s: SymbolicState, widths: seq<nat>)
    requires Paired(full, lean, widths) && Feasible(s, widths)
    ensures Prunes(StepState(full, ins, s), StepState(lean, ins, s), widths)
    decreases ins
  {
    hide ExecuteInstruction;
    var u := s.(depth := s.depth + 1);
    if u.depth <= full.maxDepth && StepState(full, ins, s).Done? {
      if ins.opcode == OP_IF {
        var c := Condition(u.Top());
        var yes, no := u.Pop().Assume(c), u.Pop().Assume(Not(c));
        ArmPrunes(full, lean, ins.consequent, yes, widths);
        ArmPrunes(full, lean, ins.otherwise, no, widths);
        FeasibleAppend(Branch(full, ins.consequent, yes).states, Branch(full, ins.otherwise, no).states, widths);
      } else {
        var t := ExecuteInstruction(u, ins).value;
        StepKeepsConstraints(u, ins);
        assert [t][1..] == [] && FeasibleOf([t], widths) == [t];
      }
    }
  }

  lemma {:induction false} ArmPrunes(full: Config, lean: Config, code: seq<Instruction>, candidate: SymbolicState,
                                     widths: seq<nat>)
    requires Paired(full, lean, widths) && candidate.constraints != []
    ensures Prunes(Branch(full, code, candidate), Branch(lean, code, candidate), widths)
    decreases code, 1
  {
    if Feasible(candidate, widths) {
      RunPrunes(full, lean, code, candidate, widths);
    } else if RunState(full, code, candidate).Done? {
      InfeasibleStays(full, code, candidate, widths);
    }
  }

  // ----- reports -----

  function FeasiblePaths(paths: seq<Path>): seq<Path> {
    if paths == [] then []
    else
      var p := paths[|paths| - 1];
      FeasiblePaths(paths[..|paths| - 1]) + (if p.feasible then [p] else [])
  }

  lemma FeasiblePathsSnoc(paths: seq<Path>, p: Path)
    ensures FeasiblePaths(paths + [p]) == FeasiblePaths(paths) + if p.feasible then [p] else []
  {
    assert (paths + [p])[..|paths|] == paths;
  }

  lemma FeasibleSnoc(states: seq<SymbolicState>, s: SymbolicState, widths: seq<nat>)
    ensures FeasibleOf(states + [s], widths) == FeasibleOf(states, widths) + if Feasible(s, widths) then [s] else []
  {
    assert [s][1..] == [];
    FeasibleAppend(states, [s], widths);
  }

  /** Assembling only the feasible states keeps exactly the feasible paths and drops nothing more. */
  lemma {:induction false} AssemblePrunes(full: Config, lean: Config, results: seq<ValueType>,
                                          states: seq<SymbolicState>, widths: seq<nat>)
    requires Paired(full, lean, widths) && Assemble(full, results, states).Some?
    ensures Assemble(lean, results, FeasibleOf(states, widths))
            == Some((FeasiblePaths(Assemble(full, results, states).value.0), 0))
    decreases |states|
  {
    if states != [] {
      var init, s := states[..|states| - 1], states[|states| - 1];
      hide *;
      AssembleLast(full, results, states);
      AssemblePrunes(full, lean, results, init, widths);
      assert states == init + [s];
      FeasibleSnoc(init, s, widths);
      FeasibilityDecides(full, lean, s, widths);
      var paths := Assemble(full, results, init).value.0;
      var p := Path(s.constraints, Feasible(s, widths), Render(results, s.stack));
      FeasiblePathsSnoc(paths, p);
      if Feasible(s, widths) {
        AssembleSnoc(lean, results, FeasibleOf(init, widths), s, FeasiblePaths(paths));
      } else {
        assert FeasibleOf(states, widths) == FeasibleOf(init, widths);
        assert FeasiblePaths(paths + [p]) == FeasiblePaths(paths);
      }
    }
  }

  lemma FeasibilityDecides(full: Config, lean: Config, s: SymbolicState, widths: seq<nat>)
    requires Paired(full, lean, widths)
    ensures !full.prune && lean.solve == full.solve
    ensures s.constraints != [] ==> Feasibility(full.solve, s.constraints) == Some(Feasible(s, widths))
    ensures s.constraints == [] ==> Feasibility(full.solve, s.constraints) == Some(true) && Feasible(s, widths)
  {
    if s.constraints == [] {
      var zero := seq(|widths|, _ => 0);
      assert InDomain(zero, widths) && Holds([], zero);
    }
  }

  lemma AssembleSnoc(cfg: Config, results: seq<ValueType>, states: seq<SymbolicState>, s: SymbolicState,
                     paths: seq<Path>)
    requires Assemble(cfg, results, states) == Some((paths, 0))
    requires Feasibility(cfg.solve, s.constraints) == Some(true) && |results| <= |s.stack|
    ensures Assemble(cfg, results, states + [s])
            == Some((paths + [Path(s.constraints, true, Render(results, s.stack))], 0))
  {
    assert (states + [s])[..|states|] == states;
  }

  /**
   If the unpruned request succeeds, so does the pruned one. It reports exactly the feasible paths,
   with the same constraints and outputs, in the same order, and it explores no more branches.
   */
  lemma PruningPreservesMeaning(req: Request, solve: Solver)
    requires !req.prune && ReportOf(req, solve).Some?
    requires Decisive(solve, Widths(req.fn.params))
    ensures ReportOf(req.(prune := true), solve).Some?
    ensures var full, lean := ReportOf(req, solve).value, ReportOf(req.(prune := true), solve).value;
            && lean.paths == FeasiblePaths(full.paths)
            && lean.explored <= full.explored
  {
    var pruned, widths := req.(prune := true), Widths(req.fn.params);
    var full, lean, s := ConfigOf(req, solve), ConfigOf(pruned, solve), Initial(req);
    assert Initial(pruned) == s;
    FeasibilityDecides(full, lean, s, widths);
    RunPrunes(full, lean, req.fn.body, s, widths);
    AssemblePrunes(full, lean, req.fn.results, Explore(req, solve).states, widths);
  }
}
