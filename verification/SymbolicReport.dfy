/**
 The entry point of the symbolic executor: the initial state built from parameter and local
 types, the run, and the report with one entry per terminal path.
 */
module SymbolicReport {
  import opened Wrappers
  import opened Bits
  import opened Smt
  import opened SymbolicExecutor

  /** `given[i]` is a concrete argument for parameter i; missing ones stay symbolic. */
  datatype Request = Request(fn: Function, given: seq<Option<Int64>>, maxDepth: int, prune: bool)

  datatype Output = Known(value: Int64) | Term(expr: Expr)
  datatype Path = Path(constraints: seq<Expr>, feasible: bool, output: seq<Output>)
  datatype Report = Report(paths: seq<Path>, explored: nat, pruned: nat)

  predicate Supported(types: seq<ValueType>) {
    forall i :: 0 <= i < |types| ==> types[i] != OtherType
  }

  function Widths(types: seq<ValueType>): seq<nat>
    requires Supported(types)
  {
    seq(|types|, i requires 0 <= i < |types| => WidthOf(types[i]).value)
  }

  predicate IsGiven(req: Request, i: nat) {
    i < |req.given| && req.given[i].Some?
  }

  function Parameter(req: Request, i: nat): SymbolicValue
    requires i < |req.fn.params| && req.fn.params[i] != OtherType
  {
    var bits := WidthOf(req.fn.params[i]).value;
    if IsGiven(req, i) then TypedConstant(req.given[i].value, bits)
    else SymbolicValue(Symbol(i, bits), None, false, bits)
  }

  function Initial(req: Request): SymbolicState
    requires Supported(req.fn.params) && Supported(req.fn.locals)
  {
    var fn := req.fn;
    SymbolicState(
      seq(|fn.params|, i requires 0 <= i < |fn.params| => Parameter(req, i))
      + seq(|fn.locals|, i requires 0 <= i < |fn.locals| => TypedConstant(0, WidthOf(fn.locals[i]).value)),
      [], [], 0)
  }

  function EffectiveDepth(req: Request): nat
    requires 0 <= req.maxDepth
  {
    if req.maxDepth == 0 then DEFAULT_MAX_DEPTH else req.maxDepth
  }

  predicate Accepted(req: Request) {
    0 <= req.maxDepth <= MAX_DEPTH && Supported(req.fn.params) && Supported(req.fn.locals)
  }

  function ConfigOf(req: Request, solve: Solver): Config
    requires Accepted(req)
  {
    Config(EffectiveDepth(req), req.prune, solve)
  }

  /** The outcome of executing the body from the initial state. */
  function Explore(req: Request, solve: Solver): Outcome
    requires Accepted(req)
  {
    RunState(ConfigOf(req, solve), req.fn.body, Initial(req))
  }

  function RenderValue(t: ValueType, v: SymbolicValue): Output {
    match v.known
    case Some(k) => Known(if t == I32 then Signed(k % TWO32, 32) else k)
    case None => Term(v.expr)
  }

  /** The declared results, read from the top of the stack. */
  function Render(results: seq<ValueType>, stack: seq<SymbolicValue>): seq<Output>
    requires |results| <= |stack|
  {
    seq(|results|, i requires 0 <= i < |results| =>
      RenderValue(results[i], stack[|stack| - |results| + i]))
  }

  /** The reported paths and the number of further states dropped as infeasible. */
  function Assemble(cfg: Config, results: seq<ValueType>, states: seq<SymbolicState>): Option<(seq<Path>, nat)> {
    if states == [] then Some(([], 0))
    else
      var s := states[|states| - 1];
      var (paths, dropped) :- Assemble(cfg, results, states[..|states| - 1]);
      var feasible :- Feasibility(cfg.solve, s.constraints);
      if !feasible && cfg.prune then Some((paths, dropped + 1))
      else if |s.stack| < |results| then None
      else Some((paths + [Path(s.constraints, feasible, Render(results, s.stack))], dropped))
  }

  /** The report of a request; None for every error. */
  function ReportOf(req: Request, solve: Solver): Option<Report> {
    if !Accepted(req) then None
    else
      var o := Explore(req, solve);
      if o.Failed? || 1 + o.explored > MAX_EXPLORED then None
      else
        var (paths, dropped) :- Assemble(ConfigOf(req, solve), req.fn.results, o.states);
        Some(Report(paths, 1 + o.explored, o.pruned + dropped))
  }

  /** The locals a call starts with; None when a type is unsupported. */
  method BuildLocals(req: Request) returns (r: Option<seq<SymbolicValue>>)
    ensures r.Some? <==> Supported(req.fn.params) && Supported(req.fn.locals)
    ensures r.Some? ==> r.value == Initial(req).locals
  {
    var fn := req.fn;
    var locals: seq<SymbolicValue> := [];
    var i := 0;
    while i < |fn.params|
      invariant 0 <= i <= |fn.params| == |locals| - i + |fn.params|
      invariant forall j :: 0 <= j < i ==> fn.params[j] != OtherType
      invariant forall j :: 0 <= j < i ==> locals[j] == Parameter(req, j)
    {
      var width := WidthOf(fn.params[i]);
      if width.None? { return None; }
      if i < |req.given| && req.given[i].Some? {
        locals := locals + [TypedConstant(req.given[i].value, width.value)];
      } else {
        locals := locals + [SymbolicValue(Symbol(i, width.value), None, false, width.value)];
      }
      i := i + 1;
    }
    ghost var params := locals;
    i := 0;
    while i < |fn.locals|
      invariant 0 <= i <= |fn.locals| && |locals| == |fn.params| + i
      invariant forall j :: 0 <= j < i ==> fn.locals[j] != OtherType
      invariant locals[..|fn.params|] == params
      invariant forall j :: 0 <= j < i ==> locals[|fn.params| + j] == TypedConstant(0, WidthOf(fn.locals[j]).value)
    {
      var width := WidthOf(fn.locals[i]);
      if width.None? { return None; }
      locals := locals + [TypedConstant(0, width.value)];
      i := i + 1;
    }
    assert locals == Initial(req).locals;
    return Some(locals);
  }

  /** Checks each terminal state and renders the ones that are kept. */
  method AssemblePaths(cfg: Config, results: seq<ValueType>, states: seq<SymbolicState>)
    returns (r: Option<(seq<Path>, nat)>)
    ensures r == Assemble(cfg, results, states)
  {
    var paths, dropped, j := [], 0, 0;
    while j < |states|
      invariant 0 <= j <= |states|
      invariant Assemble(cfg, results, states[..j]) == Some((paths, dropped))
    {
      var s := states[j];
      AssembleStep(cfg, results, states, j);
      var feasible := Feasibility(cfg.solve, s.constraints);
      if feasible.None? { return None; }
      if !feasible.value && cfg.prune {
        dropped := dropped + 1;
      } else {
        if |s.stack| < |results| { return None; }
        paths := paths + [Path(s.constraints, feasible.value, Render(results, s.stack))];
      }
      j := j + 1;
    }
    assert states[..j] == states;
    return Some((paths, dropped));
  }

  /** Symbolically executes a function and reports its terminal paths. */
  method Run(req: Request, solve: Solver) returns (r: Option<Report>)
    ensures r == ReportOf(req, solve)
  {
    if req.maxDepth < 0 { return None; }
    var depth := if req.maxDepth == 0 then DEFAULT_MAX_DEPTH else req.maxDepth;
    if depth > MAX_DEPTH { return None; }
    var locals := BuildLocals(req);
    if locals.None? { return None; }
    var initial := SymbolicState(locals.value, [], [], 0);
    assert initial == Initial(req);
    var cfg := Config(depth, req.prune, solve);
    var executor := new Executor(cfg);
    var states := executor.Run(req.fn.body, [initial]);
    SingleState(cfg, req.fn.body, initial);
    if states.None? { return None; }
    var assembled := AssemblePaths(cfg, req.fn.results, states.value);
    if assembled.None? { return None; }
    return Some(Report(assembled.value.0, executor.explored, executor.pruned + assembled.value.1));
  }

  lemma SingleState(cfg: Config, program: seq<Instruction>, s: SymbolicState)
    ensures Each(Runner(cfg, program), [s]) == RunState(cfg, program, s)
  {
    CombineUnit(RunState(cfg, program, s));
  }

  /** Unfolds the assembly at position j, and says that an error there is an error of the whole. */
  lemma {:induction false} AssembleStep(cfg: Config, results: seq<ValueType>, states: seq<SymbolicState>, j: nat)
    requires j < |states|
    ensures states[..j + 1][..j] == states[..j] && states[..j + 1][j] == states[j]
    ensures Assemble(cfg, results, states[..j + 1]).None? ==> Assemble(cfg, results, states).None?
    decreases |states| - j
  {
    assert states[..j + 1][..j] == states[..j];
    if j + 1 < |states| {
      AssembleStep(cfg, results, states, j + 1);
      assert states[..j + 2][..j + 1] == states[..j + 1];
    } else {
      assert states[..j + 1] == states;
    }
  }
}
