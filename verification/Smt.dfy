/**
 The constraint language handed to Z3, as syntax trees instead of text, with the meaning
 the SMT-LIB theory FixedSizeBitVectors gives it. Ill-sorted terms have no meaning.
 */
module Smt {
  import opened Bits

  datatype ArithOp = BvAdd | BvSub | BvMul
  datatype RelOp = Equal | Distinct | Slt | Ult | Sgt | Ugt | Sle | Ule | Sge | Uge

  datatype Expr =
    | Literal(value: nat, bits: nat)            // (_ bvN bits)
    | Symbol(index: nat, bits: nat)             // argN, declared as BitVec_bits
    | Arith(aop: ArithOp, left: Expr, right: Expr)
    | Rel(rop: RelOp, left: Expr, right: Expr)
    | Truth(truth: bool)
    | Not(operand: Expr)

  datatype Meaning = BitVec(bits: nat, value: nat) | Boolean(truth: bool) | IllSorted

  /** One unsigned value for each parameter of the entrypoint. */
  type Assignment = seq<nat>

  /** The bit-vector operations on `bits`-bit patterns. */
  function ArithMeaning(op: ArithOp, a: nat, b: nat, bits: nat): nat {
    match op
    case BvAdd => Unsigned(a + b, bits)
    case BvSub => Unsigned(a - b, bits)
    case BvMul => Unsigned(a * b, bits)
  }

  predicate RelMeaning(op: RelOp, a: nat, b: nat, bits: nat) {
    match op
    case Equal => a == b
    case Distinct => a != b
    case Slt => Signed(a, bits) < Signed(b, bits)
    case Ult => a < b
    case Sgt => Signed(a, bits) > Signed(b, bits)
    case Ugt => a > b
    case Sle => Signed(a, bits) <= Signed(b, bits)
    case Ule => a <= b
    case Sge => Signed(a, bits) >= Signed(b, bits)
    case Uge => a >= b
  }

  function Eval(e: Expr, env: Assignment): Meaning {
    match e
    case Literal(v, bits) =>
      if IsWidth(bits) && v < Modulus(bits) then BitVec(bits, v) else IllSorted
    case Symbol(i, bits) =>
      if IsWidth(bits) && i < |env| && env[i] < Modulus(bits) then BitVec(bits, env[i]) else IllSorted
    case Arith(op, l, r) =>
      (match (Eval(l, env), Eval(r, env))
       case (BitVec(w, a), BitVec(w', b)) =>
         if w == w' then BitVec(w, ArithMeaning(op, a, b, w)) else IllSorted
       case _ => IllSorted)
    case Rel(op, l, r) =>
      (match (Eval(l, env), Eval(r, env))
       case (BitVec(w, a), BitVec(w', b)) =>
         if w == w' then Boolean(RelMeaning(op, a, b, w)) else IllSorted
       case _ => IllSorted)
    case Truth(b) => Boolean(b)
    case Not(f) =>
      (match Eval(f, env)
       case Boolean(b) => Boolean(!b)
       case _ => IllSorted)
  }

  /** Every constraint of the conjunction is true. */
  predicate Holds(constraints: seq<Expr>, env: Assignment) {
    forall i :: 0 <= i < |constraints| ==> Eval(constraints[i], env) == Boolean(true)
  }

  /** An assignment within the declared widths. */
  predicate InDomain(env: Assignment, widths: seq<nat>) {
    |env| == |widths| && forall i :: 0 <= i < |env| ==> env[i] < Modulus(widths[i])
  }

  ghost predicate Satisfiable(constraints: seq<Expr>, widths: seq<nat>) {
    exists env :: InDomain(env, widths) && Holds(constraints, env)
  }

  /** What one solver call answers. */
  datatype Verdict = Sat | Unsat | Unknown | SolverError

  type Solver = seq<Expr> -> Verdict

  /** Whatever else the solver does, it never calls a satisfiable conjunction unsat. */
  ghost predicate Sound(solve: Solver, widths: seq<nat>) {
    forall cs :: solve(cs).Unsat? ==> !Satisfiable(cs, widths)
  }

  /** A solver that always answers, and answers correctly. */
  ghost predicate Decisive(solve: Solver, widths: seq<nat>) {
    forall cs :: solve(cs) == if Satisfiable(cs, widths) then Sat else Unsat
  }
}
