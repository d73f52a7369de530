/**
 A concrete interpreter for the instructions the symbolic executor supports, after sections
 4.3.2 and 4.4 of the WebAssembly Core Specification. It is the reference the symbolic paths
 are measured against. `strict` adds the width checks that module validation would make.
 */
module WasmInterpreter {
  import opened Wrappers
  import opened Bits
  import opened SymbolicExecutor

  /** An i32 or i64 as its unsigned bit pattern. */
  datatype Word = Word(bits: nat, value: nat)

  datatype Machine = Machine(locals: seq<Word>, stack: seq<Word>) {
    function Top(): Word
      requires stack != []
    {
      stack[|stack| - 1]
    }

    function Pop(): Machine
      requires stack != []
    {
      this.(stack := stack[..|stack| - 1])
    }

    function Push(w: Word): Machine {
      this.(stack := stack + [w])
    }
  }

  /** The machine left behind and the number of instructions executed. */
  datatype Execution = Stuck | Finished(machine: Machine, steps: nat)

  predicate IsRelop(op: Byte) {
    0x46 <= op <= 0x4f || 0x51 <= op <= 0x5a
  }

  /** The comparison named by an opcode: eq, ne, lt_s, lt_u, gt_s, gt_u, le_s, le_u, ge_s, ge_u. */
  predicate Relop(op: Byte, a: nat, b: nat, bits: nat)
    requires IsRelop(op)
  {
    var sa, sb := Signed(a, bits), Signed(b, bits);
    match if op <= 0x4f then op - 0x46 else op - 0x51
    case 0 => a == b
    case 1 => a != b
    case 2 => sa < sb
    case 3 => a < b
    case 4 => sa > sb
    case 5 => a > b
    case 6 => sa <= sb
    case 7 => a <= b
    case 8 => sa >= sb
    case _ => a >= b
  }

  predicate IsBinop(op: Byte) {
    0x6a <= op <= 0x6c || 0x7c <= op <= 0x7e
  }

  /** add, sub and mul modulo 2^bits. */
  function Binop(op: Byte, a: nat, b: nat, bits: nat): nat {
    if op == 0x6a || op == 0x7c then (a + b) % Modulus(bits)
    else if op == 0x6b || op == 0x7d then (a - b) % Modulus(bits)
    else (a * b) % Modulus(bits)
  }

  /** The operand width in an opcode's name. */
  function NamedWidth(op: Byte): nat {
    if op <= 0x4f || 0x6a <= op <= 0x6c then 32 else 64
  }

  function FromBool(b: bool): Word {
    Word(32, if b then 1 else 0)
  }

  function ExecuteBasic(strict: bool, m: Machine, ins: Instruction): Option<Machine> {
    var op := ins.opcode;
    if op == OP_LOCAL_GET then
      if ins.index < |m.locals| then Some(m.Push(m.locals[ins.index])) else None
    else if op == OP_LOCAL_SET || op == OP_LOCAL_TEE then
      if m.stack == [] || ins.index >= |m.locals| then None
      else if strict && m.locals[ins.index].bits != m.Top().bits then None
      else
        var n := m.Pop().(locals := m.locals[ins.index := m.Top()]);
        Some(if op == OP_LOCAL_TEE then n.Push(m.Top()) else n)
    else if op == OP_I32_CONST then Some(m.Push(Word(32, Unsigned(ins.value, 32))))
    else if op == OP_I64_CONST then Some(m.Push(Word(64, Unsigned(ins.value, 64))))
    else if op == OP_I32_EQZ || op == OP_I64_EQZ then
      if m.stack == [] || m.Top().bits != NamedWidth(op) then None
      else Some(m.Pop().Push(FromBool(m.Top().value == 0)))
    else if IsRelop(op) then
      if |m.stack| < 2 then None
      else
        var b, a := m.Top(), m.Pop().Top();
        if a.bits != b.bits || (strict && a.bits != NamedWidth(op)) then None
        else Some(m.Pop().Pop().Push(FromBool(Relop(op, a.value, b.value, a.bits))))
    else if IsBinop(op) then
      if |m.stack| < 2 then None
      else
        var b, a := m.Top(), m.Pop().Top();
        if a.bits != NamedWidth(op) || b.bits != NamedWidth(op) then None
        else Some(m.Pop().Pop().Push(Word(a.bits, Binop(op, a.value, b.value, a.bits))))
    else if op == OP_DROP then
      if m.stack == [] then None else Some(m.Pop())
    else None
  }

  function Execute(strict: bool, program: seq<Instruction>, m: Machine): Execution
    decreases program, 0
  {
    if program == [] then Finished(m, 0)
    else
      match ExecuteOne(strict, program[0], m)
      case Stuck => Stuck
      case Finished(n, steps) =>
        match Execute(strict, program[1..], n)
        case Stuck => Stuck
        case Finished(end, more) => Finished(end, steps + more)
  }

  function ExecuteOne(strict: bool, ins: Instruction, m: Machine): Execution
    decreases ins
  {
    if ins.opcode == OP_IF then
      if m.stack == [] || (strict && m.Top().bits != 32) then Stuck
      else
        match Execute(strict, if m.Top().value != 0 then ins.consequent else ins.otherwise, m.Pop())
        case Stuck => Stuck
        case Finished(n, steps) => Finished(n, steps + 1)
    else
      match ExecuteBasic(strict, m, ins)
      case None => Stuck
      case Some(n) => Finished(n, 1)
  }

  /** Where the width checks pass, they make no difference. */
  lemma {:induction false} StrictAgrees(program: seq<Instruction>, m: Machine)
    requires Execute(true, program, m).Finished?
    ensures Execute(false, program, m) == Execute(true, program, m)
    decreases program, 0
  {
    if program != [] {
      StrictAgreesOne(program[0], m);
      StrictAgrees(program[1..], ExecuteOne(true, program[0], m).machine);
    }
  }

  lemma {:induction false} StrictAgreesOne(ins: Instruction, m: Machine)
    requires ExecuteOne(true, ins, m).Finished?
    ensures ExecuteOne(false, ins, m) == ExecuteOne(true, ins, m)
    decreases ins
  {
    if ins.opcode == OP_IF {
      StrictAgrees(if m.Top().value != 0 then ins.consequent else ins.otherwise, m.Pop());
    }
  }
}
