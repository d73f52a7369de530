/**
 The function-body parser of internal/verify/symbolic.go, with its instruction and nesting budgets,
 against a printer for the binary format of section 5.4 of the WebAssembly Core Specification.
 */
module WasmParser {
  import opened Wrappers
  import opened Bits
  import opened Leb128
  import opened SymbolicExecutor

  const MAX_INSTRUCTIONS: nat := 16384
  const MAX_CONTROL_DEPTH: nat := 256
  const MAX_VECTOR_ITEMS: nat := 4096
  const MAX_LOCALS: nat := 4096

  const OP_ELSE: Byte := 0x05
  const OP_END: Byte := 0x0b

  /** A parsed run of instructions, the position after its stop byte, and the instructions counted so far. */
  datatype Parsed = Parsed(body: seq<Instruction>, pos: nat, stop: Byte, count: nat)

  predicate HasIndex(op: Byte) { op == OP_LOCAL_GET || op == OP_LOCAL_SET || op == OP_LOCAL_TEE }

  predicate HasValue(op: Byte) { op == OP_I32_CONST || op == OP_I64_CONST }

  function Plain(op: Byte): Instruction { Instruction(op, 0, 0, [], []) }

  /** Parses up to and including the next `end` or `else` of this nesting level. */
  function Parse(b: seq<Byte>, p: nat, count: nat, depth: nat): (r: Option<Parsed>)
    requires p <= |b|
    ensures r.Some? ==> p < r.value.pos <= |b|
    decreases |b| - p, 1
  {
    if p == |b| then None
    else if b[p] == OP_END || b[p] == OP_ELSE then Some(Parsed([], p + 1, b[p], count))
    else if count + 1 > MAX_INSTRUCTIONS then None
    else
      var (ins, q, n) :- ParseOne(b, b[p], p + 1, count + 1, depth);
      var rest :- Parse(b, q, n, depth);
      Some(rest.(body := [ins] + rest.body))
  }

  /** Parses the immediates, or the arms, of one instruction whose opcode has been read. */
  function ParseOne(b: seq<Byte>, op: Byte, p: nat, count: nat, depth: nat): (r: Option<(Instruction, nat, nat)>)
    requires p <= |b|
    ensures r.Some? ==> p <= r.value.1 <= |b|
    decreases |b| - p, 2
  {
    if op == OP_IF then
      if depth >= MAX_CONTROL_DEPTH || p == |b| then None
      else
        var yes :- Parse(b, p + 1, count, depth + 1);
        if yes.stop == OP_ELSE then
          var no :- Parse(b, yes.pos, yes.count, depth + 1);
          if no.stop != OP_END then None
          else Some((Instruction(op, 0, 0, yes.body, no.body), no.pos, no.count))
        else Some((Instruction(op, 0, 0, yes.body, []), yes.pos, yes.count))
    else if HasIndex(op) then
      var (index, q) :- ReadU32(b, p);
      Some((Instruction(op, index, 0, [], []), q, count))
    else if HasValue(op) then
      var (value, q) :- ReadS64(b, p);
      Some((Instruction(op, 0, value, [], []), q, count))
    else Some((Plain(op), p, count))
  }

  function Prepend(out: seq<Instruction>, r: Option<Parsed>): Option<Parsed> {
    match r
    case None => None
    case Some(x) => Some(x.(body := out + x.body))
  }

  /** The parsing loop. The shared instruction counter is passed in and handed back in the result. */
  method ParseInstructions(b: seq<Byte>, p: nat, count: nat, depth: nat) returns (r: Option<Parsed>)
    requires p <= |b|
    ensures r == Parse(b, p, count, depth)
    decreases |b| - p, 1
  {
    var out: seq<Instruction> := [];
    var q: nat, n: nat := p, count;
    assert Prepend([], Parse(b, p, count, depth)) == Parse(b, p, count, depth) by {
      PrependNothing(Parse(b, p, count, depth));
    }
    while q < |b|
      invariant p <= q <= |b|
      invariant Parse(b, p, count, depth) == Prepend(out, Parse(b, q, n, depth))
    {
      hide ParseOne;
      var op := b[q];
      q := q + 1;
      assert out + [] == out;
      if op == OP_END || op == OP_ELSE { return Some(Parsed(out, q, op, n)); }
      n := n + 1;
      if n > MAX_INSTRUCTIONS { return None; }
      var one := ParseOperands(b, op, q, n, depth);
      if one.None? { return None; }
      var ins := one.value.0;
      q, n := one.value.1, one.value.2;
      PrependOne(out, ins, Parse(b, q, n, depth));
      out := out + [ins];
    }
    return None;
  }

  method ParseOperands(b: seq<Byte>, op: Byte, p: nat, count: nat, depth: nat)
    returns (r: Option<(Instruction, nat, nat)>)
    requires p <= |b|
    ensures r == ParseOne(b, op, p, count, depth)
    decreases |b| - p, 2
  {
    hide Parse, ReadU32, ReadS64;
    var ins := Plain(op);
    if op == OP_IF {
      if depth >= MAX_CONTROL_DEPTH { return None; }
      if p >= |b| { return None; }
      var yes := ParseInstructions(b, p + 1, count, depth + 1);
      if yes.None? { return None; }
      ins := ins.(consequent := yes.value.body);
      if yes.value.stop == OP_ELSE {
        var no := ParseInstructions(b, yes.value.pos, yes.value.count, depth + 1);
        if no.None? { return None; }
        if no.value.stop != OP_END { return None; }
        return Some((ins.(otherwise := no.value.body), no.value.pos, no.value.count));
      }
      return Some((ins, yes.value.pos, yes.value.count));
    } else if HasIndex(op) {
      var index := ReadU32Loop(b, p);
      if index.None? { return None; }
      return Some((ins.(index := index.value.0), index.value.1, count));
    } else if HasValue(op) {
      var value := ReadS64Loop(b, p);
      if value.None? { return None; }
      return Some((ins.(value := value.value.0), value.value.1, count));
    }
    return Some((ins, p, count));
  }

  lemma PrependNothing(r: Option<Parsed>)
    ensures Prepend([], r) == r
  {
    if r.Some? {
      assert [] + r.value.body == r.value.body;
    }
  }

  lemma PrependOne(out: seq<Instruction>, ins: Instruction, r: Option<Parsed>)
    ensures Prepend(out, Prepend([ins], r)) == Prepend(out + [ins], r)
  {
    if r.Some? {
      assert out + ([ins] + r.value.body) == out + [ins] + r.value.body;
    }
  }

  // ----- printing -----

  function Print(body: seq<Instruction>, blockType: Byte): seq<Byte>
    decreases body, 0
  {
    if body == [] then [] else PrintOne(body[0], blockType) + Print(body[1..], blockType)
  }

  function PrintOne(ins: Instruction, blockType: Byte): seq<Byte>
    decreases ins
  {
    if ins.opcode == OP_IF then
      [OP_IF, blockType] + (Print(ins.consequent, blockType)
      + (if ins.otherwise == [] then [OP_END]
         else [OP_ELSE] + (Print(ins.otherwise, blockType) + [OP_END])))
    else if HasIndex(ins.opcode) then [ins.opcode] + EncodeU(ins.index)
    else if HasValue(ins.opcode) then [ins.opcode] + EncodeS(ins.value)
    else [ins.opcode]
  }

  /** Bodies in which only the fields an opcode uses are set. */
  predicate WellFormed(body: seq<Instruction>)
    decreases body, 0
  {
    body == [] || (WellFormedOne(body[0]) && WellFormed(body[1..]))
  }

  predicate WellFormedOne(ins: Instruction)
    decreases ins
  {
    && ins.opcode != OP_ELSE && ins.opcode != OP_END
    && (if ins.opcode == OP_IF
        then ins.index == 0 && ins.value == 0 && WellFormed(ins.consequent) && WellFormed(ins.otherwise)
        else ins.consequent == [] && ins.otherwise == []
             && (!HasIndex(ins.opcode) ==> ins.index == 0) && (!HasValue(ins.opcode) ==> ins.value == 0))
  }

  /** All instructions, the ones inside arms included. */
  function Count(body: seq<Instruction>): nat
    decreases body, 0
  {
    if body == [] then 0 else CountOne(body[0]) + Count(body[1..])
  }

  function CountOne(ins: Instruction): nat
    decreases ins
  {
    1 + if ins.opcode == OP_IF then Count(ins.consequent) + Count(ins.otherwise) else 0
  }

  function Max(a: nat, b: nat): nat { if a < b then b else a }

  /** How deeply `if`s are nested. */
  function Nesting(body: seq<Instruction>): nat
    decreases body, 0
  {
    if body == [] then 0 else Max(NestingOne(body[0]), Nesting(body[1..]))
  }

  function NestingOne(ins: Instruction): nat
    decreases ins
  {
    if ins.opcode == OP_IF then 1 + Max(Nesting(ins.consequent), Nesting(ins.otherwise)) else 0
  }

  predicate WithinBudget(count: nat, depth: nat, instructions: nat, nesting: nat) {
    count + instructions <= MAX_INSTRUCTIONS && depth + nesting <= MAX_CONTROL_DEPTH
  }

  // ----- printing then parsing -----

  /** What parsing printed text at p must give. */
  function Expected(body: seq<Instruction>, p: nat, size: nat, stop: Byte, count: nat, depth: nat): Option<Parsed> {
    if WithinBudget(count, depth, Count(body), Nesting(body))
    then Some(Parsed(body, p + size + 1, stop, count + Count(body))) else None
  }

  function ExpectedOne(ins: Instruction, p: nat, blockType: Byte, count: nat, depth: nat)
    : Option<(Instruction, nat, nat)>
  {
    if WithinBudget(count, depth, CountOne(ins), NestingOne(ins))
    then Some((ins, p + |PrintOne(ins, blockType)|, count + CountOne(ins))) else None
  }

  lemma {:induction false} ParsesPrinted(b: seq<Byte>, p: nat, body: seq<Instruction>, blockType: Byte,
                                         stop: Byte, count: nat, depth: nat)
    requires WellFormed(body) && (stop == OP_END || stop == OP_ELSE)
    requires At(b, p, Print(body, blockType) + [stop])
    requires count <= MAX_INSTRUCTIONS && depth <= MAX_CONTROL_DEPTH
    ensures Parse(b, p, count, depth) == Expected(body, p, |Print(body, blockType)|, stop, count, depth)
    decreases body, 0
  {
    hide Parse, ParseOne, PrintOne, CountOne, NestingOne, WellFormedOne;
    if body == [] {
      assert Print(body, blockType) + [stop] == [stop] && b[p] == b[p..p + 1][0];
      ParseStop(b, p, count, depth);
    } else {
      var ins, rest := body[0], body[1..];
      var one, tail := PrintOne(ins, blockType), Print(rest, blockType);
      assert Print(body, blockType) + [stop] == one + (tail + [stop]);
      AtSplit(b, p, one, tail + [stop]);
      PrintsOpcode(ins, blockType);
      assert b[p] == b[p..p + |one|][0] == ins.opcode;
      AssertNotStop(ins);
      CountsItself(ins);
      ParseCons(b, p, count, depth);
      if count + 1 <= MAX_INSTRUCTIONS {
        ParsesPrintedOne(b, p, ins, blockType, count, depth);
        if WithinBudget(count, depth, CountOne(ins), NestingOne(ins)) {
          ParsesPrinted(b, p + |one|, rest, blockType, stop, count + CountOne(ins), depth);
          assert body == [ins] + rest;
        }
      }
    }
  }

  lemma ParseStop(b: seq<Byte>, p: nat, count: nat, depth: nat)
    requires p < |b| && (b[p] == OP_END || b[p] == OP_ELSE)
    ensures Parse(b, p, count, depth) == Some(Parsed([], p + 1, b[p], count))
  {
  }

  lemma ParseCons(b: seq<Byte>, p: nat, count: nat, depth: nat)
    requires p < |b| && b[p] != OP_END && b[p] != OP_ELSE
    ensures Parse(b, p, count, depth) ==
            if count + 1 > MAX_INSTRUCTIONS then None
            else
              var one := ParseOne(b, b[p], p + 1, count + 1, depth);
              if one.None? then None
              else Prepend([one.value.0], Parse(b, one.value.1, one.value.2, depth))
  {
    hide ParseOne;
  }

  lemma AssertNotStop(ins: Instruction)
    requires WellFormedOne(ins)
    ensures ins.opcode != OP_ELSE && ins.opcode != OP_END
  {
  }

  lemma CountsItself(ins: Instruction)
    ensures CountOne(ins) >= 1
  {
  }

  lemma PrintsOpcode(ins: Instruction, blockType: Byte)
    ensures PrintOne(ins, blockType) != [] && PrintOne(ins, blockType)[0] == ins.opcode
  {
  }

  lemma {:induction false} ParsesPrintedOne(b: seq<Byte>, p: nat, ins: Instruction, blockType: Byte, count: nat,
                                            depth: nat)
    requires WellFormedOne(ins) && At(b, p, PrintOne(ins, blockType))
    requires count + 1 <= MAX_INSTRUCTIONS && depth <= MAX_CONTROL_DEPTH
    ensures p + 1 <= |b|
    ensures ParseOne(b, ins.opcode, p + 1, count + 1, depth) == ExpectedOne(ins, p, blockType, count, depth)
    decreases ins, 1
  {
    hide Parse, ReadU32, ReadS64, EncodeU, EncodeS;
    PrintsOpcode(ins, blockType);
    if ins.opcode == OP_IF {
      hide Print;
      if ins.otherwise == [] {
        ParsesPrintedIf(b, p, ins, blockType, count, depth);
      } else {
        ParsesPrintedIfElse(b, p, ins, blockType, count, depth);
      }
    } else if HasIndex(ins.opcode) {
      AtSplit(b, p, [ins.opcode], EncodeU(ins.index));
      ReadsEncodedU32(b, p + 1, ins.index);
    } else if HasValue(ins.opcode) {
      AtSplit(b, p, [ins.opcode], EncodeS(ins.value));
      ReadsEncodedS64(b, p + 1, ins.value);
    }
  }

  lemma {:induction false} ParsesPrintedIf(b: seq<Byte>, p: nat, ins: Instruction, blockType: Byte, count: nat,
                                           depth: nat)
    requires ins.opcode == OP_IF && ins.otherwise == [] && WellFormedOne(ins) && At(b, p, PrintOne(ins, blockType))
    requires count + 1 <= MAX_INSTRUCTIONS && depth <= MAX_CONTROL_DEPTH && p + 1 <= |b|
    ensures ParseOne(b, ins.opcode, p + 1, count + 1, depth) == ExpectedOne(ins, p, blockType, count, depth)
    decreases ins, 0
  {
    hide Parse, Print;
    var yes := Print(ins.consequent, blockType);
    AtSplit(b, p, [OP_IF, blockType], yes + [OP_END]);
    assert Count(ins.otherwise) == 0 && Nesting(ins.otherwise) == 0;
    assert ins == Instruction(OP_IF, 0, 0, ins.consequent, []);
    if depth < MAX_CONTROL_DEPTH {
      ParsesPrinted(b, p + 2, ins.consequent, blockType, OP_END, count + 1, depth + 1);
    }
  }

  lemma {:induction false} ParsesPrintedIfElse(b: seq<Byte>, p: nat, ins: Instruction, blockType: Byte, count: nat,
                                               depth: nat)
    requires ins.opcode == OP_IF && ins.otherwise != [] && WellFormedOne(ins) && At(b, p, PrintOne(ins, blockType))
    requires count + 1 <= MAX_INSTRUCTIONS && depth <= MAX_CONTROL_DEPTH && p + 1 <= |b|
    ensures ParseOne(b, ins.opcode, p + 1, count + 1, depth) == ExpectedOne(ins, p, blockType, count, depth)
    decreases ins, 0
  {
    hide Parse, Print;
    var yes, no := Print(ins.consequent, blockType), Print(ins.otherwise, blockType);
    AtSplit(b, p, [OP_IF, blockType], yes + ([OP_ELSE] + (no + [OP_END])));
    AtSplit(b, p + 2, yes, [OP_ELSE] + (no + [OP_END]));
    AtSplit(b, p + 2 + |yes|, [OP_ELSE], no + [OP_END]);
    AtSplit(b, p + 2, yes, [OP_ELSE]);
    if depth < MAX_CONTROL_DEPTH {
      ParsesPrinted(b, p + 2, ins.consequent, blockType, OP_ELSE, count + 1, depth + 1);
      var mid := count + 1 + Count(ins.consequent);
      if mid <= MAX_INSTRUCTIONS {
        ParsesPrinted(b, p + 3 + |yes|, ins.otherwise, blockType, OP_END, mid, depth + 1);
      }
    }
  }

  // ----- everything the parser accepts -----

  /** Whatever parses is well formed, is counted exactly, and keeps within both budgets. */
  lemma {:induction false} ParseSound(b: seq<Byte>, p: nat, count: nat, depth: nat)
    requires p <= |b| && count <= MAX_INSTRUCTIONS && depth <= MAX_CONTROL_DEPTH
    ensures Parse(b, p, count, depth).Some? ==>
            var r := Parse(b, p, count, depth).value;
            && WellFormed(r.body) && (r.stop == OP_END || r.stop == OP_ELSE)
            && r.count == count + Count(r.body)
            && WithinBudget(count, depth, Count(r.body), Nesting(r.body))
    decreases |b| - p, 1
  {
    if p < |b| {
      hide Parse, ParseOne, WellFormedOne, CountOne, NestingOne;
      if b[p] == OP_END || b[p] == OP_ELSE {
        ParseStop(b, p, count, depth);
      } else {
        ParseCons(b, p, count, depth);
        if count + 1 <= MAX_INSTRUCTIONS {
          ParseOneSound(b, p, count, depth);
          var one := ParseOne(b, b[p], p + 1, count + 1, depth);
          if one.Some? {
            ParseSound(b, one.value.1, one.value.2, depth);
            var rest := Parse(b, one.value.1, one.value.2, depth);
            if rest.Some? {
              assert ([one.value.0] + rest.value.body)[1..] == rest.value.body;
            }
          }
        }
      }
    }
  }

  lemma {:induction false} ParseOneSound(b: seq<Byte>, p: nat, count: nat, depth: nat)
    requires p < |b| && b[p] != OP_END && b[p] != OP_ELSE
    requires count + 1 <= MAX_INSTRUCTIONS && depth <= MAX_CONTROL_DEPTH
    ensures ParseOne(b, b[p], p + 1, count + 1, depth).Some? ==>
            var (ins, q, n) := ParseOne(b, b[p], p + 1, count + 1, depth).value;
            && WellFormedOne(ins) && n == count + CountOne(ins)
            && WithinBudget(count, depth, CountOne(ins), NestingOne(ins))
    decreases |b| - p, 0
  {
    hide Parse, ReadU32, ReadS64;
    if b[p] == OP_IF && depth < MAX_CONTROL_DEPTH && p + 1 < |b| {
      ParseSound(b, p + 2, count + 1, depth + 1);
      var yes := Parse(b, p + 2, count + 1, depth + 1);
      if yes.Some? && yes.value.stop == OP_ELSE {
        ParseSound(b, yes.value.pos, yes.value.count, depth + 1);
      }
    }
  }

  // ----- function bodies with their locals -----

  /** The declared locals and the instructions of one code entry. */
  datatype Code = Code(locals: seq<Byte>, body: seq<Instruction>)

  function Repeat(t: Byte, n: nat): (r: seq<Byte>)
    ensures |r| == n
  {
    seq(n, _ => t)
  }

  function ParseLocals(b: seq<Byte>, p: nat, groups: nat, locals: seq<Byte>): (r: Option<(seq<Byte>, nat)>)
    requires p <= |b|
    ensures r.Some? ==> p <= r.value.1 <= |b|
    decreases groups
  {
    if groups == 0 then Some((locals, p))
    else
      var (n, q) :- ReadU32(b, p);
      if q >= |b| || n > MAX_LOCALS || |locals| + n > MAX_LOCALS then None
      else ParseLocals(b, q + 1, groups - 1, locals + Repeat(b[q], n))
  }

  function ParseCode(b: seq<Byte>): Option<Code> {
    var (groups, p) :- ReadU32(b, 0);
    if groups > MAX_VECTOR_ITEMS || groups > |b| - p then None
    else
      var (locals, q) :- ParseLocals(b, p, groups, []);
      var parsed :- Parse(b, q, 0, 0);
      if parsed.stop != OP_END || parsed.pos != |b| then None
      else Some(Code(locals, parsed.body))
  }

  method ParseLocalsLoop(b: seq<Byte>, start: nat, groups: nat) returns (r: Option<(seq<Byte>, nat)>)
    requires start <= |b|
    ensures r == ParseLocals(b, start, groups, [])
  {
    hide ReadU32, Repeat;
    var locals: seq<Byte> := [];
    var k: nat, p: nat := 0, start;
    while k < groups
      invariant k <= groups && p <= |b|
      invariant ParseLocals(b, start, groups, []) == ParseLocals(b, p, groups - k, locals)
    {
      var entry := ReadU32Loop(b, p);
      if entry.None? { return None; }
      var n, q := entry.value.0, entry.value.1;
      if q >= |b| || n > MAX_LOCALS || |locals| + n > MAX_LOCALS { return None; }
      locals := locals + Repeat(b[q], n);
      p := q + 1;
      k := k + 1;
    }
    return Some((locals, p));
  }

  method ParseCodeEntry(b: seq<Byte>) returns (r: Option<Code>)
    ensures r == ParseCode(b)
  {
    hide ReadU32, ParseLocals, Parse;
    var head := ReadU32Loop(b, 0);
    if head.None? { return None; }
    var groups, p := head.value.0, head.value.1;
    if groups > MAX_VECTOR_ITEMS || groups > |b| - p { return None; }
    var locals := ParseLocalsLoop(b, p, groups);
    if locals.None? { return None; }
    var parsed := ParseInstructions(b, locals.value.1, 0, 0);
    if parsed.None? { return None; }
    if parsed.value.stop != OP_END || parsed.value.pos != |b| { return None; }
    return Some(Code(locals.value.0, parsed.value.body));
  }

  datatype Group = Group(count: UInt32, valueType: Byte)

  function Expand(groups: seq<Group>): seq<Byte> {
    if groups == [] then [] else Repeat(groups[0].valueType, groups[0].count) + Expand(groups[1..])
  }

  function PrintGroups(groups: seq<Group>): seq<Byte> {
    if groups == [] then [] else EncodeU(groups[0].count) + ([groups[0].valueType] + PrintGroups(groups[1..]))
  }

  function PrintCode(groups: seq<Group>, body: seq<Instruction>, blockType: Byte): seq<Byte> {
    EncodeU(|groups|) + (PrintGroups(groups) + (Print(body, blockType) + [OP_END]))
  }

  lemma NoGroups(b: seq<Byte>, p: nat, locals: seq<Byte>)
    requires At(b, p, PrintGroups([]))
    ensures p <= |b| && ParseLocals(b, p, 0, locals) == Some((locals, p))
  {
  }

  lemma TypeFollows(b: seq<Byte>, q: nat, t: Byte)
    requires At(b, q, [t])
    ensures q < |b| && b[q] == t
  {
    assert b[q] == b[q..q + 1][0];
  }

  lemma NextGroup(b: seq<Byte>, p: nat, groups: nat, locals: seq<Byte>, n: UInt32, q: nat)
    requires p <= |b| && groups > 0 && ReadU32(b, p) == Some((n, q)) && q < |b|
    ensures ParseLocals(b, p, groups, locals) ==
            if n > MAX_LOCALS || |locals| + n > MAX_LOCALS then None
            else ParseLocals(b, q + 1, groups - 1, locals + Repeat(b[q], n))
  {
    hide ReadU32, Repeat;
  }

  lemma {:induction false} ParsesGroups(b: seq<Byte>, p: nat, groups: seq<Group>, locals: seq<Byte>)
    requires At(b, p, PrintGroups(groups)) && |locals| <= MAX_LOCALS
    ensures ParseLocals(b, p, |groups|, locals) ==
            if |locals| + |Expand(groups)| <= MAX_LOCALS
            then Some((locals + Expand(groups), p + |PrintGroups(groups)|)) else None
    decreases |groups|
  {
    hide ReadU32, EncodeU, Repeat, At, ParseLocals;
    if groups == [] {
      NoGroups(b, p, locals);
      assert locals + [] == locals;
    } else {
      var g, rest := groups[0], groups[1..];
      var e := EncodeU(g.count);
      AtSplit(b, p, e, [g.valueType] + PrintGroups(rest));
      AtSplit(b, p + |e|, [g.valueType], PrintGroups(rest));
      ReadsEncodedU32(b, p, g.count);
      TypeFollows(b, p + |e|, g.valueType);
      NextGroup(b, p, |groups|, locals, g.count, p + |e|);
      var more := locals + Repeat(g.valueType, g.count);
      if |more| <= MAX_LOCALS {
        ParsesGroups(b, p + |e| + 1, rest, more);
        assert more + Expand(rest) == locals + Expand(groups);
      }
    }
  }

  lemma {:induction false} GroupsTakeSpace(groups: seq<Group>)
    ensures |PrintGroups(groups)| >= |groups|
    decreases |groups|
  {
    if groups != [] { GroupsTakeSpace(groups[1..]); }
  }

  /**
   Printing then parsing is the identity exactly within the budgets: a printed code entry parses
   back to itself, consuming all of its bytes, if and only if its groups, locals, instructions and
   nesting are within their limits; otherwise it is rejected.
   */
  lemma CodeRoundTrip(groups: seq<Group>, body: seq<Instruction>, blockType: Byte)
    requires |groups| < TWO32 && WellFormed(body)
    ensures ParseCode(PrintCode(groups, body, blockType)) ==
            if && |groups| <= MAX_VECTOR_ITEMS && |Expand(groups)| <= MAX_LOCALS
               && Count(body) <= MAX_INSTRUCTIONS && Nesting(body) <= MAX_CONTROL_DEPTH
            then Some(Code(Expand(groups), body)) else None
  {
    hide ReadU32, EncodeU, Parse, Print, ParseLocals, PrintGroups, Expand, Count, Nesting, WellFormed;
    var b := PrintCode(groups, body, blockType);
    var head, mid, tail := EncodeU(|groups|), PrintGroups(groups), Print(body, blockType) + [OP_END];
    assert At(b, 0, b);
    AtSplit(b, 0, head, mid + tail);
    AtSplit(b, |head|, mid, tail);
    ReadsEncodedU32(b, 0, |groups|);
    GroupsTakeSpace(groups);
    ParsesGroups(b, |head|, groups, []);
    assert [] + Expand(groups) == Expand(groups);
    ParsesPrinted(b, |head| + |mid|, body, blockType, OP_END, 0, 0);
  }

  lemma AtFront(e: seq<Byte>, more: seq<Byte>)
    ensures At(e + more, 0, e)
  {
    assert (e + more)[0..0 + |e|] == e;
  }

  /** A code entry is the whole of its bytes: nothing may follow it, and `else` does not end it. */
  lemma EntryIsWhole(groups: seq<Group>, body: seq<Instruction>, blockType: Byte, stop: Byte, more: seq<Byte>)
    requires |groups| < TWO32 && WellFormed(body) && (stop == OP_END || stop == OP_ELSE)
    requires more != [] || stop == OP_ELSE
    ensures ParseCode(EncodeU(|groups|) + (PrintGroups(groups) + (Print(body, blockType) + [stop])) + more).None?
  {
    hide ReadU32, EncodeU, Parse, Print, ParseLocals, PrintGroups, Expand, Count, Nesting, WellFormed;
    hide At;
    var head, mid, tail := EncodeU(|groups|), PrintGroups(groups), Print(body, blockType) + [stop];
    var b := head + (mid + tail) + more;
    AtFront(head + (mid + tail), more);
    AtSplit(b, 0, head, mid + tail);
    AtSplit(b, |head|, mid, tail);
    ReadsEncodedU32(b, 0, |groups|);
    ParsesGroups(b, |head|, groups, []);
    assert [] + Expand(groups) == Expand(groups);
    ParsesPrinted(b, |head| + |mid|, body, blockType, stop, 0, 0);
  }

  /** An `if` has at most two arms: the second ends with `end`, and another `else` there is refused. */
  lemma SecondElseRefused(b: seq<Byte>, p: nat, yes: seq<Instruction>, no: seq<Instruction>, blockType: Byte,
                          count: nat, depth: nat)
    requires WellFormed(yes) && WellFormed(no) && count <= MAX_INSTRUCTIONS && depth < MAX_CONTROL_DEPTH
    requires At(b, p, [blockType] + ((Print(yes, blockType) + [OP_ELSE]) + (Print(no, blockType) + [OP_ELSE])))
    ensures ParseOne(b, OP_IF, p, count, depth).None?
  {
    hide Parse, Print, Count, Nesting, WellFormed;
    var first, second := Print(yes, blockType) + [OP_ELSE], Print(no, blockType) + [OP_ELSE];
    AtSplit(b, p, [blockType], first + second);
    AtSplit(b, p + 1, first, second);
    ParsesPrinted(b, p + 1, yes, blockType, OP_ELSE, count, depth + 1);
    if WithinBudget(count, depth + 1, Count(yes), Nesting(yes)) {
      ParsesPrinted(b, p + 1 + |first|, no, blockType, OP_ELSE, count + Count(yes), depth + 1);
    }
  }

  /** local.get, local.set and local.tee carry an index, the two constants a value, other instructions nothing. */
  lemma Immediates(b: seq<Byte>, op: Byte, p: nat, count: nat, depth: nat, index: UInt32, value: Int64)
    requires p <= |b| && op != 0x04
    ensures op in {0x20, 0x21, 0x22} && At(b, p, EncodeU(index)) ==>
            ParseOne(b, op, p, count, depth) == Some((Instruction(op, index, 0, [], []), p + |EncodeU(index)|, count))
    ensures op in {0x41, 0x42} && At(b, p, EncodeS(value)) ==>
            ParseOne(b, op, p, count, depth) == Some((Instruction(op, 0, value, [], []), p + |EncodeS(value)|, count))
    ensures op !in {0x20, 0x21, 0x22, 0x41, 0x42} ==>
            ParseOne(b, op, p, count, depth) == Some((Instruction(op, 0, 0, [], []), p, count))
  {
    hide ReadU32, ReadS64, EncodeU, EncodeS, At;
    if At(b, p, EncodeU(index)) { ReadsEncodedU32(b, p, index); }
    if At(b, p, EncodeS(value)) { ReadsEncodedS64(b, p, value); }
  }

  /** One group for each local. */
  function OneEach(locals: seq<Byte>): (groups: seq<Group>)
    ensures |groups| == |locals|
  {
    if locals == [] then [] else [Group(1, locals[0])] + OneEach(locals[1..])
  }

  lemma {:induction false} ExpandsOneEach(locals: seq<Byte>)
    ensures Expand(OneEach(locals)) == locals
    decreases |locals|
  {
    if locals != [] {
      ExpandsOneEach(locals[1..]);
      assert Repeat(locals[0], 1) == [locals[0]];
      assert OneEach(locals)[1..] == OneEach(locals[1..]);
      assert locals == [locals[0]] + locals[1..];
    }
  }

  lemma {:induction false} LocalsWithinLimit(b: seq<Byte>, p: nat, groups: nat, locals: seq<Byte>)
    requires p <= |b| && |locals| <= MAX_LOCALS && ParseLocals(b, p, groups, locals).Some?
    ensures |ParseLocals(b, p, groups, locals).value.0| <= MAX_LOCALS
    decreases groups
  {
    hide ReadU32, Repeat;
    if groups > 0 {
      var (n, q) := ReadU32(b, p).value;
      LocalsWithinLimit(b, q + 1, groups - 1, locals + Repeat(b[q], n));
    }
  }

  /** Every accepted code entry prints, locals and all, to bytes that parse to it again. */
  lemma ParsedCodeReprints(b: seq<Byte>, blockType: Byte)
    requires ParseCode(b).Some?
    ensures var code := ParseCode(b).value;
            && WellFormed(code.body)
            && ParseCode(PrintCode(OneEach(code.locals), code.body, blockType)) == Some(code)
  {
    hide ReadU32, Parse, ParseLocals, PrintCode, Expand, OneEach, WellFormed;
    var (groups, p) := ReadU32(b, 0).value;
    var (locals, q) := ParseLocals(b, p, groups, []).value;
    ParseSound(b, q, 0, 0);
    LocalsWithinLimit(b, p, groups, []);
    ExpandsOneEach(locals);
    CodeRoundTrip(OneEach(locals), ParseCode(b).value.body, blockType);
  }
}
