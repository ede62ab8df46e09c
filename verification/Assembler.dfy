// From source lines to instructions, and the size count that runs before it
// (src/front/asm/generate.cpp:26-60, 157-214, src/program.cpp:111-210,
// src/cg/assembler/codeextract.cpp:26-67).
module Assembler {
  import opened Bytes
  import opened Opcodes
  import opened Instructions
  import Text

  // Operands of a source line, with register names already replaced by their numbers.
  datatype Token =
    | Number(operand: Operand)      // 3, -3 or @3
    | Word(text: Name)              // a function, block, class, module or mark name
    | Quoted(inner: Name)           // "..."
    | Index(n: Int32)               // .3, an absolute jump
    | Forward(n: Int32)             // +3
    | Hex(n: Int32)                 // 0x3
    | RegisterSet(n: Int32)         // global, local, static or temp
    | Decimal(bits: Int32)          // a float, by the bits it is read as

  datatype Line =
    | Instruction(op: Byte, operands: seq<Token>)
    | Mark(name: Name)              // .mark:
    | NameOrLink                    // .name: or .link:
    | Other                         // .signature:, .bsignature:, .main: or .type:
    | Opening(kind: Definition, name: Name)   // .function:, .block: or .class:
    | Closing                       // .end

  datatype Definition = FunctionDefinition | BlockDefinition | ClassDefinition

  // ----- the text of quoted operands, as extract and chunk see it -----

  predicate IsSpace(c: Byte) {
    c == 32 || c == 9 || c == 11 || c == 10
  }

  function Lstrip(s: Name): Name {
    if s != [] && IsSpace(s[0]) then Lstrip(s[1..]) else s
  }

  function Chunk(s: Name): Name {
    if s != [] && !IsSpace(s[0]) then [s[0]] + Chunk(s[1..]) else []
  }

  function Quote(inner: Name): Name {
    [Text.QUOTE] + inner + [Text.QUOTE]
  }

  // The extracted literal at the head of `rest`, quotes included.
  function Literal(rest: Name): (q: Name)
    requires |rest| >= 2
    ensures 2 <= |q| <= |rest|
  {
    Text.Extracted(rest)
  }

  // ----- jump targets -----

  function ResolveJump(t: Token, marks: map<Name, nat>, index: nat): Result<(Int32, JumpKind)> {
    match t
    case Number(Operand(false, n)) =>
      if n >= 0 then Ok((n, Relative))
      else if index + n < 0 || index + n >= 0x8000_0000 then Err
      else Ok((index + n, Relative))
    case Index(n) => if n >= 0 then Ok((n, Absolute)) else Err
    case Hex(n) => if n >= 0 then Ok((n, ToByte)) else Err
    case Forward(n) =>
      if n < 0 || index + n >= 0x8000_0000 then Err else Ok((index + n, Relative))
    case Word(m) => if m in marks && marks[m] < 0x8000_0000 then Ok((marks[m], Relative)) else Err
    case _ => Err
  }

  // ----- one instruction -----

  predicate Numbers(operands: seq<Token>, n: nat) {
    |operands| >= n && forall k | 0 <= k < n :: operands[k].Number?
  }

  function AssembleTwo(op: Byte, t: seq<Token>): Result<Instr> {
    if Numbers(t, 2) then Ok(Two(op, t[0].operand, t[1].operand))
    else if ITOF <= op <= STOF && |t| == 1 && Numbers(t, 1) then Ok(Two(op, t[0].operand, t[0].operand))
    else if op == FRAME && |t| == 1 && Numbers(t, 1) then Ok(Two(op, t[0].operand, Operand(false, 16)))
    else if op == FRAME && |t| == 0 then Ok(Two(op, Operand(false, 0), Operand(false, 16)))
    else Err
  }

  function AssembleThree(op: Byte, t: seq<Token>): Result<Instr> {
    if Numbers(t, 3) then Ok(Three(op, t[0].operand, t[1].operand, t[2].operand))
    else if |t| == 2 && Numbers(t, 2) then
      if op == VINSERT then Ok(Three(op, t[0].operand, t[1].operand, Operand(false, 0)))
      else if op == VPOP || op == VAT then Ok(Three(op, t[0].operand, t[1].operand, Operand(false, -1)))
      else Ok(Three(op, t[0].operand, t[1].operand, t[0].operand))
    else if op == VPOP && |t| == 1 && Numbers(t, 1) then
      Ok(Three(op, t[0].operand, Operand(false, 0), Operand(false, -1)))
    else Err
  }

  function AssembleText(op: Byte, t: seq<Token>): Result<Instr> {
    if op == STRSTORE then
      if |t| == 2 && t[0].Number? && t[1].Quoted? then
        var q := Literal(Quote(t[1].inner));
        Ok(Instr.Text(op, t[0].operand, Inside(q)))
      else Err
    else if op == CALL && |t| == 1 && t[0].Word? then Ok(Instr.Text(op, Operand(false, 0), t[0].text))
    else if |t| == 2 && t[0].Number? && t[1].Word? && t[1].text != [] then
      Ok(Instr.Text(op, t[0].operand, t[1].text))
    else Err
  }

  // What the generators copy of a quoted literal: all but its first and last byte.
  function Inside(q: Name): Name
    requires |q| >= 2
  {
    q[1..|q| - 1]
  }

  // The operands of a catch as one text.
  function CatchRest(t: seq<Token>): (rest: Name)
    requires |t| == 2 && t[0].Quoted? && t[1].Word?
    ensures |rest| >= 2
  {
    Quote(t[0].inner) + [32] + t[1].text
  }

  function AssembleNamed(op: Byte, t: seq<Token>): Result<Instr> {
    if op == IMPORT then
      if |t| == 1 && t[0].Quoted? then Ok(Named(op, Inside(Literal(Quote(t[0].inner))))) else Err
    else if |t| == 1 && t[0].Word? then Ok(Named(op, t[0].text))
    else Err
  }

  function Assemble(op: Byte, t: seq<Token>, marks: map<Name, nat>, index: nat): Result<Instr> {
    if !Implemented(op) then Err
    else if TakesNothing(op) then Ok(Bare(op))
    else if TakesOne(op) then if Numbers(t, 1) then Ok(One(op, t[0].operand)) else Err
    else if TakesTwo(op) then AssembleTwo(op, t)
    else if TakesThree(op) then AssembleThree(op, t)
    else if TakesText(op) then AssembleText(op, t)
    else if TakesName(op) then AssembleNamed(op, t)
    else if op == FSTORE then
      if |t| == 2 && t[0].Number? && t[1].Decimal? then Ok(FloatStore(t[0].operand, t[1].bits)) else Err
    else if op == BSTORE then
      if Numbers(t, 2) then Ok(ByteStore(t[0].operand, t[1].operand.ref, t[1].operand.index % 0x100)) else Err
    else if op == RESS then
      if |t| == 1 && t[0].RegisterSet? then Ok(SelectRegisters(t[0].n)) else Err
    else if op == JUMP then
      if |t| == 1 then
        match ResolveJump(t[0], marks, index)
        case Ok(target) => Ok(Jump(target.0, target.1))
        case Err => Err
      else Err
    else if op == BRANCH then AssembleBranch(t, marks, index)
    else if op == ATTACH then
      if |t| == 3 && t[0].Number? && t[1].Word? && t[2].Word? then Ok(Attach(t[0].operand, t[1].text, t[2].text)) else Err
    else
      if |t| == 2 && t[0].Quoted? && t[1].Word? then
        var rest := CatchRest(t);
        var q := Literal(rest);
        Ok(Catch(Inside(q), Chunk(Lstrip(rest[|q|..]))))
      else Err
  }

  // Without a false target the branch falls through to the next instruction.
  function AssembleBranch(t: seq<Token>, marks: map<Name, nat>, index: nat): Result<Instr> {
    if |t| < 2 || |t| > 3 || !t[0].Number? then Err
    else
      match ResolveJump(t[1], marks, index)
      case Err => Err
      case Ok(yes) =>
        if |t| == 2 then
          if index + 1 >= 0x8000_0000 then Err
          else Ok(Branch(t[0].operand, yes.0, yes.1, index + 1, Relative))
        else
          match ResolveJump(t[2], marks, index)
          case Err => Err
          case Ok(no) => Ok(Branch(t[0].operand, yes.0, yes.1, no.0, no.1))
  }

  // ----- sizes, counted from the text alone -----

  // The length of word k of the operands, 0 when there is none.
  function WordLength(t: seq<Token>, k: nat): nat {
    if k < |t| && t[k].Word? then |t[k].text| else 0
  }

  // The length of the literal that word k starts.
  function LiteralLength(t: seq<Token>, k: nat): nat {
    if k < |t| && t[k].Quoted? then |Literal(Quote(t[k].inner))| - 2 else 0
  }

  function LineBytes(op: Byte, t: seq<Token>): nat
    requires Known(op)
  {
    var inc := OpSize(op);
    if op == ENTER then inc + WordLength(t, 0) + 1
    else if op == CALL || op == MSG then
      inc + (if |t| > 1 then WordLength(t, 1) else WordLength(t, 0)) + 1
    else if op == CLOSURE || op == FUNCTION || op == CLASS || op == PROTOTYPE || op == DERIVE || op == NEW then
      inc + WordLength(t, 1) + 1
    else if op == ATTACH then inc + WordLength(t, 1) + 1 + WordLength(t, 2) + 1
    else if op == IMPORT then inc + LiteralLength(t, 0) + 1
    else if op == LINK then inc + WordLength(t, 0) + 1
    else if op == CATCH then
      if |t| == 2 && t[0].Quoted? && t[1].Word? then
        var rest := CatchRest(t);
        var q := Literal(rest);
        inc + |q| - 2 + 1 + |Chunk(Lstrip(rest[|q|..]))| + 1
      else inc
    else if op == STRSTORE then inc + LiteralLength(t, 1) + 1
    else inc
  }

  lemma TextBytes(op: Byte, t: seq<Token>)
    requires TakesText(op) && Implemented(op) && AssembleText(op, t).Ok?
    ensures var i := AssembleText(op, t).value;
            i.Text? && i.op == op && LineBytes(op, t) == 6 + |i.text| + 1
  {
    hide Literal;
  }

  lemma NamedBytes(op: Byte, t: seq<Token>)
    requires TakesName(op) && AssembleNamed(op, t).Ok?
    ensures var i := AssembleNamed(op, t).value;
            i.Named? && i.op == op && LineBytes(op, t) == 1 + |i.name| + 1
  {
    hide Literal;
  }

  lemma AttachBytes(t: seq<Token>, marks: map<Name, nat>, index: nat)
    requires Assemble(ATTACH, t, marks, index).Ok?
    ensures var i := Assemble(ATTACH, t, marks, index).value;
            i.Attach? && LineBytes(ATTACH, t) == Size(i)
  {
  }

  lemma CatchBytes(t: seq<Token>, marks: map<Name, nat>, index: nat)
    requires Assemble(CATCH, t, marks, index).Ok?
    ensures var i := Assemble(CATCH, t, marks, index).value;
            i.Catch? && LineBytes(CATCH, t) == Size(i)
  {
    hide Literal, Chunk, Lstrip;
  }

  lemma FixedBytes(op: Byte, t: seq<Token>)
    requires Known(op) && !VariableLength(op)
    ensures LineBytes(op, t) == OpSize(op)
  {
  }

  // Lines of a fixed length assemble to an instruction of their own opcode without texts.
  lemma FixedShape(op: Byte, t: seq<Token>, marks: map<Name, nat>, index: nat)
    requires !VariableLength(op) && Assemble(op, t, marks, index).Ok?
    ensures var i := Assemble(op, t, marks, index).value;
            i.Valid() && i.Opcode() == op && !i.Text? && !i.Named? && !i.Attach? && !i.Catch?
  {
    hide ResolveJump;
  }

  lemma FixedSize(i: Instr)
    requires i.Valid() && !i.Text? && !i.Named? && !i.Attach? && !i.Catch?
    ensures Size(i) == OpSize(i.Opcode())
  {
  }

  lemma AssembleByShape(op: Byte, t: seq<Token>, marks: map<Name, nat>, index: nat)
    ensures TakesText(op) && Implemented(op) ==> Assemble(op, t, marks, index) == AssembleText(op, t)
    ensures TakesName(op) ==> Assemble(op, t, marks, index) == AssembleNamed(op, t)
    ensures !Implemented(op) ==> Assemble(op, t, marks, index) == Err
  {
  }

  // The count and the generator agree on every line that assembles.
  lemma LineBytesIsSize(op: Byte, t: seq<Token>, marks: map<Name, nat>, index: nat)
    requires Assemble(op, t, marks, index).Ok?
    ensures var i := Assemble(op, t, marks, index).value;
            Known(op) && i.Valid() && i.Opcode() == op && LineBytes(op, t) == |Encode(i)|
  {
    hide Encode, Assemble, AssembleText, AssembleNamed, LineBytes;
    AssembleByShape(op, t, marks, index);
    var i := Assemble(op, t, marks, index).value;
    if TakesText(op) {
      TextBytes(op, t);
    } else if TakesName(op) {
      NamedBytes(op, t);
    } else if op == ATTACH {
      AttachBytes(t, marks, index);
    } else if op == CATCH {
      CatchBytes(t, marks, index);
    } else {
      FixedBytes(op, t);
      FixedShape(op, t, marks, index);
      FixedSize(i);
    }
    SizeIsEncodedLength(i);
  }

  // ----- bodies: the lines of one function or block -----

  // The definition that is still open after the lines: one that nothing has closed since it was opened
  // where none was.
  function StillOpen(lines: seq<Line>): Option<Definition> {
    if lines == [] then None
    else
      var last := lines[|lines| - 1];
      match StillOpen(lines[..|lines| - 1])
      case None => if last.Opening? then Some(last.kind) else None
      case Some(kind) => if last.Closing? then None else Some(kind)
  }

  // No definition is left open.
  predicate AllClosed(lines: seq<Line>) {
    StillOpen(lines).None?
  }

  predicate Opens(l: Line, kind: Definition) {
    l.Opening? && l.kind == kind
  }

  // A definition of this kind is open after the lines; what other definitions there are does not
  // matter.
  predicate OpenOf(lines: seq<Line>, kind: Definition) {
    if lines == [] then false
    else
      var last := lines[|lines| - 1];
      if OpenOf(lines[..|lines| - 1], kind) then !last.Closing? else Opens(last, kind)
  }

  lemma {:induction false} OpenIsOpen(lines: seq<Line>, kind: Definition)
    requires OpenOf(lines, kind)
    ensures StillOpen(lines).Some?
  {
    if OpenOf(lines[..|lines| - 1], kind) {
      OpenIsOpen(lines[..|lines| - 1], kind);
    }
  }

  predicate NoDefinitions(lines: seq<Line>) {
    forall l <- lines :: !l.Opening? && !l.Closing?
  }

  lemma {:induction false} NothingOpen(lines: seq<Line>, k: nat)
    requires NoDefinitions(lines) && k <= |lines|
    ensures StillOpen(lines[..k]).None?
  {
    if k > 0 {
      NothingOpen(lines, k - 1);
      assert lines[..k][..k - 1] == lines[..k - 1];
    }
  }

  lemma BodyIsClosed(lines: seq<Line>)
    requires NoDefinitions(lines)
    ensures AllClosed(lines)
  {
    NothingOpen(lines, |lines|);
    assert lines[..|lines|] == lines;
  }

  // What filter keeps of a line outside of definitions: instructions, and an `.end` that closes nothing.
  predicate IsKept(l: Line) {
    l.Instruction? || l.Closing?
  }

  // filter: the lines that are to produce bytecode.
  function InstructionLines(lines: seq<Line>): (r: seq<Line>)
    ensures forall l <- r :: IsKept(l)
  {
    if lines == [] then []
    else
      var init, last := lines[..|lines| - 1], lines[|lines| - 1];
      InstructionLines(init) + (if StillOpen(init).None? && IsKept(last) then [last] else [])
  }

  lemma {:induction false} AllInstructions(lines: seq<Line>)
    requires forall l <- lines :: l.Instruction?
    ensures NoDefinitions(lines) && InstructionLines(lines) == lines
  {
    if lines != [] {
      var n := |lines| - 1;
      AllInstructions(lines[..n]);
      NothingOpen(lines, n);
    }
  }

  method Filter(lines: seq<Line>) returns (filtered: seq<Line>)
    requires AllClosed(lines)
    ensures filtered == InstructionLines(lines)
  {
    filtered := [];
    var i := 0;
    while i < |lines|
      invariant i <= |lines| && StillOpen(lines[..i]).None?
      invariant filtered == InstructionLines(lines[..i])
    {
      assert lines[..i + 1][..i] == lines[..i];
      if lines[i].Opening? {
        i := SkipDefinition(lines, i);
      } else {
        if IsKept(lines[i]) {
          filtered := filtered + [lines[i]];
        }
        i := i + 1;
      }
    }
    assert lines[..|lines|] == lines;
  }

  // Lines that getmarks takes for instructions: it skips functions, marks, names and links only.
  predicate TakenForInstruction(inFunction: bool, l: Line) {
    !inFunction && !Opens(l, FunctionDefinition) && !l.Mark? && !l.NameOrLink?
  }

  // The instruction counter of getmarks.
  function Counted(lines: seq<Line>): nat {
    if lines == [] then 0
    else
      var init, last := lines[..|lines| - 1], lines[|lines| - 1];
      Counted(init) + (if TakenForInstruction(OpenOf(init, FunctionDefinition), last) then 1 else 0)
  }

  function Marks(lines: seq<Line>): map<Name, nat> {
    if lines == [] then map[]
    else
      var init, last := lines[..|lines| - 1], lines[|lines| - 1];
      if last.Mark? && !OpenOf(init, FunctionDefinition) then Marks(init)[last.name := Counted(init)]
      else Marks(init)
  }

  // What line i adds to the lines before it.
  lemma NextLine(lines: seq<Line>, i: nat)
    requires i < |lines|
    ensures var init, next, l := lines[..i], lines[..i + 1], lines[i];
            && (StillOpen(init).None? ==> StillOpen(next) == if l.Opening? then Some(l.kind) else None)
            && (StillOpen(init).Some? ==> StillOpen(next) == if l.Closing? then None else StillOpen(init))
            && InstructionLines(next) ==
               InstructionLines(init) + (if StillOpen(init).None? && IsKept(l) then [l] else [])
  {
    assert lines[..i + 1][..i] == lines[..i];
  }

  // Behind the end of the definition that line start opens.
  method SkipDefinition(lines: seq<Line>, start: nat) returns (i: nat)
    requires AllClosed(lines) && start < |lines| && lines[start].Opening? && StillOpen(lines[..start]).None?
    ensures start < i <= |lines| && StillOpen(lines[..i]).None?
    ensures InstructionLines(lines[..i]) == InstructionLines(lines[..start])
  {
    hide StillOpen, InstructionLines;
    i := start + 1;
    NextLine(lines, start);
    assert lines[..|lines|] == lines;
    while !lines[i].Closing?
      invariant start < i < |lines| && StillOpen(lines[..i]).Some?
      invariant InstructionLines(lines[..i]) == InstructionLines(lines[..start])
      decreases |lines| - i
    {
      NextLine(lines, i);
      i := i + 1;
    }
    NextLine(lines, i);
    i := i + 1;
  }

  // What line i adds to the marks, of which a function has its own.
  lemma NextMark(lines: seq<Line>, i: nat)
    requires i < |lines|
    ensures var init, next, l := lines[..i], lines[..i + 1], lines[i];
            && OpenOf(next, FunctionDefinition) ==
               (if OpenOf(init, FunctionDefinition) then !l.Closing? else Opens(l, FunctionDefinition))
            && (OpenOf(init, FunctionDefinition) || Opens(l, FunctionDefinition) ==>
                  Counted(next) == Counted(init) && Marks(next) == Marks(init))
  {
    assert lines[..i + 1][..i] == lines[..i];
  }

  // Behind the end of the function that line start opens.
  method SkipFunction(lines: seq<Line>, start: nat) returns (i: nat)
    requires !OpenOf(lines, FunctionDefinition) && start < |lines| && Opens(lines[start], FunctionDefinition)
    requires !OpenOf(lines[..start], FunctionDefinition)
    ensures start < i <= |lines| && !OpenOf(lines[..i], FunctionDefinition)
    ensures Counted(lines[..i]) == Counted(lines[..start]) && Marks(lines[..i]) == Marks(lines[..start])
  {
    hide OpenOf, Counted, Marks;
    i := start;
    NextMark(lines, start);
    assert lines[..|lines|] == lines;
    while !lines[i].Closing?
      invariant start <= i < |lines| && (i > start ==> OpenOf(lines[..i], FunctionDefinition))
      invariant Counted(lines[..i]) == Counted(lines[..start]) && Marks(lines[..i]) == Marks(lines[..start])
      decreases |lines| - i
    {
      NextMark(lines, i);
      i := i + 1;
    }
    NextMark(lines, i);
    i := i + 1;
  }

  method GetMarks(lines: seq<Line>) returns (marks: map<Name, nat>)
    requires !OpenOf(lines, FunctionDefinition)
    ensures marks == Marks(lines)
  {
    marks := map[];
    var instruction, i := 0, 0;
    while i < |lines|
      invariant i <= |lines| && !OpenOf(lines[..i], FunctionDefinition)
      invariant instruction == Counted(lines[..i]) && marks == Marks(lines[..i])
    {
      assert lines[..i + 1][..i] == lines[..i];
      if Opens(lines[i], FunctionDefinition) {
        i := SkipFunction(lines, i);
      } else {
        match lines[i] {
          case NameOrLink =>
          case Mark(name) => marks := marks[name := instruction];
          case _ => instruction := instruction + 1;
        }
        i := i + 1;
      }
    }
    assert lines[..|lines|] == lines;
  }

  // Lines that getmarks counts although they produce no instruction of this body: directives, and
  // all of the blocks and classes defined between.
  function Surplus(lines: seq<Line>): nat {
    if lines == [] then 0
    else
      var init, last := lines[..|lines| - 1], lines[|lines| - 1];
      Surplus(init) +
      (if TakenForInstruction(OpenOf(init, FunctionDefinition), last) && !(StillOpen(init).None? && IsKept(last)) then 1 else 0)
  }

  lemma {:induction false} CountedMeaning(lines: seq<Line>)
    ensures Counted(lines) == |InstructionLines(lines)| + Surplus(lines)
  {
    hide OpenOf;
    if lines != [] {
      var init := lines[..|lines| - 1];
      CountedMeaning(init);
      if OpenOf(init, FunctionDefinition) {
        OpenIsOpen(init, FunctionDefinition);
      }
    }
  }

  // Line p defines the mark outside of functions, and no later line does.
  predicate LastMark(lines: seq<Line>, name: Name, p: nat) {
    && p < |lines| && lines[p] == Mark(name) && !OpenOf(lines[..p], FunctionDefinition)
    && forall k | p < k < |lines| && lines[k] == Mark(name) :: OpenOf(lines[..k], FunctionDefinition)
  }

  // A mark stands for the instruction after its last definition, shifted by one for every line
  // before it that is counted without producing an instruction.
  lemma {:induction false} MarkMeaning(lines: seq<Line>, name: Name, p: nat)
    requires LastMark(lines, name, p)
    ensures name in Marks(lines) && Marks(lines)[name] == |InstructionLines(lines[..p])| + Surplus(lines[..p])
    decreases |lines|
  {
    var n := |lines| - 1;
    if p == n {
      CountedMeaning(lines[..n]);
    } else {
      assert forall k | p <= k < n :: lines[..n][..k] == lines[..k];
      MarkMeaning(lines[..n], name, p);
      assert lines[n] == Mark(name) ==> OpenOf(lines[..n], FunctionDefinition);
    }
  }

  // Only marks that are defined outside of functions are known.
  lemma {:induction false} MarkDefined(lines: seq<Line>, name: Name) returns (p: nat)
    requires name in Marks(lines)
    ensures LastMark(lines, name, p)
  {
    var n := |lines| - 1;
    if lines[n] == Mark(name) && !OpenOf(lines[..n], FunctionDefinition) {
      p := n;
    } else {
      p := MarkDefined(lines[..n], name);
      assert forall k | p <= k < n :: lines[..n][..k] == lines[..k];
      assert forall k | p < k < n && lines[k] == Mark(name) :: lines[..n][k] == Mark(name);
    }
  }

  // A line outside of functions that produces an instruction, or that getmarks skips.
  predicate CountsRight(init: seq<Line>, l: Line) {
    || OpenOf(init, FunctionDefinition) || Opens(l, FunctionDefinition) || l.Mark? || l.NameOrLink?
    || (StillOpen(init).None? && (l.Instruction? || l.Closing?))
  }

  // The shift is zero if and only if in front of the mark there are only instructions, marks, names,
  // links and functions: no other directive, no block and no class.
  lemma {:induction false} SurplusExactly(lines: seq<Line>)
    ensures Surplus(lines) == 0 <==> forall k | 0 <= k < |lines| :: CountsRight(lines[..k], lines[k])
  {
    hide OpenOf, StillOpen;
    if lines != [] {
      var n := |lines| - 1;
      SurplusExactly(lines[..n]);
      assert forall k | 0 <= k < n :: lines[..n][..k] == lines[..k];
    }
  }

  // ----- counting and assembling whole bodies -----

  predicate AllKnown(lines: seq<Line>) {
    forall l <- lines :: l.Instruction? ==> Known(l.op)
  }

  // The bytes countBytes takes for a line; an instruction without a name has none.
  function BytesOf(l: Line): nat {
    if l.Instruction? && Known(l.op) then LineBytes(l.op, l.operands) else 0
  }

  function TotalBytes(lines: seq<Line>): nat {
    if lines == [] then 0 else TotalBytes(lines[..|lines| - 1]) + BytesOf(lines[|lines| - 1])
  }

  // The bytes of the code of a body.
  function BodyBytes(lines: seq<Line>): nat {
    TotalBytes(InstructionLines(lines))
  }

  // The size of some lines in a 16-bit counter, or an error on an unknown instruction.
  method CountBytes(lines: seq<Line>) returns (r: Result<nat>)
    ensures r.Ok? <==> AllKnown(lines)
    ensures r.Ok? ==> r.value == TotalBytes(lines) % 0x1_0000
  {
    hide LineBytes, Known, TotalBytes, AllKnown;
    var bytes := 0;
    NothingKnown();
    assert lines[..0] == [];
    for i := 0 to |lines|
      invariant AllKnown(lines[..i])
      invariant bytes == TotalBytes(lines[..i]) % 0x1_0000
    {
      if lines[i].Instruction? && !Known(lines[i].op) {
        UnknownLine(lines, i);
        return Err;
      }
      assert lines[..i + 1] == lines[..i] + [lines[i]];
      KnownSnoc(lines[..i], lines[i]);
      if lines[i].Instruction? {
        bytes := (bytes + LineBytes(lines[i].op, lines[i].operands)) % 0x1_0000;
      }
    }
    assert lines[..|lines|] == lines;
    r := Ok(bytes);
  }

  // Line k of the kept lines becomes instruction k; an `.end` among them is no instruction.
  function AssembleAll(lines: seq<Line>, marks: map<Name, nat>): (r: Result<Code>)
    ensures r.Ok? ==> |r.value| == |lines| && forall l <- lines :: l.Instruction?
  {
    if lines == [] then Ok([])
    else
      var n := |lines| - 1;
      match AssembleAll(lines[..n], marks)
      case Err => Err
      case Ok(code) =>
        if !lines[n].Instruction? then Err
        else
          match Assemble(lines[n].op, lines[n].operands, marks, n)
          case Err => Err
          case Ok(i) => Ok(code + [i])
  }

  lemma AssembleSnoc(init: seq<Line>, l: Line, marks: map<Name, nat>)
    requires l.Instruction? && AssembleAll(init, marks).Ok? && Assemble(l.op, l.operands, marks, |init|).Ok?
    ensures AssembleAll(init + [l], marks) ==
            Ok(AssembleAll(init, marks).value + [Assemble(l.op, l.operands, marks, |init|).value])
  {
    hide Assemble;
    assert (init + [l])[..|init|] == init;
  }

  lemma AssembleNothing(marks: map<Name, nat>)
    ensures AssembleAll([], marks) == Ok([])
  {
  }

  // The code of a body.
  function Assembled(lines: seq<Line>): Result<Code> {
    AssembleAll(InstructionLines(lines), Marks(lines))
  }

  lemma {:induction false} AllValid(lines: seq<Line>, marks: map<Name, nat>)
    requires AssembleAll(lines, marks).Ok?
    ensures forall l <- lines :: Known(l.op)
    ensures ValidCode(AssembleAll(lines, marks).value)
  {
    if lines != [] {
      hide Assemble, Known, LineBytes, Encode;
      var n := |lines| - 1;
      AllValid(lines[..n], marks);
      LineBytesIsSize(lines[n].op, lines[n].operands, marks, n);
    }
  }

  lemma {:induction false} AllBytes(lines: seq<Line>, marks: map<Name, nat>)
    requires AssembleAll(lines, marks).Ok?
    ensures forall l <- lines :: Known(l.op)
    ensures TotalBytes(lines) == |EncodeAll(AssembleAll(lines, marks).value)|
  {
    hide Assemble, LineBytes, Encode, EncodeAll, Known;
    AllValid(lines, marks);
    if lines == [] {
      EncodeNothing();
    } else {
      var n := |lines| - 1;
      AllBytes(lines[..n], marks);
      LineBytesIsSize(lines[n].op, lines[n].operands, marks, n);
      EncodeSnoc(AssembleAll(lines[..n], marks).value, Assemble(lines[n].op, lines[n].operands, marks, n).value);
    }
  }

  lemma KnownSnoc(lines: seq<Line>, l: Line)
    ensures AllKnown(lines + [l]) <==> AllKnown(lines) && (l.Instruction? ==> Known(l.op))
    ensures TotalBytes(lines + [l]) == TotalBytes(lines) + BytesOf(l)
  {
    hide LineBytes, Known;
    assert (lines + [l])[..|lines|] == lines;
    assert forall x <- lines :: x in lines + [l];
    assert l in lines + [l];
  }

  lemma UnknownLine(lines: seq<Line>, i: nat)
    requires i < |lines| && lines[i].Instruction? && !Known(lines[i].op)
    ensures !AllKnown(lines)
  {
    assert lines[i] in lines;
  }

  lemma NothingKnown()
    ensures AllKnown([]) && TotalBytes([]) == 0
  {
  }

  // Counting a body that contains no definitions counts its instructions.
  lemma {:induction false} FilterKeepsBytes(lines: seq<Line>)
    requires NoDefinitions(lines)
    ensures AllKnown(lines) <==> AllKnown(InstructionLines(lines))
    ensures BodyBytes(lines) == TotalBytes(lines)
  {
    hide LineBytes, Known, AllKnown, TotalBytes, StillOpen;
    if lines == [] {
      NothingKnown();
    } else {
      var n := |lines| - 1;
      FilterKeepsBytes(lines[..n]);
      NothingOpen(lines, n);
      assert lines == lines[..n] + [lines[n]];
      KnownSnoc(lines[..n], lines[n]);
      var init := InstructionLines(lines[..n]);
      if IsKept(lines[n]) {
        KnownSnoc(init, lines[n]);
      } else {
        assert InstructionLines(lines) == init;
      }
    }
  }

  // The size counted from the text of a body is the length of the bytes generated for it.
  lemma CountIsExact(lines: seq<Line>)
    requires Assembled(lines).Ok?
    ensures AllKnown(InstructionLines(lines))
    ensures ValidCode(Assembled(lines).value)
    ensures BodyBytes(lines) == |EncodeAll(Assembled(lines).value)|
    ensures NoDefinitions(lines) ==> AllKnown(lines) && TotalBytes(lines) == |EncodeAll(Assembled(lines).value)|
  {
    hide AssembleAll, EncodeAll;
    AllValid(InstructionLines(lines), Marks(lines));
    AllBytes(InstructionLines(lines), Marks(lines));
    if NoDefinitions(lines) {
      FilterKeepsBytes(lines);
    }
  }

  // A mark behind a directive: it stands for the second instruction although it is set before the first.
  lemma DirectiveShiftsMark(name: Name)
    ensures var lines := [Other, Mark(name), Instruction(NOP, [])];
            name in Marks(lines) && Marks(lines)[name] == 1 && InstructionLines(lines) == [Instruction(NOP, [])]
  {
    var lines := [Other, Mark(name), Instruction(NOP, [])];
    assert lines[..2] == [Other, Mark(name)] && lines[..1] == [Other] && lines[..0] == [];
    NothingOpen(lines, 1);
    NothingOpen(lines, 2);
    assert lines[..2][..1] == lines[..1] && lines[..1][..0] == [];
    NothingOpen(lines, 0);
    assert Counted(lines[..1]) == 1 && InstructionLines(lines[..1]) == [] && Marks(lines[..1]) == map[];
    assert lines[..2][1] == Mark(name);
    assert Marks(lines[..2])[name] == 1 && InstructionLines(lines[..2]) == [];
  }
}
