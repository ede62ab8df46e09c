// One body from source lines to patched bytes: compile, calculateJumps and the parts of generate
// that drive them (src/front/asm/generate.cpp:202-214, 616-630, 905-963, 978-1036).
module Compiler {
  import opened Bytes
  import opened Opcodes
  import opened Instructions
  import opened Assembler
  import opened Jumps
  import opened Programs

  // A target that is an instruction index is never negative.
  predicate IndexesNatural(i: Instr) {
    match i
    case Jump(t, k) => k != ToByte ==> t >= 0
    case Branch(_, t, tk, f, fk) => (tk != ToByte ==> t >= 0) && (fk != ToByte ==> f >= 0)
    case _ => true
  }

  lemma AssembledNatural(op: Byte, t: seq<Token>, marks: map<Name, nat>, index: nat)
    requires Assemble(op, t, marks, index).Ok?
    ensures IndexesNatural(Assemble(op, t, marks, index).value)
  {
    if op == JUMP || op == BRANCH {
    } else {
      hide ResolveJump, AssembleBranch;
    }
  }

  lemma {:induction false} AllNatural(lines: seq<Line>, marks: map<Name, nat>)
    requires AssembleAll(lines, marks).Ok?
    ensures forall i <- AssembleAll(lines, marks).value :: IndexesNatural(i)
  {
    hide Assemble, IndexesNatural;
    if lines != [] {
      var n := |lines| - 1;
      AllNatural(lines[..n], marks);
      AssembledNatural(lines[n].op, lines[n].operands, marks, n);
    }
  }

  lemma {:induction false} AssembleAllPrefix(lines: seq<Line>, marks: map<Name, nat>, k: nat)
    requires k <= |lines| && AssembleAll(lines, marks).Ok?
    ensures AssembleAll(lines[..k], marks).Ok?
    decreases |lines|
  {
    hide Assemble;
    if k == |lines| {
      assert lines[..k] == lines;
    } else {
      AssembleAllPrefix(lines[..|lines| - 1], marks, k);
      assert lines[..|lines| - 1][..k] == lines[..k];
    }
  }

  lemma {:induction false} PrefixBytes(lines: seq<Line>, k: nat)
    requires k < |lines| && lines[k].Instruction? && Known(lines[k].op)
    ensures TotalBytes(lines[..k]) + LineBytes(lines[k].op, lines[k].operands) <= TotalBytes(lines)
    decreases |lines|
  {
    hide LineBytes, Known;
    var n := |lines| - 1;
    if k < n {
      PrefixBytes(lines[..n], k);
      assert lines[..n][..k] == lines[..k];
    }
  }

  // After i lines there is room for the next one in a buffer of the counted size.
  lemma FitsNext(lines: seq<Line>, marks: map<Name, nat>, i: nat)
    requires AllKnown(lines) && i < |lines| && lines[i].Instruction?
    requires AssembleAll(lines[..i], marks).Ok? && Assemble(lines[i].op, lines[i].operands, marks, i).Ok?
    ensures var instr := Assemble(lines[i].op, lines[i].operands, marks, i).value;
            instr.Valid() && |EncodeAll(AssembleAll(lines[..i], marks).value)| + Size(instr) <= TotalBytes(lines)
  {
    hide Assemble, EncodeAll, Encode, LineBytes, Known, Size;
    AllBytes(lines[..i], marks);
    LineBytesIsSize(lines[i].op, lines[i].operands, marks, i);
    SizeIsEncodedLength(Assemble(lines[i].op, lines[i].operands, marks, i).value);
    PrefixBytes(lines, i);
  }

  lemma NoFunctionOpen(lines: seq<Line>)
    requires AllClosed(lines)
    ensures !OpenOf(lines, FunctionDefinition)
  {
    if OpenOf(lines, FunctionDefinition) {
      OpenIsOpen(lines, FunctionDefinition);
    }
  }

  // compile: emit the instruction lines of a body in order into a buffer of the counted size.
  method Compile(program: Program, lines: seq<Line>) returns (ok: bool)
    requires program.Valid() && program.code == []
    requires AllClosed(lines) && AllKnown(InstructionLines(lines)) && program.program.Length == BodyBytes(lines)
    modifies program, program.program
    ensures program.program == old(program.program)
    ensures ok <==> Assembled(lines).Ok?
    ensures ok ==> program.Valid() && program.code == Assembled(lines).value
  {
    hide Assemble, EncodeAll, Encode, LineBytes, Known, Size, Program.Valid, InstructionLines, Marks, AllClosed, OpenOf;
    NoFunctionOpen(lines);
    var marks := GetMarks(lines);
    var ilines := Filter(lines);
    for i := 0 to |ilines|
      invariant program.Valid() && program.program == old(program.program)
      invariant AssembleAll(ilines[..i], marks) == Ok(program.code)
    {
      assert ilines[..i + 1][..i] == ilines[..i];
      if !ilines[i].Instruction? {
        assert ilines[i] in ilines;
        return false;
      }
      var instr := Assemble(ilines[i].op, ilines[i].operands, marks, i);
      if instr.Err? {
        if Assembled(lines).Ok? {
          AssembleAllPrefix(ilines, marks, i + 1);
        }
        return false;
      }
      FitsNext(ilines, marks, i);
      program.Emit(instr.value);
    }
    assert ilines[..|ilines|] == ilines;
    ok := true;
  }

  // A body that gets through the assembler.
  predicate Assembles(lines: seq<Line>) {
    Assembled(lines).Ok? && TargetsInside(Assembled(lines).value)
  }

  // The code of a body as its jumps are filed.  It is the code the lines mean exactly when the body
  // is consistent.
  function CodeOf(lines: seq<Line>): Code
    requires Assembles(lines)
  {
    Filed(Assembled(lines).value)
  }

  // No branch mixes an absolute target with one of another kind.
  predicate Consistent(lines: seq<Line>) {
    Assembled(lines).Ok? ==> AllKindsAgree(Assembled(lines).value)
  }

  lemma ConsistentMeaning(lines: seq<Line>)
    requires Assembles(lines)
    ensures Consistent(lines) <==> CodeOf(lines) == Assembled(lines).value
  {
    hide Assembled;
    FiledMeaning(Assembled(lines).value);
  }

  // What is known of the code of a body.
  lemma CodeMeaning(lines: seq<Line>)
    requires Assembles(lines)
    ensures AllKnown(InstructionLines(lines)) && |EncodeAll(CodeOf(lines))| == BodyBytes(lines)
    ensures ValidCode(CodeOf(lines)) && AllKindsAgree(CodeOf(lines))
    ensures TargetsInside(CodeOf(lines)) && forall i <- CodeOf(lines) :: IndexesNatural(i)
    ensures forall s <- RecordedSlots(CodeOf(lines), false) :: HasSlot(CodeOf(lines), s) && TargetOf(CodeOf(lines), s) >= 0
  {
    hide Assembled, InstructionLines, Marks, RecordedSlots, BodyBytes, EncodeAll, Encode, TargetOf, HasSlot, IndexesNatural,
      FiledInstr;
    var code := Assembled(lines).value;
    CountIsExact(lines);
    FiledMeaning(code);
    FiledTargets(code);
    BodyNatural(lines);
    forall k | 0 <= k < |code|
      ensures IndexesNatural(CodeOf(lines)[k])
    {
      FiledNatural(code[k]);
    }
    SlotsNatural(CodeOf(lines));
  }

  lemma BodyNatural(lines: seq<Line>)
    requires Assembled(lines).Ok?
    ensures forall i <- Assembled(lines).value :: IndexesNatural(i)
  {
    hide InstructionLines, Marks, AssembleAll;
    AllNatural(InstructionLines(lines), Marks(lines));
  }

  lemma FiledNatural(i: Instr)
    requires IndexesNatural(i)
    ensures IndexesNatural(FiledInstr(i))
  {
  }

  lemma SlotsNatural(code: Code)
    requires AllKindsAgree(code) && forall i <- code :: IndexesNatural(i)
    ensures forall s <- RecordedSlots(code, false) :: HasSlot(code, s) && TargetOf(code, s) >= 0
  {
    hide RecordedSlots;
    RecordedAreSlots(code, false);
    forall s | s in RecordedSlots(code, false)
      ensures TargetOf(code, s) >= 0
    {
      FilingOfSlot(code, s);
      assert IndexesNatural(code[s.at]);
    }
  }

  // The code of a body placed at byte base.
  function PlacedCode(lines: seq<Line>, base: nat): Code
    requires Assembles(lines)
  {
    Resolve(CodeOf(lines), Relative, base)
  }

  datatype Element = Element(bytes: seq<Byte>, jumps: seq<nat>, absolute: seq<nat>)

  // The bytes generated for a body at base, with its relative targets turned into addresses, and
  // the positions of its relative and absolute targets.
  ghost predicate IsElement(lines: seq<Line>, base: nat, e: Element)
    requires Assembles(lines)
  {
    && e.bytes == EncodeAll(PlacedCode(lines, base))
    && |e.bytes| == |EncodeAll(CodeOf(lines))|
    && Locates(CodeOf(lines), RecordedSlots(CodeOf(lines), false), e.jumps)
    && Locates(CodeOf(lines), RecordedSlots(CodeOf(lines), true), e.absolute)
  }

  lemma {:induction false} ResolveLength(code: Code, other: Code)
    requires |code| == |other| && forall k | 0 <= k < |code| :: SameButTargets(code[k], other[k])
    ensures |EncodeAll(code)| == |EncodeAll(other)|
  {
    hide Encode, SameButTargets;
    if code != [] {
      SameLength(code[0], other[0]);
      ResolveLength(code[1..], other[1..]);
    }
  }

  lemma ResolvedSame(code: Code, kind: JumpKind, offset: nat)
    ensures forall k | 0 <= k < |code| :: SameButTargets(code[k], Resolve(code, kind, offset)[k])
    ensures |EncodeAll(Resolve(code, kind, offset))| == |EncodeAll(code)|
  {
    hide EncodeAll, Encode, ByteAddress;
    ResolveLength(code, Resolve(code, kind, offset));
  }

  // One function or block.  The entry function is counted without the definitions it contains, the
  // others are counted as they are.
  method GenerateElement(lines: seq<Line>, entry: bool, base: nat) returns (r: Option<Element>)
    requires if entry then AllClosed(lines) else NoDefinitions(lines)
    requires BodyBytes(lines) < 0x1_0000 && base < 0x4000_0000
    ensures r.Some? <==> Assembles(lines)
    ensures r.Some? ==> IsElement(lines, base, r.value)
  {
    hide Assemble, AssembleAll, EncodeAll, Encode, RecordedSlots, Locates, InstructionLines, Marks, TargetOf, HasSlot,
      AllClosed, TotalBytes, Filed, Resolve, AllKnown;
    var counted := lines;
    if entry {
      counted := Filter(lines);
    } else {
      BodyIsClosed(lines);
      FilterKeepsBytes(lines);
    }
    if Assembled(lines).Ok? {
      CountIsExact(lines);
    }
    var size := CountBytes(counted);
    if size.Err? {
      return None;
    }
    var func := new Program(size.value);
    var ok := Compile(func, lines);
    if !ok {
      return None;
    }
    RecordedNatural(lines);
    var jumps, absolute := func.branches, func.branchesAbsolute;
    FiledElement(lines, jumps, absolute);
    ok := func.CalculateLocalJumps(base);
    if !ok {
      return None;
    }
    CodeMeaning(lines);
    ResolvedSame(CodeOf(lines), Relative, base);
    r := Some(Element(func.program[..], jumps, absolute));
  }

  lemma RecordedNatural(lines: seq<Line>)
    requires Assembled(lines).Ok?
    ensures var code := Assembled(lines).value;
            forall s <- RecordedSlots(code, false) :: HasSlot(code, s) ==> 0 <= TargetOf(code, s)
  {
    hide Assembled, RecordedSlots, TargetOf, HasSlot, IndexesNatural, FiledInstr;
    var code := Assembled(lines).value;
    FiledMeaning(code);
    FiledTargets(code);
    BodyNatural(lines);
    forall k | 0 <= k < |code|
      ensures IndexesNatural(Filed(code)[k])
    {
      FiledNatural(code[k]);
    }
    SlotsNatural(Filed(code));
  }

  // Positions recorded for the code as understood are those of the code as filed.
  lemma FiledElement(lines: seq<Line>, jumps: seq<nat>, absolute: seq<nat>)
    requires Assembled(lines).Ok?
    requires var code := Assembled(lines).value;
             Locates(code, RecordedSlots(code, false), jumps) && Locates(code, RecordedSlots(code, true), absolute)
    ensures var code := Filed(Assembled(lines).value);
            Locates(code, RecordedSlots(code, false), jumps) && Locates(code, RecordedSlots(code, true), absolute)
  {
    hide Assembled, RecordedSlots, HasSlot, Position, FiledInstr;
    var code := Assembled(lines).value;
    FiledMeaning(code);
    FiledTargets(code);
  }
}
