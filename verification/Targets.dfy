// What the operands of jumps and branches stand for (src/front/asm/generate.cpp:26-60, 520-580).
module Targets {
  import opened Bytes
  import opened Opcodes
  import opened Instructions
  import opened Assembler

  // An operand of instruction k of a body stands for a target: a mark for what follows its last
  // definition, +n and -n for the n-th instruction behind or in front of the own one, a plain number for
  // that instruction of the body, .n for one of the whole program, 0x... for a byte of it.
  ghost predicate Denotes(lines: seq<Line>, k: nat, t: Token, target: Int32, kind: JumpKind) {
    match t
    case Word(name) =>
      kind == Relative && exists p: nat :: LastMark(lines, name, p) && target == |InstructionLines(lines[..p])| + Surplus(lines[..p])
    case Forward(n) => kind == Relative && n >= 0 && target == k + n
    case Number(a) => kind == Relative && !a.ref && target == if a.index < 0 then k + a.index else a.index
    case Index(n) => kind == Absolute && target == n
    case Hex(n) => kind == ToByte && target == n
    case _ => false
  }

  lemma ResolvedDenotes(lines: seq<Line>, k: nat, t: Token)
    requires ResolveJump(t, Marks(lines), k).Ok?
    ensures var r := ResolveJump(t, Marks(lines), k).value; Denotes(lines, k, t, r.0, r.1) && r.0 >= 0
  {
    if t.Word? {
      var p := MarkDefined(lines, t.text);
      MarkMeaning(lines, t.text, p);
    }
  }

  // An operand is accepted exactly when it stands for a target that is not negative and fits.
  lemma ResolvedExactly(lines: seq<Line>, k: nat, t: Token)
    ensures ResolveJump(t, Marks(lines), k).Ok? <==> exists x: Int32, kind :: x >= 0 && Denotes(lines, k, t, x, kind)
  {
    if ResolveJump(t, Marks(lines), k).Ok? {
      ResolvedDenotes(lines, k, t);
      var r := ResolveJump(t, Marks(lines), k).value;
      assert r.0 >= 0 && Denotes(lines, k, t, r.0, r.1);
    } else {
      forall x: Int32, kind | x >= 0 && Denotes(lines, k, t, x, kind)
        ensures false
      {
        if t.Word? {
          var p: nat :| LastMark(lines, t.text, p) && x == |InstructionLines(lines[..p])| + Surplus(lines[..p]);
          MarkMeaning(lines, t.text, p);
        }
      }
    }
  }

  // So a jump assembles exactly when its one operand does, and a branch when its first operand is a
  // register and the others, one or two, do.
  lemma TargetsAssemble(lines: seq<Line>, k: nat, t: seq<Token>)
    ensures Assemble(JUMP, t, Marks(lines), k).Ok? <==> |t| == 1 && Leads(lines, k, t[0])
    ensures Assemble(BRANCH, t, Marks(lines), k).Ok? <==>
            && 2 <= |t| <= 3 && t[0].Number? && Leads(lines, k, t[1])
            && if |t| == 3 then Leads(lines, k, t[2]) else k + 1 < 0x8000_0000
  {
    hide Denotes, Marks, ResolveJump;
    forall o <- t
      ensures ResolveJump(o, Marks(lines), k).Ok? <==> Leads(lines, k, o)
    {
      ResolvedExactly(lines, k, o);
    }
  }

  ghost predicate Leads(lines: seq<Line>, k: nat, t: Token) {
    exists x: Int32, kind :: x >= 0 && Denotes(lines, k, t, x, kind)
  }

  // A body assembles exactly when everything that is kept of it is an instruction that does.
  lemma {:induction false} AllAssembleEach(lines: seq<Line>, marks: map<Name, nat>)
    ensures AssembleAll(lines, marks).Ok? <==> EachAssembles(lines, marks)
  {
    hide Assemble;
    if lines != [] {
      var n := |lines| - 1;
      AllAssembleEach(lines[..n], marks);
      assert forall k | 0 <= k < n :: lines[..n][k] == lines[k];
      assert LineAssembles(lines[n], marks, n) <==>
             lines[n].Instruction? && Assemble(lines[n].op, lines[n].operands, marks, n).Ok?;
    }
  }

  predicate EachAssembles(lines: seq<Line>, marks: map<Name, nat>) {
    forall k | 0 <= k < |lines| :: LineAssembles(lines[k], marks, k)
  }

  predicate LineAssembles(l: Line, marks: map<Name, nat>, k: nat) {
    l.Instruction? && Assemble(l.op, l.operands, marks, k).Ok?
  }

  lemma BodyAssembles(lines: seq<Line>)
    ensures Assembled(lines).Ok? <==> EachAssembles(InstructionLines(lines), Marks(lines))
  {
    hide InstructionLines, Marks, AssembleAll, EachAssembles;
    AllAssembleEach(InstructionLines(lines), Marks(lines));
  }

  lemma {:induction false} AssembledAt(lines: seq<Line>, marks: map<Name, nat>, k: nat)
    requires AssembleAll(lines, marks).Ok? && k < |lines|
    ensures lines[k].Instruction?
    ensures Assemble(lines[k].op, lines[k].operands, marks, k) == Ok(AssembleAll(lines, marks).value[k])
    decreases |lines|
  {
    hide Assemble;
    var n := |lines| - 1;
    if k < n {
      AssembledAt(lines[..n], marks, k);
    }
  }

  // Instruction k is what the line that is kept as number k says.
  lemma BodyInstruction(lines: seq<Line>, k: nat)
    requires Assembled(lines).Ok? && k < |InstructionLines(lines)|
    ensures |Assembled(lines).value| == |InstructionLines(lines)| && InstructionLines(lines)[k].Instruction?
    ensures var l := InstructionLines(lines)[k];
            Assemble(l.op, l.operands, Marks(lines), k) == Ok(Assembled(lines).value[k])
  {
    hide Assemble, InstructionLines, Marks, AssembleAll;
    AssembledAt(InstructionLines(lines), Marks(lines), k);
  }

  // A jump goes to what its operand stands for.
  lemma JumpLine(lines: seq<Line>, k: nat, t: Token)
    requires Assembled(lines).Ok? && k < |InstructionLines(lines)|
    requires InstructionLines(lines)[k] == Line.Instruction(JUMP, [t])
    ensures |Assembled(lines).value| == |InstructionLines(lines)|
    ensures var i := Assembled(lines).value[k]; i.Jump? && Denotes(lines, k, t, i.target, i.kind) && i.target >= 0
  {
    hide InstructionLines, Marks, ResolveJump, Denotes, Assembled;
    BodyInstruction(lines, k);
    ResolvedDenotes(lines, k, t);
  }

  // A branch tests its first operand and goes to what the second or the third one stands for; without a
  // third operand it goes on behind itself.
  lemma BranchLine(lines: seq<Line>, k: nat, c: Operand, yes: Token, no: Option<Token>)
    requires Assembled(lines).Ok? && k < |InstructionLines(lines)|
    requires InstructionLines(lines)[k] ==
             Line.Instruction(BRANCH, [Number(c), yes] + if no.Some? then [no.value] else [])
    ensures |Assembled(lines).value| == |InstructionLines(lines)|
    ensures var i := Assembled(lines).value[k];
            && i.Branch? && i.condition == c && Denotes(lines, k, yes, i.ifTrue, i.trueKind) && i.ifTrue >= 0
            && i.ifFalse >= 0
            && match no
               case Some(t) => Denotes(lines, k, t, i.ifFalse, i.falseKind)
               case None => i.ifFalse == k + 1 && i.falseKind == Relative
  {
    hide InstructionLines, Marks, ResolveJump, Denotes, Assembled;
    BodyInstruction(lines, k);
    ResolvedDenotes(lines, k, yes);
    if no.Some? {
      ResolvedDenotes(lines, k, no.value);
    }
  }

  // With nothing in front of it that counts without producing an instruction, a mark stands for the
  // first instruction behind it.
  lemma MarkedLine(lines: seq<Line>, k: nat, name: Name, p: nat)
    requires Assembled(lines).Ok? && k < |InstructionLines(lines)| && LastMark(lines, name, p)
    requires InstructionLines(lines)[k] == Line.Instruction(JUMP, [Word(name)])
    ensures |Assembled(lines).value| == |InstructionLines(lines)|
    ensures Assembled(lines).value[k].Jump? && Assembled(lines).value[k].kind == Relative
    ensures Assembled(lines).value[k].target == |InstructionLines(lines[..p])| <==>
            forall q | 0 <= q < p :: CountsRight(lines[..q], lines[q])
  {
    hide InstructionLines, Marks, Assembled, CountsRight, Surplus;
    JumpLine(lines, k, Word(name));
    assert forall q :: LastMark(lines, name, q) ==> q == p;
    SurplusExactly(lines[..p]);
    assert forall q | 0 <= q < p :: lines[..p][..q] == lines[..q];
  }

  // ----- short forms -----

  // Operands that may be left out, and what they are then.
  lemma ShortForms(marks: map<Name, nat>, k: nat, op: Byte, a: Operand, b: Operand, name: Name)
    ensures Assemble(FRAME, [], marks, k) ==
            Assemble(FRAME, [Number(Operand(false, 0)), Number(Operand(false, 16))], marks, k)
    ensures Assemble(FRAME, [Number(a)], marks, k) == Assemble(FRAME, [Number(a), Number(Operand(false, 16))], marks, k)
    ensures ITOF <= op <= STOF ==> Assemble(op, [Number(a)], marks, k) == Assemble(op, [Number(a), Number(a)], marks, k)
    ensures TakesThree(op) && op != VINSERT && op != VPOP && op != VAT ==>
              Assemble(op, [Number(a), Number(b)], marks, k) == Assemble(op, [Number(a), Number(b), Number(a)], marks, k)
    ensures Assemble(VINSERT, [Number(a), Number(b)], marks, k) ==
            Assemble(VINSERT, [Number(a), Number(b), Number(Operand(false, 0))], marks, k)
    ensures Assemble(VPOP, [Number(a), Number(b)], marks, k) ==
            Assemble(VPOP, [Number(a), Number(b), Number(Operand(false, -1))], marks, k)
    ensures Assemble(VAT, [Number(a), Number(b)], marks, k) ==
            Assemble(VAT, [Number(a), Number(b), Number(Operand(false, -1))], marks, k)
    ensures Assemble(VPOP, [Number(a)], marks, k) ==
            Assemble(VPOP, [Number(a), Number(Operand(false, 0)), Number(Operand(false, -1))], marks, k)
    ensures name != [] ==>
              Assemble(CALL, [Word(name)], marks, k) == Assemble(CALL, [Number(Operand(false, 0)), Word(name)], marks, k)
  {
  }
}
