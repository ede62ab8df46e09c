// The disassembler, and the round trip from bytecode to text and back
// (src/cg/disassembler/disassembler.cpp).
module Disassembler {
  import opened Bytes
  import opened Opcodes
  import opened Instructions
  import opened Assembler
  import opened Scan
  import Text

  function ReadOperand(b: seq<Byte>, at: nat): Operand
    requires at + 5 <= |b|
  {
    Operand(b[at] != 0, ReadInt(b, at + 1))
  }

  lemma OperandRead(b: seq<Byte>, at: nat, e: seq<Byte>, from: nat, a: Operand)
    requires at + |e| <= |b| && b[at..at + |e|] == e
    requires from + 5 <= |e| && e[from..from + 5] == OperandBytes(a)
    ensures at + from + 5 <= |b| && ReadOperand(b, at + from) == a
  {
    hide IntBytes;
    Window(b, at, e, from, from + 5);
    var w := b[at + from..at + from + 5];
    assert w[0] == b[at + from] && OperandBytes(a)[0] == if a.ref then 1 else 0;
    assert b[at + from + 1..at + from + 5] == w[1..] == IntBytes(a.index);
    ReadWritten(b, at + from + 1, a.index);
  }

  lemma NumberRead(b: seq<Byte>, at: nat, e: seq<Byte>, from: nat, n: Int32)
    requires at + |e| <= |b| && b[at..at + |e|] == e
    requires from + 4 <= |e| && e[from..from + 4] == IntBytes(n)
    ensures at + from + 4 <= |b| && ReadInt(b, at + from) == n
  {
    hide IntBytes;
    Window(b, at, e, from, from + 4);
    ReadWritten(b, at + from, n);
  }

  // A byte printed as an int: char is signed.
  function Signed(b: Byte): Int32 {
    if b < 0x80 then b else b - 0x100
  }

  function Escape(s: Name): Name {
    EscapeKeepsNul(s);
    Text.Escaped(s)
  }

  lemma {:induction false} EscapeKeepsNul(s: Name)
    ensures 0 !in Text.Escaped(s)
  {
    if s != [] {
      EscapeKeepsNul(s[1..]);
    }
  }

  // How a float is printed and read back is left to the library: the bits a printed one is read as.
  type Floats = Int32 -> Int32

  // The operands printed for an instruction.  Of a register set number only the lowest byte is
  // looked at, of a byte store the at-register flag is dropped, and a prototype has no case.
  function Shown(i: Instr, reread: Floats): seq<Token> {
    match i
    case Bare(_) => []
    case One(_, a) => [Number(a)]
    case Two(_, a, b) => [Number(a), Number(b)]
    case Three(_, a, b, c) => [Number(a), Number(b), Number(c)]
    case FloatStore(a, bits) => [Number(a), Decimal(reread(bits))]
    case ByteStore(a, _, value) => [Number(a), Number(Operand(false, Signed(value)))]
    case SelectRegisters(n) => ShownSet(PatternByte(Pattern(n), 0))
    case Jump(t, _) => [Hex(t)]
    case Branch(c, t, _, f, _) => [Number(c), Hex(t), Hex(f)]
    case Text(op, a, text) =>
      if op == PROTOTYPE then []
      else if op == STRSTORE then [Number(a), Quoted(Escape(text))]
      else [Number(a), Word(text)]
    case Named(op, name) => if op == IMPORT then [Quoted(Escape(name))] else [Word(name)]
    case Attach(a, f, m) => [Number(a), Word(f), Word(m)]
    case Catch(t, b) => [Quoted(Escape(t)), Word(b)]
  }

  function ShownSet(low: Byte): seq<Token> {
    if low < 4 then [RegisterSet(low)] else []
  }

  // How far the cursor moves over an instruction: its length, but one byte for a prototype.
  function Increase(i: Instr): nat {
    if i.Opcode() == PROTOTYPE then 1 else |Encode(i)|
  }

  // The fixed-length operands stored after the opcode at b[at].
  lemma OperandsAt(b: seq<Byte>, at: nat, i: Instr)
    requires i.Valid() && At(b, at, i)
    ensures i.One? || i.Two? || i.Three? ==> at + 6 <= |b| && ReadOperand(b, at + 1) == i.a
    ensures i.Two? || i.Three? ==> at + 11 <= |b| && ReadOperand(b, at + 6) == i.b
    ensures i.Three? ==> at + 16 <= |b| && ReadOperand(b, at + 11) == i.c
    ensures i.One? ==> |Encode(i)| == 6
    ensures i.Two? ==> |Encode(i)| == 11
    ensures i.Three? ==> |Encode(i)| == 16
  {
    var e := Encode(i);
    hide OperandBytes, ReadOperand;
    if i.One? {
      assert e[1..6] == OperandBytes(i.a);
      OperandRead(b, at, e, 1, i.a);
    } else if i.Two? {
      assert e[1..6] == OperandBytes(i.a) && e[6..11] == OperandBytes(i.b);
      OperandRead(b, at, e, 1, i.a);
      OperandRead(b, at, e, 6, i.b);
    } else if i.Three? {
      assert e[1..6] == OperandBytes(i.a) && e[6..11] == OperandBytes(i.b) && e[11..16] == OperandBytes(i.c);
      OperandRead(b, at, e, 1, i.a);
      OperandRead(b, at, e, 6, i.b);
      OperandRead(b, at, e, 11, i.c);
    }
  }

  lemma TargetsAt(b: seq<Byte>, at: nat, i: Instr)
    requires At(b, at, i)
    ensures i.Jump? ==> at + 5 <= |b| && ReadInt(b, at + 1) == i.target && |Encode(i)| == 5
    ensures i.Branch? ==>
              && at + 14 <= |b| && |Encode(i)| == 14 && ReadOperand(b, at + 1) == i.condition
              && ReadInt(b, at + 6) == i.ifTrue && ReadInt(b, at + 10) == i.ifFalse
  {
    var e := Encode(i);
    hide OperandBytes, ReadOperand, IntBytes, ReadInt;
    if i.Jump? {
      assert e[1..5] == IntBytes(i.target);
      NumberRead(b, at, e, 1, i.target);
    } else if i.Branch? {
      assert e[1..6] == OperandBytes(i.condition);
      assert e[6..10] == IntBytes(i.ifTrue) && e[10..14] == IntBytes(i.ifFalse);
      OperandRead(b, at, e, 1, i.condition);
      NumberRead(b, at, e, 6, i.ifTrue);
      NumberRead(b, at, e, 10, i.ifFalse);
    }
  }

  lemma ConstantsAt(b: seq<Byte>, at: nat, i: Instr)
    requires At(b, at, i)
    ensures i.FloatStore? ==> at + 10 <= |b| && |Encode(i)| == 10 && ReadOperand(b, at + 1) == i.a
                              && ReadInt(b, at + 6) == i.bits
    ensures i.ByteStore? ==> at + 8 <= |b| && |Encode(i)| == 8 && ReadOperand(b, at + 1) == i.a
                             && b[at + 7] == i.value
    ensures i.SelectRegisters? ==> at + 5 <= |b| && |Encode(i)| == 5
                                   && b[at + 1] == PatternByte(Pattern(i.registerSet), 0)
  {
    var e := Encode(i);
    hide OperandBytes, ReadOperand, ReadInt, Pattern, PatternByte;
    if i.FloatStore? {
      hide IntBytes;
      assert e[1..6] == OperandBytes(i.a) && e[6..10] == IntBytes(i.bits);
      OperandRead(b, at, e, 1, i.a);
      NumberRead(b, at, e, 6, i.bits);
    } else if i.ByteStore? {
      assert e[1..6] == OperandBytes(i.a);
      OperandRead(b, at, e, 1, i.a);
      assert e[7] == i.value && b[at..at + |e|][7] == b[at + 7];
    } else if i.SelectRegisters? {
      assert e[1] == PatternByte(Pattern(i.registerSet), 0) && b[at..at + |e|][1] == b[at + 1];
    }
  }

  // The register operand in front of a text.
  lemma TextOperandAt(b: seq<Byte>, at: nat, i: Instr)
    requires (i.Text? || i.Attach?) && At(b, at, i)
    ensures at + 6 <= |b| && ReadOperand(b, at + 1) == i.a
  {
    var e := Encode(i);
    hide OperandBytes, ReadOperand;
    assert e[1..6] == OperandBytes(i.a);
    OperandRead(b, at, e, 1, i.a);
  }

  // One, two or three register operands.
  method Registers(b: seq<Byte>, at: nat, ghost i: Instr, ghost reread: Floats) returns (tokens: seq<Token>, next: nat)
    requires i.Valid() && At(b, at, i) && (i.One? || i.Two? || i.Three?)
    ensures tokens == Shown(i, reread) && next == at + |Encode(i)|
  {
    hide Encode, ReadOperand, At;
    OpcodeAt(b, at, i);
    OperandsAt(b, at, i);
    var op, ptr := b[at], at + 1;
    tokens := [Number(ReadOperand(b, ptr))];
    ptr := ptr + 5;
    if TakesTwo(op) || TakesThree(op) {
      tokens := tokens + [Number(ReadOperand(b, ptr))];
      ptr := ptr + 5;
    }
    if TakesThree(op) {
      tokens := tokens + [Number(ReadOperand(b, ptr))];
      ptr := ptr + 5;
    }
    next := ptr;
  }

  // Instructions with texts; a prototype has no case of its own.
  method Texts(b: seq<Byte>, at: nat, ghost i: Instr, ghost reread: Floats) returns (tokens: seq<Token>, next: nat)
    requires i.Valid() && At(b, at, i) && (i.Text? || i.Named? || i.Attach? || i.Catch?)
    ensures tokens == Shown(i, reread) && next == at + Increase(i)
  {
    hide Encode, ReadOperand, ReadText, TextLength, At, Escape;
    OpcodeAt(b, at, i);
    var op, bptr := b[at], at + 1;
    tokens := [];
    if (TakesText(op) && op != PROTOTYPE) || op == ATTACH {
      TextOperandAt(b, at, i);
      if op == ATTACH {
        AttachAt(b, at, i);
      } else {
        TextAt(b, at, i);
      }
      tokens := [Number(ReadOperand(b, bptr))];
      bptr := bptr + 5;
      var s := ReadText(b, bptr);
      tokens := tokens + [if op == STRSTORE then Quoted(Escape(s)) else Word(s)];
      bptr := bptr + |s| + 1;
      if op == ATTACH {
        s := ReadText(b, bptr);
        tokens := tokens + [Word(s)];
        bptr := bptr + |s| + 1;
      }
    } else if TakesName(op) {
      NamedAt(b, at, i);
      var s := ReadText(b, bptr);
      tokens := [if op == IMPORT then Quoted(Escape(s)) else Word(s)];
      bptr := bptr + |s| + 1;
    } else if op == CATCH {
      CatchAt(b, at, i);
      var s := ReadText(b, bptr);
      tokens := [Quoted(Escape(s))];
      bptr := bptr + |s| + 1;
      s := ReadText(b, bptr);
      tokens := tokens + [Word(s)];
      bptr := bptr + |s| + 1;
    }
    next := bptr;
  }

  // Jumps, constants and register sets.
  method Specials(b: seq<Byte>, at: nat, ghost i: Instr, reread: Floats) returns (tokens: seq<Token>)
    requires i.Valid() && At(b, at, i) && at < |b| && !i.One? && !i.Two? && !i.Three? && !VariableLength(b[at])
    ensures tokens == Shown(i, reread)
  {
    hide Encode, ReadOperand, At, ReadInt;
    OpcodeAt(b, at, i);
    TargetsAt(b, at, i);
    ConstantsAt(b, at, i);
    var op := b[at];
    tokens := [];
    if op == JUMP {
      tokens := [Hex(ReadInt(b, at + 1))];
    } else if op == BRANCH {
      tokens := [Number(ReadOperand(b, at + 1)), Hex(ReadInt(b, at + 6)), Hex(ReadInt(b, at + 10))];
    } else if op == FSTORE {
      tokens := [Number(ReadOperand(b, at + 1)), Decimal(reread(ReadInt(b, at + 6)))];
    } else if op == BSTORE {
      tokens := [Number(ReadOperand(b, at + 1)), Number(Operand(false, Signed(b[at + 7])))];
    } else if op == RESS {
      tokens := ShownSet(b[at + 1]);
    }
  }

  // Decode the instruction at b[at]: an error on an opcode without a name, and otherwise the
  // operands to print and where the next instruction is expected.
  method Instruction(b: seq<Byte>, at: nat, ghost i: Instr, reread: Floats) returns (r: Result<(seq<Token>, nat)>)
    requires at < |b| && (Known(b[at]) ==> i.Valid() && At(b, at, i))
    ensures !Known(b[at]) ==> r == Err
    ensures Known(b[at]) ==> r == Ok((Shown(i, reread), at + Increase(i)))
  {
    hide Encode, ReadOperand, At, ReadInt;
    var op := b[at];
    if !Known(op) {
      return Err;
    }
    OpcodeAt(b, at, i);
    SizeIsEncodedLength(i);
    var tokens, next := [], at + OpSize(op);
    if VariableLength(op) {
      tokens, next := Texts(b, at, i, reread);
    } else if TakesOne(op) || TakesTwo(op) || TakesThree(op) {
      tokens, next := Registers(b, at, i, reread);
    } else {
      tokens := Specials(b, at, i, reread);
    }
    r := Ok((tokens, next));
  }

  // ----- sweeping an element -----

  // The listing of code: the opcode and the operands of every instruction.
  function Listing(code: Code, reread: Floats): (l: seq<Line>)
    ensures |l| == |code|
    ensures forall k | 0 <= k < |code| :: l[k] == Line.Instruction(code[k].Opcode(), Shown(code[k], reread))
  {
    seq(|code|, k requires 0 <= k < |code| => Line.Instruction(code[k].Opcode(), Shown(code[k], reread)))
  }

  predicate NoPrototype(code: Code) {
    forall k | 0 <= k < |code| :: code[k].Opcode() != PROTOTYPE
  }

  // Disassembling an element: the sweep stops at exactly the instruction starts, ends exactly at
  // the end, and lists every opcode with its operands.
  method Sweep(b: seq<Byte>, ghost code: Code, reread: Floats) returns (lines: seq<Line>, starts: seq<nat>)
    requires ValidCode(code) && NoPrototype(code) && b == EncodeAll(code)
    ensures lines == Listing(code, reread)
    ensures |starts| == |code| && forall k | 0 <= k < |starts| :: starts[k] == Start(code, k)
  {
    hide Encode, EncodeAll, At, Start, Shown, Known;
    lines, starts := [], [];
    var ptr := 0;
    StartZero(code);
    StartOfEnd(code);
    ghost var n := 0;
    while ptr < |b|
      invariant 0 <= n <= |code| && ptr == Start(code, n) <= |b|
      invariant lines == Listing(code, reread)[..n]
      invariant |starts| == n && forall k | 0 <= k < n :: starts[k] == Start(code, k)
      decreases |b| - ptr
    {
      CodeAt(code, n);
      LayoutOf(code, n);
      OpcodeAt(b, ptr, code[n]);
      KnownOpcode(code[n]);
      var r := Instruction(b, ptr, code[n], reread);
      lines := lines + [Line.Instruction(b[ptr], r.value.0)];
      starts := starts + [ptr];
      ptr := r.value.1;
      n := n + 1;
    }
    if n < |code| {
      LayoutOf(code, n);
    }
  }

  lemma KnownOpcode(i: Instr)
    requires i.Valid()
    ensures Known(i.Opcode())
  {
  }

  lemma LayoutOf(code: Code, k: nat)
    requires k < |code|
    ensures Start(code, k) < Start(code, k + 1) == Start(code, k) + |Encode(code[k])| <= |EncodeAll(code)|
  {
    hide Encode, EncodeAll;
    Layout(code, k);
  }

  // ----- assembling a listing again -----

  predicate IsWord(s: Name) {
    s != [] && forall c <- s :: !IsSpace(c)
  }

  // The plain names of an instruction are words a tokenizer leaves whole.
  predicate WordsIn(i: Instr) {
    match i
    case Text(op, _, text) => op == STRSTORE || IsWord(text)
    case Named(op, name) => op == IMPORT || IsWord(name)
    case Attach(_, f, m) => IsWord(f) && IsWord(m)
    case Catch(_, b) => IsWord(b)
    case _ => true
  }

  // What has to hold of an instruction for its listing to mean the instruction again.
  predicate Printable(i: Instr, reread: Floats) {
    && Implemented(i.Opcode())
    && match i
       case FloatStore(_, bits) => reread(bits) == bits
       case ByteStore(_, ref, _) => !ref
       case SelectRegisters(n) => 0 <= n < 4
       case Jump(t, _) => t >= 0
       case Branch(_, t, _, f, _) => t >= 0 && f >= 0
       case Text(op, _, text) => op == STRSTORE ==> Text.QUOTE !in text
       case Named(op, name) => op == IMPORT ==> Text.QUOTE !in name
       case Catch(t, _) => Text.QUOTE !in t && Text.BACKSLASH !in t
       case _ => true
  }

  lemma {:induction false} ChunkOfWord(s: Name)
    requires forall c <- s :: !IsSpace(c)
    ensures Chunk(s) == s
  {
    if s != [] {
      ChunkOfWord(s[1..]);
    }
  }

  lemma QuotedAgain(s: Name)
    ensures Inside(Literal(Quote(Escape(s)))) == Escape(s)
    ensures Escape(s) == s <==> Text.QUOTE !in s
  {
    assert Quote(Escape(s)) == Text.Enquoted(s) + [];
    Text.ExtractOfEnquoted(s, []);
    Text.EscapedSame(s);
  }

  lemma WordBehindSpace(b: Name)
    requires IsWord(b)
    ensures Chunk(Lstrip([32] + b)) == b
  {
    assert ([32] + b)[1..] == b;
    assert Lstrip([32] + b) == Lstrip(b) == b;
    ChunkOfWord(b);
  }

  lemma CatchAgain(t: Name, b: Name)
    requires IsWord(b)
    ensures var rest := CatchRest([Quoted(Escape(t)), Word(b)]);
            var q := Literal(rest);
            && (Inside(q) == t <==> Text.QUOTE !in t && Text.BACKSLASH !in t)
            && (Inside(q) == t ==> Chunk(Lstrip(rest[|q|..])) == b)
  {
    hide Lstrip, Chunk, IsWord, Literal, Escape;
    WordBehindSpace(b);
    var tail := [32] + b;
    var rest := CatchRest([Quoted(Escape(t)), Word(b)]);
    assert rest == Text.Enquoted(t) + tail by {
      EscapedText(t);
    }
    var q := Literal(rest);
    assert q == Text.Extracted(rest) by {
      LiteralText(rest);
    }
    Text.ExtractOfEnquoted(t, tail);
    Text.ExtractAtLeast(t, tail);
    Text.EscapedSame(t);
    assert Text.Enquoted(t) <= q;
    if q == Text.Enquoted(t) {
      assert Inside(q) == Text.Escaped(t);
      assert rest[|q|..] == tail;
    } else {
      assert |q| > |Text.Enquoted(t)|;
    }
    if Text.QUOTE !in t {
      assert Text.QuoteFollowsBackslash(t) <==> Text.BACKSLASH !in t;
    }
  }

  lemma EscapedText(t: Name)
    ensures Escape(t) == Text.Escaped(t)
  {
  }

  lemma LiteralText(rest: Name)
    requires |rest| >= 2
    ensures Literal(rest) == Text.Extracted(rest)
  {
  }

  lemma PlainAgain(i: Instr, reread: Floats, marks: map<Name, nat>, index: nat)
    requires i.Valid() && !VariableLength(i.Opcode())
    ensures Assemble(i.Opcode(), Shown(i, reread), marks, index) == Ok(i.Raw()) <==> Printable(i, reread)
  {
    if i.Jump? || i.Branch? {
      JumpAgain(i, reread, marks, index);
    } else {
      hide ResolveJump, AssembleBranch;
      if i.SelectRegisters? {
        var n := i.registerSet;
        assert ShownSet(PatternByte(Pattern(n), 0)) == [RegisterSet(n)] <==> 0 <= n < 4;
      } else {
        hide ShownSet;
      }
    }
  }

  lemma JumpAgain(i: Instr, reread: Floats, marks: map<Name, nat>, index: nat)
    requires i.Jump? || i.Branch?
    ensures Assemble(i.Opcode(), Shown(i, reread), marks, index) == Ok(i.Raw()) <==> Printable(i, reread)
  {
    hide AssembleTwo, AssembleThree, AssembleText, AssembleNamed;
  }

  lemma TextAgain(i: Instr, reread: Floats)
    requires i.Valid() && i.Text? && i.op != PROTOTYPE && WordsIn(i)
    ensures AssembleText(i.op, Shown(i, reread)) == Ok(i) <==> (i.op == STRSTORE ==> Text.QUOTE !in i.text)
  {
    hide Escape, Literal, Inside;
    QuotedAgain(i.text);
  }

  lemma NamedAgain(i: Instr, reread: Floats)
    requires i.Valid() && i.Named? && WordsIn(i)
    ensures AssembleNamed(i.op, Shown(i, reread)) == Ok(i) <==> (i.op == IMPORT ==> Text.QUOTE !in i.name)
  {
    hide Escape, Literal, Inside;
    QuotedAgain(i.name);
  }

  lemma PairAgain(i: Instr, reread: Floats, marks: map<Name, nat>, index: nat)
    requires i.Valid() && (i.Attach? || i.Catch?) && WordsIn(i)
    ensures Assemble(i.Opcode(), Shown(i, reread), marks, index) == Ok(i) <==> Printable(i, reread)
  {
    hide Escape, Inside, Literal, Chunk, Lstrip, CatchRest, IsWord;
    if i.Catch? {
      CatchAgain(i.type_, i.block);
    }
  }

  // The listing of an instruction assembles to the same instruction, hence to the same bytes,
  // exactly when it is printable.
  lemma ReassembledInstr(i: Instr, reread: Floats, marks: map<Name, nat>, index: nat)
    requires i.Valid() && WordsIn(i)
    ensures Assemble(i.Opcode(), Shown(i, reread), marks, index) == Ok(i.Raw()) <==> Printable(i, reread)
  {
    hide Assemble, Shown, WordsIn, AssembleText, AssembleNamed;
    AssembleByShape(i.Opcode(), Shown(i, reread), marks, index);
    if i.Text? {
      if i.op != PROTOTYPE {
        TextAgain(i, reread);
      }
    } else if i.Named? {
      NamedAgain(i, reread);
    } else if i.Attach? || i.Catch? {
      PairAgain(i, reread, marks, index);
    } else {
      PlainAgain(i, reread, marks, index);
    }
  }

  // The listing of an element assembles to the element again, hence to its bytes, exactly when all of
  // its instructions are printable.
  lemma {:induction false} ReassembledCode(code: Code, reread: Floats, marks: map<Name, nat>)
    requires ValidCode(code) && forall k | 0 <= k < |code| :: WordsIn(code[k])
    ensures AssembleAll(Listing(code, reread), marks) == Ok(RawCode(code)) <==>
            forall k | 0 <= k < |code| :: Printable(code[k], reread)
    ensures EncodeAll(RawCode(code)) == EncodeAll(code)
  {
    hide Assemble, Shown, WordsIn, Printable, EncodeAll, Encode, Instr.Valid;
    EncodeRaw(code);
    if code != [] {
      var n := |code| - 1;
      ReassembledCode(code[..n], reread, marks);
      ReassembledInstr(code[n], reread, marks, n);
      assert Listing(code, reread)[..n] == Listing(code[..n], reread);
      assert RawCode(code) == RawCode(code[..n]) + [code[n].Raw()];
      if AssembleAll(Listing(code, reread), marks) == Ok(RawCode(code)) {
        SamePrefix(AssembleAll(Listing(code[..n], reread), marks).value, RawCode(code[..n]),
                   Assemble(code[n].Opcode(), Shown(code[n], reread), marks, n).value, code[n].Raw());
      }
    }
  }

  lemma SamePrefix(a: Code, b: Code, i: Instr, j: Instr)
    requires |a| == |b| && a + [i] == b + [j]
    ensures a == b && i == j
  {
    assert a == (a + [i])[..|a|] && b == (b + [j])[..|b|];
    assert i == (a + [i])[|a|] && j == (b + [j])[|b|];
  }

  // A prototype: the listing shows nothing of it, and the sweep goes on inside it.
  lemma PrototypeIsLost(a: Operand, name: Name, reread: Floats)
    ensures var i := Instr.Text(PROTOTYPE, a, name); Shown(i, reread) == [] && Increase(i) == 1 < |Encode(i)|
  {
  }

  // A byte taken from a register: the listing shows a constant instead.
  lemma ByteFlagIsLost(a: Operand, reread: Floats, marks: map<Name, nat>, index: nat)
    ensures Assemble(BSTORE, Shown(ByteStore(a, true, 5), reread), marks, index) == Ok(ByteStore(a, false, 5))
  {
  }
}
