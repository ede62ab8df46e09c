// Instructions and the bytes the bytecode generator writes for them
// (src/cg/bytecode/instructions.cpp).
module Instructions {
  import opened Bytes
  import opened Opcodes

  // A register operand: an index, or with ref set the index of a register holding the index.
  datatype Operand = Operand(ref: bool, index: Int32)

  // How the assembler understood a jump target (enum JUMPTYPE).
  datatype JumpKind = Relative | Absolute | ToByte

  datatype Instr =
    | Bare(op: Byte)
    | One(op: Byte, a: Operand)
    | Two(op: Byte, a: Operand, b: Operand)
    | Three(op: Byte, a: Operand, b: Operand, c: Operand)
    | FloatStore(a: Operand, bits: Int32)
    | ByteStore(a: Operand, ref: bool, value: Byte)
    | SelectRegisters(registerSet: Int32)
    | Jump(target: Int32, kind: JumpKind)
    | Branch(condition: Operand, ifTrue: Int32, trueKind: JumpKind, ifFalse: Int32, falseKind: JumpKind)
    | Text(op: Byte, a: Operand, text: Name)
    | Named(op: Byte, name: Name)
    | Attach(a: Operand, function_: Name, method_: Name)
    | Catch(type_: Name, block: Name)
  {
    // The opcode belongs to the shape of the instruction.
    predicate Valid() {
      match this
      case Bare(op) => TakesNothing(op)
      case One(op, _) => TakesOne(op)
      case Two(op, _, _) => TakesTwo(op)
      case Three(op, _, _, _) => TakesThree(op)
      case Text(op, _, _) => TakesText(op)
      case Named(op, _) => TakesName(op)
      case _ => true
    }

    function Opcode(): Byte {
      match this
      case FloatStore(_, _) => FSTORE
      case ByteStore(_, _, _) => BSTORE
      case SelectRegisters(_) => RESS
      case Jump(_, _) => JUMP
      case Branch(_, _, _, _, _) => BRANCH
      case Attach(_, _, _) => ATTACH
      case Catch(_, _) => CATCH
      case _ => this.op
    }

    // What remains of the instruction in bytecode: the kind of a jump is not stored, and a stored
    // target is a byte address.
    function Raw(): Instr {
      match this
      case Jump(t, _) => Jump(t, ToByte)
      case Branch(c, t, _, f, _) => Branch(c, t, ToByte, f, ToByte)
      case _ => this
    }
  }

  type Code = seq<Instr>

  predicate ValidCode(code: Code) {
    forall k | 0 <= k < |code| :: code[k].Valid()
  }

  function RawCode(code: Code): (r: Code)
    ensures |r| == |code| && forall k | 0 <= k < |code| :: r[k] == code[k].Raw()
  {
    seq(|code|, k requires 0 <= k < |code| => code[k].Raw())
  }

  function OperandBytes(a: Operand): (b: seq<Byte>)
    ensures |b| == 5
  {
    [if a.ref then 1 else 0] + IntBytes(a.index)
  }

  function Encode(i: Instr): (b: seq<Byte>)
    ensures |b| > 0 && b[0] == i.Opcode()
  {
    match i
    case Bare(op) => [op]
    case One(op, a) => [op] + OperandBytes(a)
    case Two(op, a, b) => [op] + OperandBytes(a) + OperandBytes(b)
    case Three(op, a, b, c) => [op] + OperandBytes(a) + OperandBytes(b) + OperandBytes(c)
    case FloatStore(a, bits) => [FSTORE] + OperandBytes(a) + IntBytes(bits)
    case ByteStore(a, ref, value) => [BSTORE] + OperandBytes(a) + [if ref then 1 else 0, value]
    case SelectRegisters(rs) => [RESS] + IntBytes(rs)
    case Jump(t, _) => [JUMP] + IntBytes(t)
    case Branch(c, t, _, f, _) => [BRANCH] + OperandBytes(c) + IntBytes(t) + IntBytes(f)
    case Text(op, a, text) => [op] + OperandBytes(a) + Terminated(text)
    case Named(op, name) => [op] + Terminated(name)
    case Attach(a, f, m) => [ATTACH] + OperandBytes(a) + Terminated(f) + Terminated(m)
    case Catch(t, b) => [CATCH] + Terminated(t) + Terminated(b)
  }

  // The register operands of an instruction, in the order in which they are written.
  function RegisterOperands(i: Instr): seq<Operand> {
    match i
    case One(_, a) => [a]
    case Two(_, a, b) => [a, b]
    case Three(_, a, b, c) => [a, b, c]
    case FloatStore(a, _) => [a]
    case ByteStore(a, _, _) => [a]
    case Branch(c, _, _, _, _) => [c]
    case Text(_, a, _) => [a]
    case Attach(a, _, _) => [a]
    case _ => []
  }

  // They follow the opcode, five bytes each: a flag that says whether the register only holds the index,
  // and the index, least significant byte first.
  lemma StoredOperands(i: Instr, k: nat)
    requires k < |RegisterOperands(i)|
    ensures var e, at, a := Encode(i), 1 + 5 * k, RegisterOperands(i)[k];
            at + 5 <= |e| && e[at] == (if a.ref then 1 else 0) && Spell(e[at + 1..at + 5], a.index)
  {
    hide IntBytes, OperandBytes, Spell;
    OperandStored(RegisterOperands(i)[k]);
    var e, at := Encode(i), 1 + 5 * k;
    assert k == 0 || k == 1 || k == 2;
    assert e[at..at + 5] == OperandBytes(RegisterOperands(i)[k]);
    assert e[at..at + 5][1..] == e[at + 1..at + 5];
  }

  lemma OperandStored(a: Operand)
    ensures var e := OperandBytes(a);
            e[0] == (if a.ref then 1 else 0) && Spell(e[1..], a.index)
  {
    hide IntBytes, Spell;
    LittleEndian(a.index);
  }

  function EncodeAll(code: Code): seq<Byte> {
    if code == [] then [] else Encode(code[0]) + EncodeAll(code[1..])
  }

  // The length of an instruction: the table size and every text with its NUL.
  function Size(i: Instr): (n: nat)
    requires i.Valid()
  {
    OpSize(i.Opcode()) + match i
                         case Text(_, _, text) => |text| + 1
                         case Named(_, name) => |name| + 1
                         case Attach(_, f, m) => |f| + 1 + |m| + 1
                         case Catch(t, b) => |t| + 1 + |b| + 1
                         case _ => 0
  }

  // The bytes before instruction k.
  function Start(code: Code, k: nat): nat
    requires k <= |code|
  {
    |EncodeAll(code[..k])|
  }

  lemma SizeIsEncodedLength(i: Instr)
    requires i.Valid()
    ensures |Encode(i)| == Size(i)
  {
  }

  lemma {:induction false} EncodeConcat(a: Code, b: Code)
    ensures EncodeAll(a + b) == EncodeAll(a) + EncodeAll(b)
  {
    hide Encode;
    if a == [] {
      assert a + b == b;
    } else {
      assert (a + b)[1..] == a[1..] + b;
      EncodeConcat(a[1..], b);
    }
  }

  lemma EncodeSingleton(i: Instr)
    ensures EncodeAll([i]) == Encode(i)
  {
    hide Encode;
    assert EncodeAll([i]) == Encode(i) + EncodeAll([]);
  }

  lemma EncodeNothing()
    ensures EncodeAll([]) == []
  {
  }

  lemma EncodeSnoc(code: Code, i: Instr)
    ensures EncodeAll(code + [i]) == EncodeAll(code) + Encode(i)
  {
    hide Encode, EncodeAll;
    EncodeConcat(code, [i]);
    EncodeSingleton(i);
  }

  // Instruction k occupies exactly the bytes from Start(code, k) to Start(code, k + 1).
  lemma Layout(code: Code, k: nat)
    requires k < |code|
    ensures Start(code, k + 1) == Start(code, k) + |Encode(code[k])| <= |EncodeAll(code)|
    ensures EncodeAll(code)[Start(code, k)..Start(code, k + 1)] == Encode(code[k])
  {
    hide Encode, EncodeAll;
    var before, here, after := EncodeAll(code[..k]), Encode(code[k]), EncodeAll(code[k + 1..]);
    assert EncodeAll(code[..k + 1]) == before + here by {
      assert code[..k + 1] == code[..k] + [code[k]];
      EncodeConcat(code[..k], [code[k]]);
      EncodeSingleton(code[k]);
    }
    assert EncodeAll(code) == before + here + after by {
      assert code == code[..k + 1] + code[k + 1..];
      EncodeConcat(code[..k + 1], code[k + 1..]);
    }
  }

  lemma {:induction false} StartMonotone(code: Code, j: nat, k: nat)
    requires j < k <= |code|
    ensures Start(code, j) < Start(code, k) <= |EncodeAll(code)|
    decreases k
  {
    hide EncodeAll;
    Layout(code, k - 1);
    if j < k - 1 {
      StartMonotone(code, j, k - 1);
    }
  }

  lemma StartZero(code: Code)
    ensures Start(code, 0) == 0
  {
    assert code[..0] == [];
  }

  lemma StartOfEnd(code: Code)
    ensures Start(code, |code|) == |EncodeAll(code)|
  {
    assert code[..|code|] == code;
  }

  // Jump kinds leave no trace in the bytes.
  lemma {:induction false} EncodeRaw(code: Code)
    ensures EncodeAll(RawCode(code)) == EncodeAll(code)
  {
    if code != [] {
      assert RawCode(code)[1..] == RawCode(code[1..]);
      EncodeRaw(code[1..]);
    }
  }
}
