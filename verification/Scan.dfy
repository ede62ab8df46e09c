// Reading bytecode back: the stride of the assembler's offset scan (src/program.cpp:213-303).
module Scan {
  import opened Bytes
  import opened Opcodes
  import opened Instructions

  // The encoding of i is stored at b[at..].
  predicate At(b: seq<Byte>, at: nat, i: Instr) {
    at + |Encode(i)| <= |b| && b[at..at + |Encode(i)|] == Encode(i)
  }

  lemma Window(b: seq<Byte>, at: nat, e: seq<Byte>, from: nat, to: nat)
    requires at + |e| <= |b| && b[at..at + |e|] == e && from <= to <= |e|
    ensures b[at + from..at + to] == e[from..to]
  {
    var w, v := b[at..at + |e|], b[at + from..at + to];
    forall k | 0 <= k < |v|
      ensures v[k] == e[from..to][k]
    {
      assert v[k] == b[at + from + k] && w[from + k] == b[at + (from + k)];
    }
  }

  lemma OpcodeAt(b: seq<Byte>, at: nat, i: Instr)
    requires At(b, at, i)
    ensures at < |b| && b[at] == i.Opcode()
  {
    hide Encode;
    assert b[at..at + |Encode(i)|][0] == b[at];
  }

  lemma TextAt(b: seq<Byte>, at: nat, i: Instr)
    requires i.Text? && At(b, at, i)
    ensures at + 6 <= |b| && TextLength(b, at + 6) == |i.text| && ReadText(b, at + 6) == i.text
    ensures |Encode(i)| == 6 + |i.text| + 1
  {
    hide OperandBytes, IntBytes, TextLength, ReadText;
    var e := Encode(i);
    assert e == [i.op] + OperandBytes(i.a) + Terminated(i.text);
    Window(b, at, e, 6, |e|);
    ReadTerminated(b, at + 6, i.text);
  }

  lemma NamedAt(b: seq<Byte>, at: nat, i: Instr)
    requires i.Named? && At(b, at, i)
    ensures at + 1 <= |b| && TextLength(b, at + 1) == |i.name| && ReadText(b, at + 1) == i.name
    ensures |Encode(i)| == 1 + |i.name| + 1
  {
    hide OperandBytes, IntBytes, TextLength, ReadText;
    var e := Encode(i);
    Window(b, at, e, 1, |e|);
    ReadTerminated(b, at + 1, i.name);
  }

  lemma AttachAt(b: seq<Byte>, at: nat, i: Instr)
    requires i.Attach? && At(b, at, i)
    ensures at + 6 + |i.function_| + 1 <= |b|
    ensures TextLength(b, at + 6) == |i.function_| && ReadText(b, at + 6) == i.function_
    ensures var m := at + 6 + |i.function_| + 1;
            TextLength(b, m) == |i.method_| && ReadText(b, m) == i.method_
    ensures |Encode(i)| == 6 + |i.function_| + 1 + |i.method_| + 1
  {
    hide OperandBytes, IntBytes, TextLength, ReadText;
    var e, n := Encode(i), 6 + |i.function_| + 1;
    var head := [ATTACH] + OperandBytes(i.a);
    assert e == head + Terminated(i.function_) + Terminated(i.method_) && |head| == 6;
    Window(b, at, e, 6, n);
    assert e[6..n] == Terminated(i.function_);
    ReadTerminated(b, at + 6, i.function_);
    Window(b, at, e, n, |e|);
    assert e[n..] == Terminated(i.method_);
    ReadTerminated(b, at + n, i.method_);
  }

  lemma CatchAt(b: seq<Byte>, at: nat, i: Instr)
    requires i.Catch? && At(b, at, i)
    ensures at + 1 + |i.type_| + 1 <= |b|
    ensures TextLength(b, at + 1) == |i.type_| && ReadText(b, at + 1) == i.type_
    ensures var m := at + 1 + |i.type_| + 1;
            TextLength(b, m) == |i.block| && ReadText(b, m) == i.block
    ensures |Encode(i)| == 1 + |i.type_| + 1 + |i.block| + 1
  {
    hide OperandBytes, IntBytes, TextLength, ReadText;
    var e, n := Encode(i), 1 + |i.type_| + 1;
    assert e == [CATCH] + Terminated(i.type_) + Terminated(i.block);
    Window(b, at, e, 1, n);
    assert e[1..n] == Terminated(i.type_);
    ReadTerminated(b, at + 1, i.type_);
    Window(b, at, e, n, |e|);
    assert e[n..] == Terminated(i.block);
    ReadTerminated(b, at + n, i.block);
  }

  // Length of the text at b[p]; a text that would start past the end counts as empty.
  function LengthAt(b: seq<Byte>, p: nat): nat {
    if p <= |b| then TextLength(b, p) else 0
  }

  // How far the scan moves from an instruction that starts at b[at], or Err on an opcode without
  // a name.
  function Stride(b: seq<Byte>, at: nat): Result<nat>
    requires at < |b|
  {
    var op := b[at];
    if !Known(op) then Err
    else if op == IMPORT || op == ENTER || op == LINK then
      Ok(OpSize(op) + LengthAt(b, at + 1) + 1)
    else if op == CALL || op == CLOSURE || op == FUNCTION || op == CLASS || op == PROTOTYPE
            || op == DERIVE || op == NEW || op == MSG then
      Ok(OpSize(op) + LengthAt(b, at + 6) + 1)
    else if op == ATTACH then
      var f := LengthAt(b, at + 6);
      Ok(OpSize(op) + f + 1 + LengthAt(b, at + 6 + f + 1) + 1)
    else if op == STRSTORE then
      Ok(OpSize(op) + LengthAt(b, at + OpSize(op)) + 1)
    else if op == CATCH then
      var t := LengthAt(b, at + 1);
      Ok(OpSize(op) + t + 1 + LengthAt(b, at + 1 + t + 1) + 1)
    else
      Ok(OpSize(op))
  }

  // The scan steps over exactly the bytes the generator wrote.
  lemma StrideIsSize(b: seq<Byte>, at: nat, i: Instr)
    requires i.Valid() && At(b, at, i)
    ensures Stride(b, at) == Ok(|Encode(i)|)
  {
    hide Encode, TextLength, ReadText, At;
    OpcodeAt(b, at, i);
    SizeIsEncodedLength(i);
    if i.Text? {
      TextAt(b, at, i);
    } else if i.Named? {
      NamedAt(b, at, i);
    } else if i.Attach? {
      AttachAt(b, at, i);
    } else if i.Catch? {
      CatchAt(b, at, i);
    }
  }

  lemma CodeAt(code: Code, k: nat)
    requires k < |code|
    ensures At(EncodeAll(code), Start(code, k), code[k])
  {
    hide Encode, EncodeAll;
    Layout(code, k);
  }
}
