// The byte buffer the assembler fills and then patches (src/program.cpp,
// src/programinstructions.cpp, src/cg/bytecode/instructions.cpp).
module Programs {
  import opened Bytes
  import opened Opcodes
  import opened Instructions
  import opened Jumps
  import opened Scan
  import opened Patching

  class Program {
    var program: array<Byte>
    var addr: nat
    var branches: seq<nat>
    var branchesAbsolute: seq<nat>
    // The instructions emitted so far, and the bytes of the one being emitted.
    ghost var code: Code
    ghost var pending: seq<Byte>

    // The buffer holds the emitted code, then the pending bytes, then NOPs.
    ghost predicate Filled()
      reads this, program
    {
      && addr == |EncodeAll(code)| + |pending| <= program.Length
      && program[..addr] == EncodeAll(code) + pending
      && forall k | addr <= k < program.Length :: program[k] == NOP
    }

    ghost predicate Valid()
      reads this, program
    {
      && ValidCode(code)
      && Filled()
      && pending == []
      && Locates(code, RecordedSlots(code, false), branches)
      && Locates(code, RecordedSlots(code, true), branchesAbsolute)
    }

    constructor (bytes: nat)
      ensures Valid() && fresh(program) && program.Length == bytes && code == []
    {
      program := new Byte[bytes](_ => NOP);
      addr, branches, branchesAbsolute, code, pending := 0, [], [], [], [];
    }

    // ----- writing through the advancing address pointer -----

    method Put(b: Byte)
      requires Filled() && addr < program.Length
      modifies this`addr, this`pending, program
      ensures Filled() && pending == old(pending) + [b]
    {
      program[addr] := b;
      addr := addr + 1;
      pending := pending + [b];
    }

    method PutInt(n: Int32)
      requires Filled() && addr + 4 <= program.Length
      modifies this`addr, this`pending, program
      ensures Filled() && pending == old(pending) + IntBytes(n)
    {
      hide EncodeAll;
      var b := IntBytes(n);
      Put(b[0]);
      Put(b[1]);
      Put(b[2]);
      Put(b[3]);
    }

    method PutOperand(a: Operand)
      requires Filled() && addr + 5 <= program.Length
      modifies this`addr, this`pending, program
      ensures Filled() && pending == old(pending) + OperandBytes(a)
    {
      hide EncodeAll, IntBytes;
      Put(if a.ref then 1 else 0);
      PutInt(a.index);
      assert pending == old(pending) + OperandBytes(a);
    }

    method PutText(s: Name)
      requires Filled() && addr + |s| + 1 <= program.Length
      modifies this`addr, this`pending, program
      ensures Filled() && pending == old(pending) + Terminated(s)
    {
      ghost var start := addr;
      for i := 0 to |s|
        invariant Filled() && addr == start + i && pending == old(pending) + s[..i]
      {
        Put(s[i]);
      }
      assert s[..|s|] == s;
      Put(0);
    }

    // ----- generators, one per shape of instruction -----

    method PutOne(op: Byte, a: Operand)
      requires Filled() && pending == [] && addr + 6 <= program.Length
      modifies this`addr, this`pending, program
      ensures Filled() && pending == [op] + OperandBytes(a)
    {
      hide EncodeAll, OperandBytes, IntBytes;
      Put(op);
      PutOperand(a);
    }

    method PutTwo(op: Byte, a: Operand, b: Operand)
      requires Filled() && pending == [] && addr + 11 <= program.Length
      modifies this`addr, this`pending, program
      ensures Filled() && pending == [op] + OperandBytes(a) + OperandBytes(b)
    {
      hide EncodeAll, OperandBytes, IntBytes;
      Put(op);
      PutOperand(a);
      PutOperand(b);
    }

    method PutThree(op: Byte, a: Operand, b: Operand, c: Operand)
      requires Filled() && pending == [] && addr + 16 <= program.Length
      modifies this`addr, this`pending, program
      ensures Filled() && pending == [op] + OperandBytes(a) + OperandBytes(b) + OperandBytes(c)
    {
      hide EncodeAll, OperandBytes, IntBytes;
      Put(op);
      PutOperand(a);
      PutOperand(b);
      PutOperand(c);
    }

    method PutFloatStore(a: Operand, bits: Int32)
      requires Filled() && pending == [] && addr + 10 <= program.Length
      modifies this`addr, this`pending, program
      ensures Filled() && pending == [FSTORE] + OperandBytes(a) + IntBytes(bits)
    {
      hide EncodeAll, OperandBytes, IntBytes;
      Put(FSTORE);
      PutOperand(a);
      PutInt(bits);
    }

    method PutByteStore(a: Operand, ref: bool, value: Byte)
      requires Filled() && pending == [] && addr + 8 <= program.Length
      modifies this`addr, this`pending, program
      ensures Filled() && pending == [BSTORE] + OperandBytes(a) + [if ref then 1 else 0, value]
    {
      hide EncodeAll, OperandBytes, IntBytes;
      Put(BSTORE);
      PutOperand(a);
      Put(if ref then 1 else 0);
      Put(value);
    }

    method PutNumber(op: Byte, n: Int32)
      requires Filled() && pending == [] && addr + 5 <= program.Length
      modifies this`addr, this`pending, program
      ensures Filled() && pending == [op] + IntBytes(n)
    {
      hide EncodeAll, OperandBytes, IntBytes;
      Put(op);
      PutInt(n);
    }

    method PutBranch(c: Operand, t: Int32, f: Int32)
      requires Filled() && pending == [] && addr + 14 <= program.Length
      modifies this`addr, this`pending, program
      ensures Filled() && pending == [BRANCH] + OperandBytes(c) + IntBytes(t) + IntBytes(f)
    {
      hide EncodeAll, OperandBytes, IntBytes;
      Put(BRANCH);
      PutOperand(c);
      PutInt(t);
      PutInt(f);
    }

    method PutOperandText(op: Byte, a: Operand, text: Name)
      requires Filled() && pending == [] && addr + 7 + |text| <= program.Length
      modifies this`addr, this`pending, program
      ensures Filled() && pending == [op] + OperandBytes(a) + Terminated(text)
    {
      hide EncodeAll, OperandBytes, IntBytes;
      Put(op);
      PutOperand(a);
      PutText(text);
    }

    method PutName(op: Byte, name: Name)
      requires Filled() && pending == [] && addr + 2 + |name| <= program.Length
      modifies this`addr, this`pending, program
      ensures Filled() && pending == [op] + Terminated(name)
    {
      hide EncodeAll, OperandBytes, IntBytes;
      Put(op);
      PutText(name);
    }

    method PutAttach(a: Operand, f: Name, m: Name)
      requires Filled() && pending == [] && addr + 8 + |f| + |m| <= program.Length
      modifies this`addr, this`pending, program
      ensures Filled() && pending == [ATTACH] + OperandBytes(a) + Terminated(f) + Terminated(m)
    {
      hide EncodeAll, OperandBytes, IntBytes;
      Put(ATTACH);
      PutOperand(a);
      PutText(f);
      PutText(m);
    }

    method PutCatch(t: Name, b: Name)
      requires Filled() && pending == [] && addr + 3 + |t| + |b| <= program.Length
      modifies this`addr, this`pending, program
      ensures Filled() && pending == [CATCH] + Terminated(t) + Terminated(b)
    {
      hide EncodeAll, OperandBytes, IntBytes;
      Put(CATCH);
      PutText(t);
      PutText(b);
    }

    method Generate(i: Instr)
      requires i.Valid() && Filled() && pending == [] && addr + Size(i) <= program.Length
      modifies this`addr, this`pending, program
      ensures Filled() && pending == Encode(i)
    {
      hide EncodeAll, OperandBytes, IntBytes, Program.Filled;
      match i {
        case Bare(op) => Put(op);
        case One(op, a) => PutOne(op, a);
        case Two(op, a, b) => PutTwo(op, a, b);
        case Three(op, a, b, c) => PutThree(op, a, b, c);
        case FloatStore(a, bits) => PutFloatStore(a, bits);
        case ByteStore(a, ref, value) => PutByteStore(a, ref, value);
        case SelectRegisters(rs) => PutNumber(RESS, rs);
        case Jump(t, _) => PutNumber(JUMP, t);
        case Branch(c, t, _, f, _) => PutBranch(c, t, f);
        case Text(op, a, text) => PutOperandText(op, a, text);
        case Named(op, name) => PutName(op, name);
        case Attach(a, f, m) => PutAttach(a, f, m);
        case Catch(t, b) => PutCatch(t, b);
      }
    }

    // Remember where jump targets that are instruction indexes were written.
    method Note(i: Instr, start: nat)
      modifies this`branches, this`branchesAbsolute
      ensures branches == old(branches) + Noted(i, start, false)
      ensures branchesAbsolute == old(branchesAbsolute) + Noted(i, start, true)
    {
      match i {
        case Jump(_, kind) =>
          if kind != ToByte {
            if kind == Absolute {
              branchesAbsolute := branchesAbsolute + [start + 1];
            } else {
              branches := branches + [start + 1];
            }
          }
        case Branch(_, _, trueKind, _, falseKind) =>
          if trueKind != ToByte {
            if trueKind == Absolute {
              branchesAbsolute := branchesAbsolute + [start + 6];
            } else {
              branches := branches + [start + 6];
            }
          }
          if falseKind != ToByte {
            if trueKind == Absolute {
              branchesAbsolute := branchesAbsolute + [start + 10];
            } else {
              branches := branches + [start + 10];
            }
          }
        case _ =>
      }
    }

    // Append one instruction.
    method Emit(i: Instr)
      requires Valid() && i.Valid() && |EncodeAll(code)| + Size(i) <= program.Length
      modifies this, program
      ensures Valid() && program == old(program) && code == old(code) + [i]
    {
      hide Encode, EncodeAll, RecordedSlots, Locates, Noted;
      LocatesSnoc(code, i, false, branches);
      LocatesSnoc(code, i, true, branchesAbsolute);
      Note(i, addr);
      Generate(i);
      EncodeConcat(code, [i]);
      EncodeSingleton(i);
      code, pending := code + [i], [];
    }

    // ----- patching -----

    // The whole buffer is the code c.
    ghost predicate Holds(c: Code)
      reads this, program
    {
      ValidCode(c) && program[..] == EncodeAll(c)
    }

    // How many instructions the array is taken to hold.
    method InstructionCount() returns (counter: nat)
      ensures counter == StaleCount(program[..], 0)
    {
      counter := 0;
      var i := 0;
      while i < program.Length
        invariant counter + StaleCount(program[..], i) == StaleCount(program[..], 0)
        decreases program.Length - i
      {
        i := i + StaleSize(program[i]) + 1;
        counter := counter + 1;
      }
    }

    // The byte at which instruction instr starts, found by walking over the instructions before
    // it; a negative index counts back from `count`.
    method GetInstructionBytecodeOffset(instr: int, count: nat) returns (r: Result<nat>)
      ensures r == ScanTo(program[..], Steps(instr, count))
    {
      hide Stride;
      var offset, i, limit := 0, 0, Steps(instr, count);
      while i < limit
        invariant 0 <= i <= limit && ScanTo(program[..], i) == Ok(offset)
      {
        if offset >= program.Length {
          ScanStuck(program[..], i + 1, limit);
          return Err;
        }
        var inc := Stride(program[..], offset);
        if inc.Err? {
          ScanStuck(program[..], i + 1, limit);
          return Err;
        }
        offset := offset + inc.value;
        i := i + 1;
        if offset + 1 > program.Length {
          ScanStuck(program[..], i, limit);
          return Err;
        }
      }
      r := Ok(offset);
    }

    // *(int*)(program + position) = n
    method OverwriteInt(position: nat, n: Int32)
      requires position + 4 <= program.Length
      modifies program
      ensures program[..] == old(program[..position]) + IntBytes(n) + old(program[position + 4..])
    {
      var b := IntBytes(n);
      program[position], program[position + 1], program[position + 2], program[position + 3] :=
        b[0], b[1], b[2], b[3];
    }

    // Rewrite every listed target from an instruction index into an address; nothing can be said of
    // the array when one of them is found nowhere.
    method CalculateJumps(jumpPositions: seq<(nat, nat)>) returns (ok: bool)
      requires forall j <- jumpPositions :: Patchable(program[..], j)
      modifies program
      ensures var patched := PatchedAll(old(program[..]), jumpPositions, StaleCount(old(program[..]), 0));
              ok == patched.Ok? && (ok ==> program[..] == patched.value)
    {
      hide ScanTo, IntBytes;
      ghost var before := program[..];
      var count := InstructionCount();
      assert jumpPositions[..0] == [];
      for i := 0 to |jumpPositions|
        invariant PatchedAll(before, jumpPositions[..i], count) == Ok(program[..])
      {
        var (position, offset) := jumpPositions[i];
        assert Patchable(before, jumpPositions[i]);
        assert jumpPositions[..i + 1][..i] == jumpPositions[..i];
        var target := ReadInt(program[..], position);
        var adjustment := GetInstructionBytecodeOffset(target, count);
        if adjustment.Err? {
          PatchingStuck(before, jumpPositions, count, i + 1);
          return false;
        }
        OverwriteInt(position, offset + adjustment.value);
      }
      assert jumpPositions[..|jumpPositions|] == jumpPositions;
      ok := true;
    }

    // Take over bytecode generated elsewhere.
    method Fill(bytecode: array<Byte>)
      modifies this
      ensures program == bytecode
    {
      program, addr := bytecode, 0;
    }

    // The relative jumps of a finished element placed at byte base, as generate patches them: all
    // that are filed as relative, and exactly when each of them is the index of an instruction.
    method CalculateLocalJumps(base: nat) returns (ok: bool)
      requires Valid() && addr == program.Length
      requires forall s <- RecordedSlots(code, false) :: HasSlot(code, s) ==> 0 <= TargetOf(code, s)
      requires base + program.Length < 0x8000_0000
      modifies program
      ensures ok <==> TargetsInside(code)
      ensures ok ==> Holds(Resolve(Filed(code), Relative, base))
    {
      hide Encode, EncodeAll, Filed, Resolve, Position, TargetOf, HasSlot, Addresses, Patched;
      var localJumps := seq(|branches|, i requires 0 <= i < |branches| reads this => (branches[i], base));
      assert program[..] == program[..addr] == EncodeAll(code) + [];
      LocalJumps(code, branches, base, localJumps, StaleCount(program[..], 0));
      ok := CalculateJumps(localJumps);
    }
  }

  // What patching the recorded relative targets of code does.
  lemma LocalJumps(code: Code, positions: seq<nat>, base: nat, jumps: seq<(nat, nat)>, count: nat)
    requires ValidCode(code) && Locates(code, RecordedSlots(code, false), positions)
    requires forall s <- RecordedSlots(code, false) :: HasSlot(code, s) ==> 0 <= TargetOf(code, s)
    requires base + |EncodeAll(code)| < 0x8000_0000
    requires |jumps| == |positions| && forall j | 0 <= j < |jumps| :: jumps[j] == (positions[j], base)
    ensures forall j <- jumps :: Patchable(EncodeAll(code) + [], j)
    ensures var patched := PatchedAll(EncodeAll(code) + [], jumps, count);
            && (patched.Ok? <==> TargetsInside(code))
            && (patched.Ok? ==> patched.value == EncodeAll(Resolve(Filed(code), Relative, base)))
    ensures ValidCode(Resolve(Filed(code), Relative, base))
  {
    hide Encode, EncodeAll, RecordedSlots, Position, Rewritten, TargetOf, HasSlot, ByteAddress, PatchedAll, KindsAgree,
      SameButTargets, Instr.Valid;
    var c, slots := Filed(code), RecordedSlots(code, false);
    var offsets := seq(|slots|, _ => base);
    FiledMeaning(code);
    FiledTargets(code);
    RecordedAreSlots(code, false);
    RecordedAreSlots(c, false);
    assert Lists(c, 0, slots, offsets, jumps);
    ListedPatchable(c, [], slots, offsets, jumps);
    if TargetsInside(code) {
      PatchesCode(c, c, [], slots, offsets, jumps, count, |slots|);
      RewrittenIsResolved(c, c, false, base);
      var values := Addresses(c, c, slots, offsets);
      assert slots[..|slots|] == slots && values[..|slots|] == values && jumps[..|slots|] == jumps;
    } else {
      var s :| s in slots && HasSlot(code, s) && TargetOf(code, s) >= |code|;
      var k :| 0 <= k < |slots| && slots[k] == s;
      PatchingFails(c, [], slots, offsets, jumps, count, k);
    }
    ResolvedValid(c, Relative, base);
  }

  lemma ResolvedValid(code: Code, kind: JumpKind, offset: nat)
    ensures ValidCode(code) <==> ValidCode(Resolve(code, kind, offset))
  {
    hide ByteAddress;
    assert forall k | 0 <= k < |code| :: code[k].Valid() <==> Resolve(code, kind, offset)[k].Valid();
  }
}
