// Static linking of one library (src/front/asm/generate.cpp:806-836, 1240-1273).
module Linker {
  import opened Bytes
  import opened Opcodes
  import opened Instructions
  import opened Assembler
  import opened Jumps
  import opened Compiler
  import opened Sections

  // The relative targets of an element, placed at two different bytes, differ by the distance.
  lemma PlacedTwice(lines: seq<Line>, near: nat, far: nat, s: Slot)
    requires Assembles(lines) && HasSlot(CodeOf(lines), s)
    requires near <= far && far + |EncodeAll(CodeOf(lines))| < 0x8000_0000
    ensures var p, q := PlacedCode(lines, near), PlacedCode(lines, far);
            && HasSlot(p, s) && HasSlot(q, s) && KindOf(p, s) == KindOf(q, s)
            && (KindOf(CodeOf(lines), s) == Relative ==> KindOf(p, s) == ToByte)
            && TargetOf(q, s) == TargetOf(p, s) + (if KindOf(CodeOf(lines), s) == Relative then far - near else 0)
  {
    hide CodeOf, EncodeAll, RecordedSlots;
    var code := CodeOf(lines);
    CodeMeaning(lines);
    if KindOf(code, s) == Relative {
      FilingOfSlot(code, s);
      var t := TargetOf(code, s);
      StartMonotone(code, t, |code|);
    }
  }

  lemma TargetLeft(a: Code, b: Code, s: Slot)
    requires s.at < |a|
    ensures HasSlot(a + b, s) <==> HasSlot(a, s)
    ensures HasSlot(a, s) ==> TargetOf(a + b, s) == TargetOf(a, s) && KindOf(a + b, s) == KindOf(a, s)
  {
  }

  lemma TargetRight(a: Code, b: Code, s: Slot)
    requires s.at >= |a|
    ensures var t := Slot(s.at - |a|, s.second);
            && (HasSlot(a + b, s) <==> HasSlot(b, t))
            && (HasSlot(b, t) ==> TargetOf(a + b, s) == TargetOf(b, t) && KindOf(a + b, s) == KindOf(b, t))
  {
  }

  // Target s of code appears in p and in q with the same kind, in q further by base if it is
  // relative in code.
  predicate Apart(code: Code, p: Code, q: Code, s: Slot, base: nat) {
    HasSlot(code, s) ==>
      && HasSlot(p, s) && HasSlot(q, s) && KindOf(p, s) == KindOf(q, s)
      && (KindOf(code, s) == Relative ==> KindOf(p, s) == ToByte)
      && TargetOf(q, s) == TargetOf(p, s) + (if KindOf(code, s) == Relative then base else 0)
  }

  lemma ApartConcat(a: Code, p: Code, q: Code, b: Code, p': Code, q': Code, s: Slot, base: nat)
    requires |a| == |p| == |q|
    requires s.at < |a| ==> Apart(a, p, q, s, base)
    requires s.at >= |a| ==> Apart(b, p', q', Slot(s.at - |a|, s.second), base)
    ensures Apart(a + b, p + p', q + q', s, base)
  {
    hide HasSlot, TargetOf, KindOf;
    if s.at < |a| {
      TargetLeft(a, b, s);
      TargetLeft(p, p', s);
      TargetLeft(q, q', s);
    } else {
      TargetRight(a, b, s);
      TargetRight(p, p', s);
      TargetRight(q, q', s);
    }
  }

  lemma SectionTwiceSnoc(init: Bodies, x: seq<Line>, base: nat, s: Slot)
    requires AllAssemble(init + [x])
    requires base + Before(init + [x], |init| + 1) < 0x8000_0000
    requires AllAssemble(init)
    requires Apart(Flat(init), FlatPlaced(init, 0), FlatPlaced(init, base), s, base)
    ensures Apart(Flat(init + [x]), FlatPlaced(init + [x], 0), FlatPlaced(init + [x], base), s, base)
  {
    hide AllAssemble, Flat, FlatPlaced, Before, Apart, PlacedCode, CodeOf, Assembles, EncodeAll, BodyBytes;
    FlatSnoc(init, x, 0);
    FlatSnoc(init, x, base);
    FlatLengths(init, 0);
    FlatLengths(init, base);
    BeforeSnoc(init, x);
    var at := Before(init, |init|);
    if s.at >= |Flat(init)| {
      ElementTwice(x, at, base, Slot(s.at - |Flat(init)|, s.second));
    }
    ApartConcat(Flat(init), FlatPlaced(init, 0), FlatPlaced(init, base),
                CodeOf(x), PlacedCode(x, at), PlacedCode(x, base + at), s, base);
  }

  // The same for a whole section.
  lemma {:induction false} SectionTwice(bs: Bodies, base: nat, s: Slot)
    requires AllAssemble(bs)
    requires base + Before(bs, |bs|) < 0x8000_0000
    ensures Apart(Flat(bs), FlatPlaced(bs, 0), FlatPlaced(bs, base), s, base)
  {
    hide AllAssemble, Flat, FlatPlaced, Before, Apart;
    if bs == [] {
      FlatNothing(0);
      NoSlots(FlatPlaced(bs, 0), FlatPlaced(bs, base), s, base);
    } else {
      var init, x := bs[..|bs| - 1], bs[|bs| - 1];
      assert init + [x] == bs;
      AssembleConcat(init, [x]);
      BeforeSnoc(init, x);
      SectionTwice(init, base, s);
      SectionTwiceSnoc(init, x, base, s);
    }
  }

  lemma NoSlots(p: Code, q: Code, s: Slot, base: nat)
    ensures Apart([], p, q, s, base)
  {
  }

  lemma ElementTwice(lines: seq<Line>, near: nat, base: nat, s: Slot)
    requires Assembles(lines)
    requires base + near + BodyBytes(lines) < 0x8000_0000
    ensures Apart(CodeOf(lines), PlacedCode(lines, near), PlacedCode(lines, base + near), s, base)
  {
    hide EncodeAll, PlacedCode, CodeOf, Assembles, BodyBytes, HasSlot, KindOf, TargetOf;
    CodeMeaning(lines);
    if HasSlot(CodeOf(lines), s) {
      PlacedTwice(lines, near, base + near, s);
    }
  }

  // ----- what the jump table of a library lists -----

  lemma {:induction false} FlatAgrees(bs: Bodies)
    requires AllAssemble(bs)
    ensures AllKindsAgree(Flat(bs)) && ValidCode(Flat(bs))
  {
    hide CodeOf, Assembles, AllKindsAgree, ValidCode;
    if bs == [] {
      NothingAgrees();
    } else {
      var n := |bs| - 1;
      FlatAgrees(bs[..n]);
      CodeMeaning(bs[n]);
      AgreesConcat(Flat(bs[..n]), CodeOf(bs[n]));
    }
  }

  lemma AgreesConcat(a: Code, b: Code)
    requires AllKindsAgree(a) && AllKindsAgree(b) && ValidCode(a) && ValidCode(b)
    ensures AllKindsAgree(a + b) && ValidCode(a + b)
  {
    hide KindsAgree, Instr.Valid;
  }

  lemma FlatSameSnoc(init: Bodies, x: seq<Line>, base: nat)
    requires AllAssemble(init + [x]) && AllAssemble(init)
    requires |FlatPlaced(init, base)| == |Flat(init)|
    requires forall k | 0 <= k < |Flat(init)| :: SameButTargets(Flat(init)[k], FlatPlaced(init, base)[k])
    ensures |FlatPlaced(init + [x], base)| == |Flat(init + [x])|
    ensures forall k | 0 <= k < |Flat(init + [x])| ::
              SameButTargets(Flat(init + [x])[k], FlatPlaced(init + [x], base)[k])
  {
    hide AllAssemble, Flat, FlatPlaced, Before, SameButTargets, PlacedCode, CodeOf, Assembles;
    FlatSnoc(init, x, base);
    PlacedSame(x, base + Before(init, |init|));
    ConcatSame(Flat(init), FlatPlaced(init, base), CodeOf(x), PlacedCode(x, base + Before(init, |init|)));
  }

  lemma {:induction false} FlatSame(bs: Bodies, base: nat)
    requires AllAssemble(bs)
    ensures |FlatPlaced(bs, base)| == |Flat(bs)|
    ensures forall k | 0 <= k < |Flat(bs)| :: SameButTargets(Flat(bs)[k], FlatPlaced(bs, base)[k])
  {
    hide AllAssemble, Flat, FlatPlaced, SameButTargets;
    if bs == [] {
      FlatNothing(base);
    } else {
      var init, x := bs[..|bs| - 1], bs[|bs| - 1];
      assert init + [x] == bs;
      AssembleConcat(init, [x]);
      FlatSame(init, base);
      FlatSameSnoc(init, x, base);
    }
  }

  lemma PlacedSame(lines: seq<Line>, base: nat)
    requires Assembles(lines)
    ensures |PlacedCode(lines, base)| == |CodeOf(lines)|
    ensures forall k | 0 <= k < |CodeOf(lines)| :: SameButTargets(CodeOf(lines)[k], PlacedCode(lines, base)[k])
  {
    hide Assembled, SameButTargets, Resolve;
    ResolvedSame(CodeOf(lines), Relative, base);
  }

  lemma ConcatSame(a: Code, p: Code, b: Code, q: Code)
    requires |a| == |p| && forall k | 0 <= k < |a| :: SameButTargets(a[k], p[k])
    requires |b| == |q| && forall k | 0 <= k < |b| :: SameButTargets(b[k], q[k])
    ensures |a + b| == |p + q| && forall k | 0 <= k < |a + b| :: SameButTargets((a + b)[k], (p + q)[k])
  {
    hide SameButTargets;
  }

  lemma SameSymmetric(i: Instr, j: Instr)
    requires SameButTargets(i, j)
    ensures SameButTargets(j, i)
  {
  }

  // Targets are stored at the same positions before and after placing.
  lemma LocatesSame(code: Code, other: Code, slots: seq<Slot>, p: seq<nat>)
    requires |code| == |other| && forall k | 0 <= k < |code| :: SameButTargets(code[k], other[k])
    requires Locates(code, slots, p)
    ensures Locates(other, slots, p)
  {
    hide EncodeAll, Encode, Start, SameButTargets;
    forall k | 0 <= k < |code|
      ensures |Encode(code[k])| == |Encode(other[k])|
    {
      SameLength(code[k], other[k]);
    }
    forall j | 0 <= j < |slots|
      ensures HasSlot(other, slots[j]) && Position(other, slots[j]) == Position(code, slots[j])
    {
      assert HasSlot(code, slots[j]);
      SlotSame(code, other, slots[j]);
      SameStarts(code, other, slots[j].at);
    }
  }

  lemma SlotSame(code: Code, other: Code, s: Slot)
    requires |code| == |other| && HasSlot(code, s) && SameButTargets(code[s.at], other[s.at])
    ensures HasSlot(other, s) && TargetOffset(other[s.at], s.second) == TargetOffset(code[s.at], s.second)
  {
  }

  // Every recorded target raised by base.
  function Raised(p: Code, slots: seq<Slot>, base: nat): (v: seq<Int32>)
    requires forall s <- slots :: HasSlot(p, s) && TargetOf(p, s) + base < 0x8000_0000
    ensures |v| == |slots| && forall j | 0 <= j < |v| :: v[j] == TargetOf(p, slots[j]) + base
  {
    seq(|slots|, j requires 0 <= j < |slots| => TargetOf(p, slots[j]) + base)
  }

  // A library generated at byte 0 and moved to byte base: relative targets move along, absolute ones
  // have been resolved before and stay.
  function LibraryCode(bs: Bodies, base: nat): Code
    requires AllAssemble(bs)
  {
    ResolveIn(FlatPlaced(bs, 0), FlatPlaced(bs, base), Absolute, 0)
  }

  lemma ResolvedApart(whole: Code, code: Code, p: Code, q: Code, s: Slot, base: nat)
    requires |p| == |q| == |code| && Apart(code, p, q, s, base)
    ensures Apart(code, ResolveIn(whole, p, Absolute, 0), ResolveIn(whole, q, Absolute, 0), s, base)
  {
    hide ByteAddress;
  }

  // Moving a library changes nothing but its relative targets.
  lemma LibraryTwice(bs: Bodies, base: nat, s: Slot)
    requires AllAssemble(bs) && base + Before(bs, |bs|) < 0x8000_0000
    ensures Apart(Flat(bs), LibraryCode(bs, 0), LibraryCode(bs, base), s, base)
  {
    hide AllAssemble, Flat, FlatPlaced, Before, Apart, ResolveIn;
    SectionTwice(bs, base, s);
    FlatLengths(bs, 0);
    FlatLengths(bs, base);
    ResolvedApart(FlatPlaced(bs, 0), Flat(bs), FlatPlaced(bs, 0), FlatPlaced(bs, base), s, base);
  }

  lemma OneResolvedSame(whole: Code, i: Instr, kind: JumpKind)
    ensures SameButTargets(i, ResolveInstr(whole, i, kind, 0))
  {
    hide ByteAddress;
  }

  lemma LibrarySame(bs: Bodies, base: nat)
    requires AllAssemble(bs)
    ensures |LibraryCode(bs, base)| == |Flat(bs)|
    ensures forall k | 0 <= k < |Flat(bs)| :: SameButTargets(Flat(bs)[k], LibraryCode(bs, base)[k])
    ensures |EncodeAll(LibraryCode(bs, base))| == Before(bs, |bs|)
  {
    hide AllAssemble, Flat, FlatPlaced, SameButTargets, ResolveInstr, EncodeAll, Before;
    FlatSame(bs, base);
    FlatLengths(bs, base);
    var code, p, r := Flat(bs), FlatPlaced(bs, base), LibraryCode(bs, base);
    forall k | 0 <= k < |code|
      ensures SameButTargets(code[k], r[k])
    {
      OneResolvedSame(FlatPlaced(bs, 0), p[k], Absolute);
      SameTransitive(code[k], p[k], r[k]);
    }
    ResolveLength(code, r);
  }

  lemma TableFits(bs: Bodies, base: nat)
    requires AllAssemble(bs) && base + Before(bs, |bs|) < 0x8000_0000
    ensures forall s <- RecordedSlots(Flat(bs), false) ::
              && HasSlot(LibraryCode(bs, 0), s)
              && TargetOf(LibraryCode(bs, 0), s) + base < 0x8000_0000
  {
    hide AllAssemble, Flat, LibraryCode, Before, RecordedSlots;
    RecordedAreSlots(Flat(bs), false);
    FlatAgrees(bs);
    forall s | s in RecordedSlots(Flat(bs), false)
      ensures HasSlot(LibraryCode(bs, 0), s) && TargetOf(LibraryCode(bs, 0), s) + base < 0x8000_0000
    {
      LibraryTwice(bs, base, s);
      FilingOfSlot(Flat(bs), s);
    }
  }

  // Raising what the jump table of a library lists gives the library moved to base.
  lemma RaisedIsPlaced(bs: Bodies, base: nat)
    requires AllAssemble(bs) && base + Before(bs, |bs|) < 0x8000_0000
    ensures forall s <- RecordedSlots(Flat(bs), false) ::
              && HasSlot(LibraryCode(bs, 0), s)
              && TargetOf(LibraryCode(bs, 0), s) + base < 0x8000_0000
    ensures var slots := RecordedSlots(Flat(bs), false);
            Rewritten(LibraryCode(bs, 0), slots, Raised(LibraryCode(bs, 0), slots, base)) == LibraryCode(bs, base)
  {
    hide AllAssemble, Flat, LibraryCode, Before, RecordedSlots, Rewritten, TargetOf, KindOf, SameButTargets, EncodeAll;
    TableFits(bs, base);
    var code, p, q, slots := Flat(bs), LibraryCode(bs, 0), LibraryCode(bs, base), RecordedSlots(Flat(bs), false);
    var values := Raised(p, slots, base);
    RecordedAreSlots(code, false);
    RewrittenMeaning(p, slots, values);
    LibrarySame(bs, 0);
    LibrarySame(bs, base);
    FlatAgrees(bs);
    SlotsSame(code, p);
    forall k | 0 <= k < |p|
      ensures SameButTargets(p[k], q[k])
    {
      SameSymmetric(code[k], p[k]);
      SameTransitive(p[k], code[k], q[k]);
    }
    var r := Rewritten(p, slots, values);
    forall s | HasSlot(p, s)
      ensures HasSlot(r, s) && HasSlot(q, s) && TargetOf(r, s) == TargetOf(q, s) && KindOf(r, s) == KindOf(q, s)
    {
      LibraryTwice(bs, base, s);
      FilingOfSlot(code, s);
      if s in slots {
        var j :| 0 <= j < |slots| && slots[j] == s;
        assert TargetOf(r, slots[j]) == values[j];
      }
    }
    EqualByTargets(p, r, q);
  }

  // Target s of a library moves with it.
  predicate Moves(bs: Bodies, base: nat, s: Slot)
    requires AllAssemble(bs)
  {
    HasSlot(Flat(bs), s) ==>
      && HasSlot(LibraryCode(bs, 0), s) && HasSlot(LibraryCode(bs, base), s)
      && TargetOf(LibraryCode(bs, base), s) == TargetOf(LibraryCode(bs, 0), s) + base
  }

  // A library is moved as a whole if and only if it stays where it is or all of its targets are
  // relative: an absolute target has become an address before the move, and neither it nor one written
  // as an address is in the jump table.
  lemma MovesExactly(bs: Bodies, base: nat)
    requires AllAssemble(bs) && base + Before(bs, |bs|) < 0x8000_0000
    ensures (forall s :: Moves(bs, base, s)) <==>
            base == 0 || forall s | HasSlot(Flat(bs), s) :: KindOf(Flat(bs), s) == Relative
  {
    hide AllAssemble, Flat, LibraryCode, Before, HasSlot, KindOf, TargetOf;
    forall s | HasSlot(Flat(bs), s)
      ensures Moves(bs, base, s) <==> base == 0 || KindOf(Flat(bs), s) == Relative
    {
      LibraryTwice(bs, base, s);
    }
  }

  // One element that consists of an absolute jump to instruction t.
  function JumpAlone(t: nat): Bodies
    requires t < 0x8000_0000
  {
    [[Line.Instruction(JUMP, [Index(t)])]]
  }

  lemma JumpAloneBody(t: nat)
    requires t < 0x8000_0000
    ensures Assembled(JumpAlone(t)[0]) == Ok([Jump(t, Absolute)])
  {
    hide Marks, AssembleAll;
    var lines, marks := JumpAlone(t)[0], Marks(JumpAlone(t)[0]);
    AllInstructions(lines);
    AssembleNothing(marks);
    AssembleSnoc([], lines[0], marks);
    assert [] + [lines[0]] == lines;
    var code: Code := [Jump(t, Absolute)];
    assert [] + code == code;
  }

  lemma JumpAloneCode(t: nat, base: nat)
    requires t < 0x8000_0000
    ensures AllAssemble(JumpAlone(t))
    ensures Flat(JumpAlone(t)) == [Jump(t, Absolute)] && FlatPlaced(JumpAlone(t), base) == [Jump(t, Absolute)]
  {
    hide Assembled, Flat, FlatPlaced, ByteAddress, RecordedSlots;
    var lines := JumpAlone(t)[0];
    var code: Code := [Jump(t, Absolute)];
    JumpAloneBody(t);
    NoneRelative(t);
    assert Filed(code) == code;
    assert [] + JumpAlone(t) == JumpAlone(t);
    FlatNothing(base);
    BeforeNothing([]);
    FlatSnoc([], lines, base);
    assert Resolve(code, Relative, base) == code;
    assert [] + code == code;
  }

  lemma NoneRelative(t: Int32)
    ensures RecordedSlots([Jump(t, Absolute)], false) == []
  {
    assert [Jump(t, Absolute)] == [] + [Jump(t, Absolute)];
    RecordedSnoc([], Jump(t, Absolute), false);
  }

  // A library of one function, `jump .0`: wherever it is copied to, it jumps to byte 0 of the image.
  lemma LibraryJumpMisses(base: nat)
    requires base < 0x1_0000
    ensures AllAssemble(JumpAlone(0)) && LibraryCode(JumpAlone(0), base) == [Jump(0, ToByte)]
    ensures base > 0 ==> !Moves(JumpAlone(0), base, Slot(0, false))
  {
    hide AllAssemble, Flat, FlatPlaced, Before, JumpAlone;
    JumpAloneCode(0, 0);
    JumpAloneCode(0, base);
    StartZero([Jump(0, Absolute)]);
    assert ResolveIn([Jump(0, Absolute)], [Jump(0, Absolute)], Absolute, 0) == [Jump(0, ToByte)];
  }

  lemma SlotsSame(code: Code, p: Code)
    requires |code| == |p| && forall k | 0 <= k < |code| :: SameButTargets(code[k], p[k])
    ensures forall s :: HasSlot(p, s) <==> HasSlot(code, s)
  {
    assert forall k | 0 <= k < |code| :: SameButTargets(code[k], p[k]) &&
                                        (code[k].Jump? <==> p[k].Jump?) && (code[k].Branch? <==> p[k].Branch?);
  }

  // ----- the linking step -----

  // A library file: its jump table, its address tables and its bytecode.
  datatype Library = Library(jumps: seq<nat>, blocks: seq<(Name, nat)>, functions: seq<(Name, nat)>, bytecode: seq<Byte>)

  // The library assembled from the elements bs: the jump table lists where relative targets are stored,
  // the bytecode lies at byte 0.
  ghost predicate Holds(lib: Library, bs: Bodies) {
    && AllAssemble(bs)
    && Locates(Flat(bs), RecordedSlots(Flat(bs), false), lib.jumps)
    && lib.bytecode == EncodeAll(LibraryCode(bs, 0))
  }

  // *(int*)(linked + position) += offset
  method AddToInt(linked: array<Byte>, position: nat, offset: nat)
    requires position + 4 <= linked.Length && ReadInt(linked[..], position) + offset < 0x8000_0000
    modifies linked
    ensures linked[..] == old(linked[..position]) + IntBytes(old(ReadInt(linked[..], position)) + offset)
                          + old(linked[position + 4..])
  {
    var b := IntBytes(ReadInt(linked[..], position) + offset);
    linked[position], linked[position + 1], linked[position + 2], linked[position + 3] := b[0], b[1], b[2], b[3];
  }

  lemma RaisedStep(p: Code, slots: seq<Slot>, values: seq<Int32>, n: nat)
    requires n < |slots| == |values| && forall s <- slots :: HasSlot(p, s)
    requires forall j, k | 0 <= j < k < |slots| :: slots[j] != slots[k]
    ensures var r := Rewritten(p, slots[..n], values[..n]); var at, b := Position(p, slots[n]), EncodeAll(r);
            && at + 4 <= |b| && ReadInt(b, at) == TargetOf(p, slots[n])
            && EncodeAll(Rewritten(p, slots[..n + 1], values[..n + 1])) ==
               b[..at] + IntBytes(values[n]) + b[at + 4..]
  {
    hide Encode, EncodeAll, Position, WithTarget, TargetOf, HasSlot, Rewritten;
    var r := Rewritten(p, slots[..n], values[..n]);
    RewritingKeeps(p, slots, values, n);
    RewrittenSnoc(p, slots, values, n);
    PatchedCode(r, slots[n], values[n]);
    ReadWritten(EncodeAll(r), Position(r, slots[n]), TargetOf(r, slots[n]));
  }

  // Adjust the jumps of a library in place for being copied to byte offset: the result is the
  // library moved there.
  method Relocate(linked: array<Byte>, lib: Library, offset: nat, ghost bs: Bodies)
    requires Holds(lib, bs) && linked[..] == lib.bytecode
    requires offset + Before(bs, |bs|) < 0x8000_0000
    modifies linked
    ensures linked[..] == EncodeAll(LibraryCode(bs, offset))
  {
    hide AllAssemble, Flat, LibraryCode, Before, RecordedSlots, Rewritten, EncodeAll, Position, TargetOf;
    ghost var p, slots := LibraryCode(bs, 0), RecordedSlots(Flat(bs), false);
    RaisedIsPlaced(bs, offset);
    LibrarySame(bs, 0);
    LocatesSame(Flat(bs), p, slots, lib.jumps);
    RecordedAreSlots(Flat(bs), false);
    ghost var values := Raised(p, slots, offset);
    RewrittenNone(p);
    assert slots[..0] == [] && values[..0] == [];
    for i := 0 to |lib.jumps|
      invariant linked[..] == EncodeAll(Rewritten(p, slots[..i], values[..i]))
    {
      RaisedStep(p, slots, values, i);
      AddToInt(linked, lib.jumps[i], offset);
    }
    assert slots[..|slots|] == slots && values[..|slots|] == values;
  }

  // Copy the library, relocated for byte `offset`, behind the bytes used so far.
  method LinkLibrary(image: array<Byte>, used: nat, offset: nat, lib: Library, ghost bs: Bodies)
    requires AllAssemble(bs) && Holds(lib, bs)
    requires used + |lib.bytecode| <= image.Length && offset + |lib.bytecode| < 0x1_0000
    modifies image
    ensures image[..used + |lib.bytecode|] == old(image[..used]) + EncodeAll(LibraryCode(bs, offset))
    ensures image[used + |lib.bytecode|..] == old(image[used + |lib.bytecode|..])
  {
    hide AllAssemble, Flat, LibraryCode, Before, RecordedSlots, EncodeAll;
    var linked := new Byte[|lib.bytecode|](i requires 0 <= i < |lib.bytecode| => lib.bytecode[i]);
    assert linked[..] == lib.bytecode;
    LibrarySame(bs, 0);
    LibrarySame(bs, offset);
    Relocate(linked, lib, offset, bs);
    for i := 0 to |lib.bytecode|
      invariant image[..used] == old(image[..used])
      invariant linked[..] == EncodeAll(LibraryCode(bs, offset))
      invariant image[used..used + i] == linked[..i]
      invariant image[used + |lib.bytecode|..] == old(image[used + |lib.bytecode|..])
    {
      image[used + i] := linked[i];
      assert image[used..used + i + 1] == image[used..used + i] + [linked[i]];
    }
    assert image[..used + |lib.bytecode|] == image[..used] + image[used..used + |lib.bytecode|];
    assert linked[..|lib.bytecode|] == linked[..];
  }
}
