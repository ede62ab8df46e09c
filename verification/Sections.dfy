// Elements (blocks, then functions) laid end to end.
module Sections {
  import opened Bytes
  import opened Instructions
  import opened Assembler
  import opened Jumps
  import opened Compiler

  type Bodies = seq<seq<Line>>

  predicate AllAssemble(bs: Bodies) {
    forall k | 0 <= k < |bs| :: Assembles(bs[k])
  }

  // The bytes the first k bodies need.
  function Before(bs: Bodies, k: nat): nat
    requires k <= |bs|
  {
    if k == 0 then 0 else Before(bs, k - 1) + BodyBytes(bs[k - 1])
  }

  // All instructions in order, with targets still indexes into the own element.
  function Flat(bs: Bodies): Code
    requires AllAssemble(bs)
  {
    if bs == [] then [] else Flat(bs[..|bs| - 1]) + CodeOf(bs[|bs| - 1])
  }

  // All instructions in order when the first element lies at byte base, every element resolved at
  // the byte where it lies.
  function FlatPlaced(bs: Bodies, base: nat): Code
    requires AllAssemble(bs)
  {
    if bs == [] then []
    else
      var n := |bs| - 1;
      FlatPlaced(bs[..n], base) + PlacedCode(bs[n], base + Before(bs, n))
  }

  lemma BeforeNothing(bs: Bodies)
    ensures Before(bs, 0) == 0
  {
  }

  lemma {:induction false} BeforePrefix(bs: Bodies, n: nat, k: nat)
    requires k <= n <= |bs|
    ensures Before(bs[..n], k) == Before(bs, k)
  {
    if k > 0 {
      BeforePrefix(bs, n, k - 1);
    }
  }

  lemma BeforeSnoc(a: Bodies, x: seq<Line>)
    ensures Before(a + [x], |a| + 1) == Before(a, |a|) + BodyBytes(x)
  {
    hide BodyBytes;
    assert (a + [x])[..|a|] == a && (a + [x])[|a|] == x;
    BeforePrefix(a + [x], |a|, |a|);
  }

  lemma {:induction false} BeforeMonotone(bs: Bodies, j: nat, k: nat)
    requires j <= k <= |bs|
    ensures Before(bs, j) <= Before(bs, k)
    decreases k
  {
    if j < k {
      BeforeMonotone(bs, j, k - 1);
    }
  }

  // ----- positions of targets in concatenated code -----

  function Moved(slots: seq<Slot>, delta: nat): seq<Slot> {
    seq(|slots|, j requires 0 <= j < |slots| => Slot(slots[j].at + delta, slots[j].second))
  }

  function Shifted(p: seq<nat>, delta: nat): seq<nat> {
    seq(|p|, j requires 0 <= j < |p| => p[j] + delta)
  }

  lemma SlotsMoved(i: Instr, at: nat, delta: nat, absolute: bool)
    ensures SlotsOf(i, at + delta, absolute) == Moved(SlotsOf(i, at, absolute), delta)
  {
  }

  lemma MovedConcat(x: seq<Slot>, y: seq<Slot>, delta: nat)
    ensures Moved(x + y, delta) == Moved(x, delta) + Moved(y, delta)
  {
  }

  lemma RecordedStep(a: Code, b: Code, i: Instr, absolute: bool)
    requires RecordedSlots(a + b, absolute) == RecordedSlots(a, absolute) + Moved(RecordedSlots(b, absolute), |a|)
    ensures RecordedSlots((a + b) + [i], absolute) ==
            RecordedSlots(a, absolute) + Moved(RecordedSlots(b + [i], absolute), |a|)
  {
    hide SlotsOf, Moved, RecordedSlots;
    RecordedSnoc(a + b, i, absolute);
    RecordedSnoc(b, i, absolute);
    SlotsMoved(i, |b|, |a|, absolute);
    MovedConcat(RecordedSlots(b, absolute), SlotsOf(i, |b|, absolute), |a|);
  }

  lemma {:induction false} RecordedConcat(a: Code, b: Code, absolute: bool)
    ensures RecordedSlots(a + b, absolute) == RecordedSlots(a, absolute) + Moved(RecordedSlots(b, absolute), |a|)
  {
    if b == [] {
      assert a + b == a;
    } else {
      var init, i := b[..|b| - 1], b[|b| - 1];
      RecordedConcat(a, init, absolute);
      RecordedStep(a, init, i, absolute);
      assert init + [i] == b && (a + init) + [i] == a + b;
    }
  }

  lemma PositionRight(a: Code, b: Code, s: Slot)
    requires HasSlot(b, s)
    ensures HasSlot(a + b, Slot(s.at + |a|, s.second))
    ensures Position(a + b, Slot(s.at + |a|, s.second)) == |EncodeAll(a)| + Position(b, s)
  {
    hide EncodeAll, Encode;
    assert (a + b)[..s.at + |a|] == a + b[..s.at];
    EncodeConcat(a, b[..s.at]);
  }

  lemma PositionLeft(a: Code, b: Code, s: Slot)
    requires HasSlot(a, s)
    ensures HasSlot(a + b, s) && Position(a + b, s) == Position(a, s)
  {
    hide EncodeAll, Encode;
    assert (a + b)[..s.at] == a[..s.at];
  }

  lemma LocatesConcat(a: Code, b: Code, absolute: bool, p: seq<nat>, q: seq<nat>)
    requires Locates(a, RecordedSlots(a, absolute), p) && Locates(b, RecordedSlots(b, absolute), q)
    ensures Locates(a + b, RecordedSlots(a + b, absolute), p + Shifted(q, |EncodeAll(a)|))
  {
    hide EncodeAll, Encode, RecordedSlots, Position, HasSlot;
    RecordedConcat(a, b, absolute);
    var left, right := RecordedSlots(a, absolute), RecordedSlots(b, absolute);
    var slots, all := left + Moved(right, |a|), p + Shifted(q, |EncodeAll(a)|);
    forall j | 0 <= j < |slots|
      ensures HasSlot(a + b, slots[j]) && all[j] == Position(a + b, slots[j])
    {
      if j < |left| {
        PositionLeft(a, b, left[j]);
      } else {
        PositionRight(a, b, right[j - |left|]);
      }
    }
  }

  // ----- absolute targets survive the placing of elements -----

  lemma {:induction false} AbsoluteSlotsKept(code: Code, all: Code, base: nat)
    requires AllKindsAgree(code)
    ensures var r := seq(|code|, k requires 0 <= k < |code| => ResolveInstr(all, code[k], Relative, base));
            RecordedSlots(r, true) == RecordedSlots(code, true)
  {
    hide ByteAddress;
    var r := seq(|code|, k requires 0 <= k < |code| => ResolveInstr(all, code[k], Relative, base));
    if code != [] {
      var n := |code| - 1;
      AbsoluteSlotsKept(code[..n], all, base);
      assert r[..n] == seq(n, k requires 0 <= k < n => ResolveInstr(all, code[..n][k], Relative, base));
      AbsoluteSlotsOf(code[n], n, all, base);
    }
  }

  lemma AbsoluteSlotsOf(i: Instr, at: nat, all: Code, base: nat)
    requires KindsAgree(i)
    ensures SlotsOf(ResolveInstr(all, i, Relative, base), at, true) == SlotsOf(i, at, true)
  {
    hide ByteAddress;
  }

  // Placing elements leaves absolute targets as they are, and no relative ones.
  lemma {:induction false} PlacedAbsolute(bs: Bodies, base: nat)
    requires AllAssemble(bs)
    ensures RecordedSlots(FlatPlaced(bs, base), true) == RecordedSlots(Flat(bs), true)
    ensures AllKindsAgree(FlatPlaced(bs, base)) && ValidCode(FlatPlaced(bs, base))
  {
    hide AllAssemble, Flat, FlatPlaced, RecordedSlots, AllKindsAgree, ValidCode;
    if bs == [] {
      FlatNothing(base);
      NothingAgrees();
    } else {
      var init, x := bs[..|bs| - 1], bs[|bs| - 1];
      assert init + [x] == bs;
      AssembleConcat(init, [x]);
      PlacedAbsolute(init, base);
      PlacedAbsoluteSnoc(init, x, base);
    }
  }

  lemma PlacedAbsoluteSnoc(init: Bodies, x: seq<Line>, base: nat)
    requires AllAssemble(init + [x]) && AllAssemble(init)
    requires RecordedSlots(FlatPlaced(init, base), true) == RecordedSlots(Flat(init), true)
    requires AllKindsAgree(FlatPlaced(init, base)) && ValidCode(FlatPlaced(init, base))
    ensures RecordedSlots(FlatPlaced(init + [x], base), true) == RecordedSlots(Flat(init + [x]), true)
    ensures AllKindsAgree(FlatPlaced(init + [x], base)) && ValidCode(FlatPlaced(init + [x], base))
  {
    hide AllAssemble, Flat, FlatPlaced, Before, RecordedSlots, PlacedCode, CodeOf, AllKindsAgree, ValidCode, Assembles;
    FlatSnoc(init, x, base);
    FlatLengths(init, base);
    BeforeSnoc(init, x);
    var at := base + Before(init, |init|);
    ElementAbsolute(x, at);
    ConcatAbsolute(Flat(init), FlatPlaced(init, base), CodeOf(x), PlacedCode(x, at));
  }

  lemma NothingAgrees()
    ensures AllKindsAgree([]) && ValidCode([])
  {
  }

  lemma ConcatAbsolute(a: Code, p: Code, b: Code, q: Code)
    requires |a| == |p| && RecordedSlots(p, true) == RecordedSlots(a, true) && AllKindsAgree(p) && ValidCode(p)
    requires RecordedSlots(q, true) == RecordedSlots(b, true) && AllKindsAgree(q) && ValidCode(q)
    ensures RecordedSlots(p + q, true) == RecordedSlots(a + b, true) && AllKindsAgree(p + q) && ValidCode(p + q)
  {
    hide RecordedSlots, KindsAgree;
    RecordedConcat(a, b, true);
    RecordedConcat(p, q, true);
  }

  lemma ElementAbsolute(lines: seq<Line>, base: nat)
    requires Assembles(lines)
    ensures RecordedSlots(PlacedCode(lines, base), true) == RecordedSlots(CodeOf(lines), true)
    ensures AllKindsAgree(PlacedCode(lines, base)) && ValidCode(PlacedCode(lines, base))
  {
    hide CodeOf, RecordedSlots, ByteAddress, EncodeAll;
    CodeMeaning(lines);
    AbsoluteSlotsKept(CodeOf(lines), CodeOf(lines), base);
    ResolvedSame(CodeOf(lines), Relative, base);
  }

  // ----- laying elements after elements -----

  lemma {:induction false} BeforeConcat(a: Bodies, b: Bodies, k: nat)
    requires k <= |b|
    ensures Before(a + b, |a| + k) == Before(a, |a|) + Before(b, k)
  {
    if k == 0 {
      BeforePrefix(a + b, |a|, |a|);
      assert (a + b)[..|a|] == a;
    } else {
      hide BodyBytes;
      BeforeConcat(a, b, k - 1);
      assert (a + b)[|a| + (k - 1)] == b[k - 1];
    }
  }

  lemma FlatSnoc(a: Bodies, x: seq<Line>, base: nat)
    requires AllAssemble(a + [x])
    ensures AllAssemble(a) && Assembles(x)
    ensures Flat(a + [x]) == Flat(a) + CodeOf(x)
    ensures FlatPlaced(a + [x], base) == FlatPlaced(a, base) + PlacedCode(x, base + Before(a, |a|))
  {
    hide Assembles, CodeOf, PlacedCode, Before;
    assert (a + [x])[..|a|] == a && (a + [x])[|a|] == x;
    assert AllAssemble(a) && Assembles(x) by {
      assert forall k | 0 <= k < |a| :: a[k] == (a + [x])[k];
    }
    BeforePrefix(a + [x], |a|, |a|);
  }

  lemma AssembleConcat(a: Bodies, b: Bodies)
    ensures AllAssemble(a + b) <==> AllAssemble(a) && AllAssemble(b)
  {
    hide Assembles;
    assert forall k | 0 <= k < |a| :: a[k] == (a + b)[k];
    assert forall k | 0 <= k < |b| :: b[k] == (a + b)[|a| + k];
  }

  lemma FlatConcatStep(a: Bodies, b: Bodies, x: seq<Line>, base: nat)
    requires AllAssemble(a) && AllAssemble(b) && AllAssemble(a + b)
    requires AllAssemble([x])
    requires Flat(a + b) == Flat(a) + Flat(b)
    requires FlatPlaced(a + b, base) == FlatPlaced(a, base) + FlatPlaced(b, base + Before(a, |a|))
    ensures AllAssemble(b + [x])
    ensures AllAssemble(a + b + [x])
    ensures Flat(a + b + [x]) == Flat(a) + Flat(b + [x])
    ensures FlatPlaced(a + b + [x], base) == FlatPlaced(a, base) + FlatPlaced(b + [x], base + Before(a, |a|))
  {
    hide AllAssemble, Flat, FlatPlaced, PlacedCode, CodeOf, Assembles, Before;
    AssembleConcat(b, [x]);
    AssembleConcat(a + b, [x]);
    FlatSnoc(a + b, x, base);
    FlatSnoc(b, x, base + Before(a, |a|));
    BeforeConcat(a, b, |b|);
  }

  // Laying b after a places it at the byte where a ends.
  lemma {:induction false} FlatConcat(a: Bodies, b: Bodies, base: nat)
    requires AllAssemble(a) && AllAssemble(b)
    ensures AllAssemble(a + b)
    ensures Flat(a + b) == Flat(a) + Flat(b)
    ensures FlatPlaced(a + b, base) == FlatPlaced(a, base) + FlatPlaced(b, base + Before(a, |a|))
  {
    hide AllAssemble, Flat, FlatPlaced, Before;
    AssembleConcat(a, b);
    if b == [] {
      FlatNothing(base + Before(a, |a|));
      assert a + b == a;
    } else {
      var init, x := b[..|b| - 1], b[|b| - 1];
      assert b == init + [x];
      AssembleConcat(init, [x]);
      FlatConcat(a, init, base);
      FlatConcatStep(a, init, x, base);
      assert a + init + [x] == a + b;
    }
  }

  lemma FlatNothing(base: nat)
    ensures AllAssemble([]) && Flat([]) == [] && FlatPlaced([], base) == []
  {
  }

  // Counting bytes and counting instructions agree, resolved or not.
  lemma {:induction false} FlatLengths(bs: Bodies, base: nat)
    requires AllAssemble(bs)
    ensures |FlatPlaced(bs, base)| == |Flat(bs)|
    ensures |EncodeAll(Flat(bs))| == |EncodeAll(FlatPlaced(bs, base))| == Before(bs, |bs|)
  {
    hide AllAssemble, Flat, FlatPlaced, Before, EncodeAll;
    if bs == [] {
      FlatNothing(base);
      EncodeNothing();
      BeforeNothing(bs);
    } else {
      var init, x := bs[..|bs| - 1], bs[|bs| - 1];
      assert init + [x] == bs;
      AssembleConcat(init, [x]);
      FlatLengths(init, base);
      FlatLengthsSnoc(init, x, base);
    }
  }

  lemma FlatLengthsSnoc(init: Bodies, x: seq<Line>, base: nat)
    requires AllAssemble(init + [x]) && AllAssemble(init)
    requires |FlatPlaced(init, base)| == |Flat(init)|
    requires |EncodeAll(Flat(init))| == |EncodeAll(FlatPlaced(init, base))| == Before(init, |init|)
    ensures |FlatPlaced(init + [x], base)| == |Flat(init + [x])|
    ensures |EncodeAll(Flat(init + [x]))| == |EncodeAll(FlatPlaced(init + [x], base))| == Before(init + [x], |init| + 1)
  {
    hide AllAssemble, Flat, FlatPlaced, Before, EncodeAll, PlacedCode, CodeOf, Assembles;
    FlatSnoc(init, x, base);
    BeforeSnoc(init, x);
    var at := base + Before(init, |init|);
    ElementLength(x, at);
    EncodeConcat(Flat(init), CodeOf(x));
    EncodeConcat(FlatPlaced(init, base), PlacedCode(x, at));
  }

  lemma ElementLength(lines: seq<Line>, base: nat)
    requires Assembles(lines)
    ensures |PlacedCode(lines, base)| == |CodeOf(lines)|
    ensures |EncodeAll(CodeOf(lines))| == |EncodeAll(PlacedCode(lines, base))| == BodyBytes(lines)
  {
    hide EncodeAll, CodeOf, Resolve;
    CodeMeaning(lines);
    ResolvedSame(CodeOf(lines), Relative, base);
  }
}
