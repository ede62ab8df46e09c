// From instruction indexes of a whole program to the addresses in its bytecode.
module Addresses {
  import opened Bytes
  import opened Opcodes
  import opened Instructions
  import opened Assembler
  import opened Jumps
  import opened Compiler
  import opened Sections
  import opened Linker
  import opened Generator

  // A target counted from the first instruction of the program instead of that of its element.
  function Raise(t: Int32, k: JumpKind, first: nat): Int32 {
    if k == Relative && t + first < 0x8000_0000 then t + first else t
  }

  function LiftInstr(i: Instr, first: nat): Instr {
    match i
    case Jump(t, k) => Jump(Raise(t, k, first), k)
    case Branch(c, t, tk, f, fk) => Branch(c, Raise(t, tk, first), tk, Raise(f, fk, first), fk)
    case _ => i
  }

  function Lift(code: Code, first: nat): (r: Code)
    ensures |r| == |code| && forall k | 0 <= k < |code| :: r[k] == LiftInstr(code[k], first)
  {
    seq(|code|, k requires 0 <= k < |code| => LiftInstr(code[k], first))
  }

  // The source program: all elements behind each other, every target an index into the whole.
  function Linked(bs: Bodies): Code
    requires AllAssemble(bs)
  {
    if bs == [] then []
    else
      var n := |bs| - 1;
      Linked(bs[..n]) + Lift(CodeOf(bs[n]), |Linked(bs[..n])|)
  }

  // The relative targets of i are indexes below n.
  predicate RelativeBelow(i: Instr, n: nat) {
    match i
    case Jump(t, k) => k == Relative ==> 0 <= t < n
    case Branch(_, t, tk, f, fk) => (tk == Relative ==> 0 <= t < n) && (fk == Relative ==> 0 <= f < n)
    case _ => true
  }

  predicate AllRelativeBelow(code: Code, n: nat) {
    forall k | 0 <= k < |code| :: RelativeBelow(code[k], n)
  }

  lemma BodyTargets(lines: seq<Line>)
    requires Assembles(lines)
    ensures AllRelativeBelow(CodeOf(lines), |CodeOf(lines)|)
  {
    hide CodeOf, Assembles, RecordedSlots;
    var code := CodeOf(lines);
    CodeMeaning(lines);
    forall k | 0 <= k < |code|
      ensures RelativeBelow(code[k], |code|)
    {
      TargetsOfInstr(code, k);
    }
  }

  lemma TargetsOfInstr(code: Code, k: nat)
    requires k < |code| && AllKindsAgree(code) && TargetsInside(code)
    requires forall s <- RecordedSlots(code, false) :: HasSlot(code, s) && TargetOf(code, s) >= 0
    ensures RelativeBelow(code[k], |code|)
  {
    hide RecordedSlots;
    if code[k].Jump? || code[k].Branch? {
      FilingOfSlot(code, Slot(k, false));
      if code[k].Branch? {
        FilingOfSlot(code, Slot(k, true));
      }
    }
  }

  lemma LiftSame(code: Code, first: nat)
    ensures forall k | 0 <= k < |code| :: SameButTargets(code[k], Lift(code, first)[k])
    ensures |EncodeAll(Lift(code, first))| == |EncodeAll(code)|
  {
    hide EncodeAll, Encode;
    ResolveLength(code, Lift(code, first));
  }

  lemma LiftStart(code: Code, first: nat, t: nat)
    requires t <= |code|
    ensures Start(Lift(code, first), t) == Start(code, t)
  {
    hide EncodeAll, Encode, SameButTargets;
    LiftSame(code, first);
    forall j | 0 <= j < |code|
      ensures |Encode(code[j])| == |Encode(Lift(code, first)[j])|
    {
      SameLength(code[j], Lift(code, first)[j]);
    }
    SameStarts(code, Lift(code, first), t);
  }

  lemma StartOfConcat(a: Code, b: Code, t: nat)
    requires t <= |a| + |b|
    ensures Start(a + b, t) == if t <= |a| then Start(a, t) else |EncodeAll(a)| + Start(b, t - |a|)
    ensures t >= |a| ==> Start(a + b, t) == |EncodeAll(a)| + Start(b, t - |a|)
  {
    hide EncodeAll;
    if t <= |a| {
      assert (a + b)[..t] == a[..t];
      if t == |a| {
        StartZero(b);
        StartOfEnd(a);
      }
    } else {
      assert (a + b)[..t] == a + b[..t - |a|];
      EncodeConcat(a, b[..t - |a|]);
    }
  }

  // Resolving behind more code changes nothing for targets that stay inside.
  lemma ResolvePrefix(a: Code, b: Code)
    requires AllRelativeBelow(a, |a|)
    ensures Resolve(a + b, Relative, 0)[..|a|] == Resolve(a, Relative, 0)
  {
    hide Start;
    forall t: Int32 | 0 <= t < |a|
      ensures ByteAddress(a + b, t, 0) == ByteAddress(a, t, 0)
    {
      StartOfConcat(a, b, t);
    }
  }

  lemma AddressInPlace(a: Code, l: Code, code: Code, t: Int32)
    requires 0 <= t < |code| == |l| && t + |a| < 0x8000_0000 && Start(l, t) == Start(code, t)
    requires |EncodeAll(a)| + Start(code, t) < 0x8000_0000
    ensures ByteAddress(a + l, t + |a|, 0) == ByteAddress(code, t, |EncodeAll(a)|)
  {
    hide Start, EncodeAll;
    StartOfConcat(a, l, t + |a|);
  }

  lemma AddressesInPlace(a: Code, code: Code)
    requires |a| + |code| < 0x8000_0000
    requires |EncodeAll(a)| + |EncodeAll(code)| < 0x8000_0000
    ensures forall t: Int32 | 0 <= t < |code| ::
              && t + |a| < 0x8000_0000
              && ByteAddress(a + Lift(code, |a|), t + |a|, 0) == ByteAddress(code, t, |EncodeAll(a)|)
  {
    hide Start, EncodeAll, ByteAddress, LiftInstr;
    var l := Lift(code, |a|);
    forall t: Int32 | 0 <= t < |code|
      ensures t + |a| < 0x8000_0000
      ensures ByteAddress(a + l, t + |a|, 0) == ByteAddress(code, t, |EncodeAll(a)|)
    {
      LiftStart(code, |a|, t);
      StartMonotone(code, t, |code|);
      AddressInPlace(a, l, code, t);
    }
  }

  lemma OneInPlace(a: Code, code: Code, k: nat)
    requires AllRelativeBelow(code, |code|) && |a| + |code| < 0x8000_0000 && k < |code|
    requires |EncodeAll(a)| + |EncodeAll(code)| < 0x8000_0000
    ensures ResolveInstr(a + Lift(code, |a|), LiftInstr(code[k], |a|), Relative, 0) ==
            ResolveInstr(code, code[k], Relative, |EncodeAll(a)|)
  {
    hide ByteAddress, EncodeAll, LiftInstr, ResolveInstr, RelativeBelow, Lift;
    AddressesInPlace(a, code);
    OneResolved(a + Lift(code, |a|), code, code[k], |a|, |EncodeAll(a)|);
  }

  lemma SuffixAt(a: Code, code: Code, k: nat)
    requires AllRelativeBelow(code, |code|) && |a| + |code| < 0x8000_0000 && k < |code|
    requires |EncodeAll(a)| + |EncodeAll(code)| < 0x8000_0000
    ensures SameFrom(Resolve(a + Lift(code, |a|), Relative, 0), |a|, Resolve(code, Relative, |EncodeAll(a)|), k)
  {
    hide EncodeAll, LiftInstr, ResolveInstr, AllRelativeBelow, ByteAddress;
    assert (a + Lift(code, |a|))[|a| + k] == LiftInstr(code[k], |a|);
    OneInPlace(a, code, k);
  }

  // Resolving an element in its place in the program, or on its own at that byte, is the same.
  lemma ResolveSuffix(a: Code, code: Code)
    requires AllRelativeBelow(code, |code|) && |a| + |code| < 0x8000_0000
    requires |EncodeAll(a)| + |EncodeAll(code)| < 0x8000_0000
    ensures Resolve(a + Lift(code, |a|), Relative, 0)[|a|..] == Resolve(code, Relative, |EncodeAll(a)|)
  {
    hide EncodeAll, LiftInstr, ResolveInstr, AllRelativeBelow, Lift, Resolve, ByteAddress, SameFrom;
    var r, p := Resolve(a + Lift(code, |a|), Relative, 0), Resolve(code, Relative, |EncodeAll(a)|);
    forall k: nat | k < |code|
      ensures SameFrom(r, |a|, p, k)
    {
      SuffixAt(a, code, k);
    }
    SameSuffix(r, |a|, p);
  }

  // The instruction n + k of r is the instruction k of p.
  predicate SameFrom(r: Code, n: nat, p: Code, k: nat) {
    n + k < |r| && k < |p| && r[n + k] == p[k]
  }

  lemma SameSuffix(r: Code, n: nat, p: Code)
    requires |r| == n + |p| && forall k: nat | k < |p| :: SameFrom(r, n, p, k)
    ensures r[n..] == p
  {
    forall k: nat | k < |p|
      ensures r[n..][k] == p[k]
    {
      assert SameFrom(r, n, p, k);
    }
  }

  lemma OneResolved(all: Code, code: Code, i: Instr, first: nat, base: nat)
    requires RelativeBelow(i, |code|)
    requires forall t: Int32 | 0 <= t < |code| ::
               t + first < 0x8000_0000 && ByteAddress(all, t + first, 0) == ByteAddress(code, t, base)
    ensures ResolveInstr(all, LiftInstr(i, first), Relative, 0) == ResolveInstr(code, i, Relative, base)
  {
    hide ByteAddress;
  }

  lemma LiftBelow(code: Code, first: nat)
    requires AllRelativeBelow(code, |code|) && first + |code| < 0x8000_0000
    ensures AllRelativeBelow(Lift(code, first), first + |code|)
  {
  }

  lemma BelowConcat(a: Code, b: Code, n: nat)
    requires AllRelativeBelow(a, |a|) && AllRelativeBelow(b, n) && |a| <= n
    ensures AllRelativeBelow(a + b, n)
  {
  }

  lemma {:induction false} CodeNotLonger(code: Code)
    ensures |code| <= |EncodeAll(code)|
  {
    hide Encode;
    if code != [] {
      CodeNotLonger(code[1..]);
    }
  }

  // What is known of the first bodies of a program.
  predicate LinkedWell(bs: Bodies)
    requires AllAssemble(bs)
  {
    && Resolve(Linked(bs), Relative, 0) == FlatPlaced(bs, 0)
    && AllRelativeBelow(Linked(bs), |Linked(bs)|)
    && |EncodeAll(Linked(bs))| == Before(bs, |bs|)
    && |Linked(bs)| == |Flat(bs)|
  }

  lemma LinkedSnoc(init: Bodies, x: seq<Line>)
    requires AllAssemble(init + [x]) && AllAssemble(init)
    requires Before(init + [x], |init| + 1) < 0x8000_0000 && LinkedWell(init)
    ensures LinkedWell(init + [x])
  {
    hide Assembles, BodyBytes, AllAssemble, Before, EncodeAll, Flat, FlatPlaced, CodeOf, AllRelativeBelow, Lift, Resolve;
    FlatSnoc(init, x, 0);
    BeforeSnoc(init, x);
    ElementLength(x, 0);
    var a, code := Linked(init), CodeOf(x);
    assert Linked(init + [x]) == a + Lift(code, |a|) by {
      assert (init + [x])[..|init|] == init;
    }
    BodyTargets(x);
    CodeNotLonger(a);
    CodeNotLonger(code);
    ResolvePrefix(a, Lift(code, |a|));
    ResolveSuffix(a, code);
    var all := a + Lift(code, |a|);
    assert PlacedCode(x, Before(init, |init|)) == Resolve(code, Relative, |EncodeAll(a)|);
    assert Resolve(all, Relative, 0) == Resolve(all, Relative, 0)[..|a|] + Resolve(all, Relative, 0)[|a|..];
    LiftBelow(code, |a|);
    BelowConcat(a, Lift(code, |a|), |a| + |code|);
    EncodeConcat(a, Lift(code, |a|));
    LiftSame(code, |a|);
  }

  // Laying out elements and resolving each in its place resolves the whole program.
  lemma {:induction false} LinkedPlaced(bs: Bodies)
    requires AllAssemble(bs) && Before(bs, |bs|) < 0x8000_0000
    ensures LinkedWell(bs)
  {
    hide AllAssemble, LinkedWell;
    if bs == [] {
      LinkedNothing();
    } else {
      var init, x := bs[..|bs| - 1], bs[|bs| - 1];
      assert init + [x] == bs;
      AssembleConcat(init, [x]);
      BeforePrefix(bs, |init|, |init|);
      BeforeMonotone(bs, |init|, |bs|);
      LinkedPlaced(init);
      LinkedSnoc(init, x);
    }
  }

  lemma LinkedNothing()
    ensures AllAssemble([]) && LinkedWell([])
  {
  }

  // ----- executable code -----

  // i with every target replaced by the address of that instruction of exec.
  function AtAddresses(exec: Code, i: Instr): Instr {
    match i
    case Jump(t, k) => if k == ToByte then i else Jump(ByteAddress(exec, t, 0), ToByte)
    case Branch(c, t, tk, f, fk) =>
      Branch(c, if tk == ToByte then t else ByteAddress(exec, t, 0), ToByte,
             if fk == ToByte then f else ByteAddress(exec, f, 0), ToByte)
    case _ => i
  }

  predicate Compiled(code: Code, exec: Code) {
    |exec| == |code| && forall k | 0 <= k < |code| :: exec[k] == AtAddresses(exec, code[k])
  }

  lemma TwiceResolved(l: Code)
    ensures Compiled(l, Resolve(Resolve(l, Relative, 0), Absolute, 0))
  {
    hide ByteAddress, SameButTargets, EncodeAll;
    var p := Resolve(l, Relative, 0);
    var e := Resolve(p, Absolute, 0);
    ResolvedSame(l, Relative, 0);
    ResolvedSame(p, Absolute, 0);
    forall k | 0 <= k < |l|
      ensures SameButTargets(l[k], e[k])
    {
      SameTransitive(l[k], p[k], e[k]);
    }
    forall t: Int32
      ensures ByteAddress(e, t, 0) == ByteAddress(l, t, 0) && ByteAddress(p, t, 0) == ByteAddress(l, t, 0)
    {
      ResolvedAddress(l, e, t);
      ResolvedAddress(l, p, t);
    }
    forall k | 0 <= k < |l|
      ensures e[k] == AtAddresses(e, l[k])
    {
      assert p[k] == ResolveInstr(l, l[k], Relative, 0);
      assert e[k] == ResolveInstr(p, p[k], Absolute, 0);
    }
  }

  // In the executable code of a program every target is the address of the instruction that the
  // source names by its index in the whole program.
  lemma ExecutableIsCompiled(bs: Bodies)
    requires AllAssemble(bs) && Before(bs, |bs|) < 0x8000_0000
    ensures Compiled(Linked(bs), Executable(bs))
  {
    hide AllAssemble, FlatPlaced, Compiled, Resolve, Before;
    LinkedPlaced(bs);
    TwiceResolved(Linked(bs));
  }
}
