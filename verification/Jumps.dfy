// Jump operands: where they are stored, which of them are recorded, and what rewriting them does
// (src/programinstructions.cpp:618-657, src/program.cpp:332-355).
module Jumps {
  import opened Bytes
  import opened Opcodes
  import opened Instructions

  // ----- operands that hold jump targets -----

  // The first or the second target of instruction `at`.
  datatype Slot = Slot(at: nat, second: bool)

  predicate HasSlot(code: Code, s: Slot) {
    && s.at < |code|
    && (code[s.at].Branch? || (code[s.at].Jump? && !s.second))
  }

  function TargetOf(code: Code, s: Slot): Int32
    requires HasSlot(code, s)
  {
    match code[s.at]
    case Jump(t, _) => t
    case Branch(_, t, _, f, _) => if s.second then f else t
  }

  function KindOf(code: Code, s: Slot): JumpKind
    requires HasSlot(code, s)
  {
    match code[s.at]
    case Jump(_, k) => k
    case Branch(_, _, tk, _, fk) => if s.second then fk else tk
  }

  // code with the target of s replaced by the byte address v.
  function WithTarget(code: Code, s: Slot, v: Int32): (r: Code)
    requires HasSlot(code, s)
    ensures |r| == |code|
  {
    var i := match code[s.at]
      case Jump(_, _) => Jump(v, ToByte)
      case Branch(c, t, tk, f, fk) =>
        if s.second then Branch(c, t, tk, v, ToByte) else Branch(c, v, ToByte, f, fk);
    code[s.at := i]
  }

  // How far into its instruction a target is stored.
  function TargetOffset(i: Instr, second: bool): nat {
    if i.Jump? then 1 else if second then 10 else 6
  }

  // The byte at which the target of s is stored.
  function Position(code: Code, s: Slot): nat
    requires HasSlot(code, s)
  {
    Start(code, s.at) + TargetOffset(code[s.at], s.second)
  }

  // ----- which positions the emitters record -----

  // The list a target of kind k goes to: branches_absolute, branches, or neither.
  predicate Recorded(k: JumpKind, listedAs: JumpKind, absolute: bool) {
    k != ToByte && (listedAs == Absolute) == absolute
  }

  // Slots of one instruction in the order their positions are recorded.  The second target of a
  // branch is filed by the kind of the first one (src/programinstructions.cpp:651-652).
  function SlotsOf(i: Instr, at: nat, absolute: bool): seq<Slot> {
    match i
    case Jump(_, k) => if Recorded(k, k, absolute) then [Slot(at, false)] else []
    case Branch(_, _, tk, _, fk) =>
      (if Recorded(tk, tk, absolute) then [Slot(at, false)] else []) +
      (if Recorded(fk, tk, absolute) then [Slot(at, true)] else [])
    case _ => []
  }

  function RecordedSlots(code: Code, absolute: bool): seq<Slot> {
    if code == [] then []
    else RecordedSlots(code[..|code| - 1], absolute) + SlotsOf(code[|code| - 1], |code| - 1, absolute)
  }

  lemma RecordedSnoc(code: Code, i: Instr, absolute: bool)
    ensures RecordedSlots(code + [i], absolute) == RecordedSlots(code, absolute) + SlotsOf(i, |code|, absolute)
  {
    assert (code + [i])[..|code|] == code;
  }

  lemma SlotsAreSlots(i: Instr, at: nat, absolute: bool)
    ensures forall s <- SlotsOf(i, at, absolute) :: s.at == at && (i.Branch? || (i.Jump? && !s.second))
    ensures forall j, k | 0 <= j < k < |SlotsOf(i, at, absolute)| ::
              SlotsOf(i, at, absolute)[j] != SlotsOf(i, at, absolute)[k]
  {
  }

  // Slots of the last instruction differ from those of the instructions before it.
  lemma RecordedApart(code: Code, a: seq<Slot>, b: seq<Slot>)
    requires code != [] && forall s <- a :: HasSlot(code[..|code| - 1], s)
    requires forall s <- b :: HasSlot(code, s) && s.at == |code| - 1
    requires forall j, k | 0 <= j < k < |a| :: a[j] != a[k]
    requires forall j, k | 0 <= j < k < |b| :: b[j] != b[k]
    ensures forall s <- a + b :: HasSlot(code, s)
    ensures forall j, k | 0 <= j < k < |a + b| :: (a + b)[j] != (a + b)[k]
  {
    forall j | 0 <= j < |a|
      ensures HasSlot(code, a[j]) && a[j].at < |code| - 1
    {
      assert a[j] in a;
    }
    forall j | 0 <= j < |b|
      ensures b[j].at == |code| - 1
    {
      assert b[j] in b;
    }
  }

  lemma {:induction false} RecordedAreSlots(code: Code, absolute: bool)
    ensures forall s <- RecordedSlots(code, absolute) :: HasSlot(code, s)
    ensures forall j, k | 0 <= j < k < |RecordedSlots(code, absolute)| ::
              RecordedSlots(code, absolute)[j] != RecordedSlots(code, absolute)[k]
  {
    if code != [] {
      var n := |code| - 1;
      RecordedAreSlots(code[..n], absolute);
      SlotsAreSlots(code[n], n, absolute);
      RecordedApart(code, RecordedSlots(code[..n], absolute), SlotsOf(code[n], n, absolute));
    }
  }

  lemma {:induction false} RecordedExactly(code: Code, absolute: bool, s: Slot)
    requires HasSlot(code, s)
    ensures s in RecordedSlots(code, absolute) <==> s in SlotsOf(code[s.at], s.at, absolute)
  {
    var n := |code| - 1;
    var init := code[..n];
    var last := SlotsOf(code[n], n, absolute);
    assert RecordedSlots(code, absolute) == RecordedSlots(init, absolute) + last;
    assert forall t <- last :: t.at == n;
    if s.at < n {
      RecordedExactly(init, absolute, s);
    } else {
      RecordedAreSlots(init, absolute);
    }
  }

  // A target is filed correctly: under its own kind, or nowhere when it already is a byte address.
  predicate FiledCorrectly(code: Code, s: Slot)
    requires HasSlot(code, s)
  {
    && (s in RecordedSlots(code, false) <==> KindOf(code, s) == Relative)
    && (s in RecordedSlots(code, true) <==> KindOf(code, s) == Absolute)
  }

  // A branch whose false target is absolute while its true target is not, or the other way round,
  // is filed wrongly; a false target that is a byte address never is.
  predicate KindsAgree(i: Instr) {
    i.Branch? ==> i.falseKind == ToByte || (i.falseKind == Absolute <==> i.trueKind == Absolute)
  }

  lemma FilingOfSlot(code: Code, s: Slot)
    requires HasSlot(code, s)
    ensures FiledCorrectly(code, s) <==> (s.second ==> KindsAgree(code[s.at]))
  {
    RecordedExactly(code, false, s);
    RecordedExactly(code, true, s);
    var i := code[s.at];
    if i.Branch? {
      FilingOfBranch(i, s.at, false);
      FilingOfBranch(i, s.at, true);
    }
  }

  lemma FilingOfBranch(i: Instr, at: nat, absolute: bool)
    requires i.Branch?
    ensures Slot(at, false) in SlotsOf(i, at, absolute) <==> Recorded(i.trueKind, i.trueKind, absolute)
    ensures Slot(at, true) in SlotsOf(i, at, absolute) <==> Recorded(i.falseKind, i.trueKind, absolute)
  {
    var first := if Recorded(i.trueKind, i.trueKind, absolute) then [Slot(at, false)] else [];
    var second := if Recorded(i.falseKind, i.trueKind, absolute) then [Slot(at, true)] else [];
    assert SlotsOf(i, at, absolute) == first + second;
  }

  // The instruction with the kind its second target is filed under.
  function FiledInstr(i: Instr): Instr {
    match i
    case Branch(c, t, tk, f, fk) =>
      Branch(c, t, tk, f, if fk == ToByte then ToByte else if tk == Absolute then Absolute else Relative)
    case _ => i
  }

  // The code as its targets are filed, which is how the patching understands it.
  function Filed(code: Code): (r: Code)
    ensures |r| == |code| && forall k | 0 <= k < |code| :: r[k] == FiledInstr(code[k])
  {
    seq(|code|, k requires 0 <= k < |code| => FiledInstr(code[k]))
  }

  // Filing is understanding: what is recorded of a code is what is recorded of its filed form, where
  // kinds always agree, and the two are the same exactly when kinds agree to begin with.
  lemma {:induction false} FiledMeaning(code: Code)
    ensures AllKindsAgree(Filed(code)) && (ValidCode(Filed(code)) <==> ValidCode(code))
    ensures forall absolute :: RecordedSlots(Filed(code), absolute) == RecordedSlots(code, absolute)
    ensures EncodeAll(Filed(code)) == EncodeAll(code)
    ensures Filed(code) == code <==> AllKindsAgree(code)
  {
    hide Encode;
    FiledAgrees(code);
    FiledBytes(code);
    forall absolute
      ensures RecordedSlots(Filed(code), absolute) == RecordedSlots(code, absolute)
    {
      FiledSlots(code, absolute);
    }
  }

  lemma FiledTargets(code: Code)
    ensures forall s :: HasSlot(Filed(code), s) <==> HasSlot(code, s)
    ensures forall s | HasSlot(code, s) ::
              TargetOf(Filed(code), s) == TargetOf(code, s) && Position(Filed(code), s) == Position(code, s)
  {
    hide Encode, EncodeAll;
    forall s | HasSlot(code, s)
      ensures Position(Filed(code), s) == Position(code, s)
    {
      assert Filed(code)[..s.at] == Filed(code[..s.at]);
      FiledBytes(code[..s.at]);
    }
  }

  lemma FiledAgrees(code: Code)
    ensures AllKindsAgree(Filed(code)) && (ValidCode(Filed(code)) <==> ValidCode(code))
    ensures Filed(code) == code <==> AllKindsAgree(code)
  {
    forall k | 0 <= k < |code|
      ensures KindsAgree(Filed(code)[k]) && (Filed(code)[k].Valid() <==> code[k].Valid())
      ensures Filed(code)[k] == code[k] <==> KindsAgree(code[k])
    {
      FiledOne(code[k]);
    }
  }

  lemma FiledOne(i: Instr)
    ensures KindsAgree(FiledInstr(i)) && (FiledInstr(i).Valid() <==> i.Valid())
    ensures FiledInstr(i) == i <==> KindsAgree(i)
    ensures Encode(FiledInstr(i)) == Encode(i)
    ensures forall at: nat, absolute :: SlotsOf(FiledInstr(i), at, absolute) == SlotsOf(i, at, absolute)
  {
  }

  lemma {:induction false} FiledBytes(code: Code)
    ensures EncodeAll(Filed(code)) == EncodeAll(code)
  {
    hide Encode, FiledInstr;
    if code != [] {
      FiledOne(code[0]);
      assert Filed(code)[1..] == Filed(code[1..]);
      FiledBytes(code[1..]);
    }
  }

  lemma {:induction false} FiledSlots(code: Code, absolute: bool)
    ensures RecordedSlots(Filed(code), absolute) == RecordedSlots(code, absolute)
  {
    hide SlotsOf, FiledInstr;
    if code != [] {
      var n := |code| - 1;
      FiledOne(code[n]);
      assert Filed(code)[..n] == Filed(code[..n]);
      FiledSlots(code[..n], absolute);
    }
  }

  // Every target of an instruction is filed under its own kind exactly when its kinds agree.
  lemma FilingIsExact(code: Code, at: nat)
    requires at < |code|
    ensures KindsAgree(code[at]) <==>
            forall second | HasSlot(code, Slot(at, second)) :: FiledCorrectly(code, Slot(at, second))
  {
    forall second | HasSlot(code, Slot(at, second))
      ensures FiledCorrectly(code, Slot(at, second)) <==> (second ==> KindsAgree(code[at]))
    {
      FilingOfSlot(code, Slot(at, second));
    }
    assert code[at].Branch? ==> HasSlot(code, Slot(at, true));
  }

  // ----- patching one target -----

  lemma PatchedInstr(i: Instr, j: Instr, second: bool, v: Int32)
    requires i.Branch? || (i.Jump? && !second)
    requires [j] == WithTarget([i], Slot(0, second), v)
    ensures var p := TargetOffset(i, second);
            && p + 4 <= |Encode(i)|
            && Encode(j) == Encode(i)[..p] + IntBytes(v) + Encode(i)[p + 4..]
            && Encode(i)[p..p + 4] == IntBytes(TargetOf([i], Slot(0, second)))
  {
    assert j == [j][0];
    if i.Jump? {
      assert Encode(i) == [JUMP] + IntBytes(i.target);
    } else {
      var head, t, f := [BRANCH] + OperandBytes(i.condition), IntBytes(i.ifTrue), IntBytes(i.ifFalse);
      assert Encode(i) == head + t + f && |head| == 6;
    }
  }

  // Overwriting one target changes four bytes and no instruction boundary.
  lemma PatchedCode(code: Code, s: Slot, v: Int32)
    requires HasSlot(code, s)
    ensures var p, b := Position(code, s), EncodeAll(code);
            && p + 4 <= |b|
            && EncodeAll(WithTarget(code, s, v)) == b[..p] + IntBytes(v) + b[p + 4..]
            && b[p..p + 4] == IntBytes(TargetOf(code, s))
  {
    assert s.at < |code|;
    hide Encode, EncodeAll, IntBytes, WithTarget, TargetOf, HasSlot;
    var patched, k := WithTarget(code, s, v), s.at;
    var before, after := EncodeAll(code[..k]), EncodeAll(code[k + 1..]);
    var p, w := TargetOffset(code[k], s.second), IntBytes(v);
    OneChanged(code, s, v);
    Around(code, k);
    Around(patched, k);
    Splice(before, Encode(code[k]), after, p, w);
  }

  lemma OneChanged(code: Code, s: Slot, v: Int32)
    requires HasSlot(code, s)
    ensures var r, k, p := WithTarget(code, s, v), s.at, TargetOffset(code[s.at], s.second);
            && r[..k] == code[..k] && r[k + 1..] == code[k + 1..]
            && p + 4 <= |Encode(code[k])|
            && Encode(r[k]) == Encode(code[k])[..p] + IntBytes(v) + Encode(code[k])[p + 4..]
            && Encode(code[k])[p..p + 4] == IntBytes(TargetOf(code, s))
  {
    hide Encode;
    PatchedInstr(code[s.at], WithTarget(code, s, v)[s.at], s.second, v);
  }

  // Overwriting bytes of the middle part of a sequence.
  lemma Splice(before: seq<Byte>, here: seq<Byte>, after: seq<Byte>, p: nat, w: seq<Byte>)
    requires p + |w| <= |here|
    ensures var whole := before + here + after; var q := |before| + p;
            && before + (here[..p] + w + here[p + |w|..]) + after == whole[..q] + w + whole[q + |w|..]
            && whole[q..q + |w|] == here[p..p + |w|]
  {
  }

  lemma Around(code: Code, k: nat)
    requires k < |code|
    ensures EncodeAll(code) == EncodeAll(code[..k]) + Encode(code[k]) + EncodeAll(code[k + 1..])
  {
    hide Encode, EncodeAll;
    assert code == code[..k] + code[k..];
    EncodeConcat(code[..k], code[k..]);
    EncodeFirst(code[k..]);
    assert code[k..][1..] == code[k + 1..];
  }

  lemma EncodeFirst(code: Code)
    requires code != []
    ensures EncodeAll(code) == Encode(code[0]) + EncodeAll(code[1..])
  {
    hide Encode;
  }

  lemma {:induction false} SameStarts(code: Code, other: Code, k: nat)
    requires k <= |code| == |other|
    requires forall j | 0 <= j < |code| :: |Encode(code[j])| == |Encode(other[j])|
    ensures Start(other, k) == Start(code, k)
  {
    hide Encode;
    if k > 0 {
      SameStarts(code, other, k - 1);
      Layout(code, k - 1);
      Layout(other, k - 1);
    }
  }

  // ----- patching all recorded targets -----

  // The byte address of instruction t of code placed at byte offset; a target that is not in the
  // code is left as it is.
  function ByteAddress(code: Code, t: Int32, offset: nat): Int32 {
    if 0 <= t < |code| && offset + Start(code, t) < 0x8000_0000 then offset + Start(code, t) else t
  }

  // The addresses the targets of the slots stand for when they are indexes into `whole`.
  function Addresses(whole: Code, code: Code, slots: seq<Slot>, offsets: seq<nat>): (v: seq<Int32>)
    requires |slots| == |offsets| && forall s <- slots :: HasSlot(code, s)
    ensures |v| == |slots|
    ensures forall j | 0 <= j < |v| :: v[j] == ByteAddress(whole, TargetOf(code, slots[j]), offsets[j])
  {
    seq(|slots|, j requires 0 <= j < |slots| => ByteAddress(whole, TargetOf(code, slots[j]), offsets[j]))
  }

  // The slots overwritten in order with the given values.
  function Rewritten(code: Code, slots: seq<Slot>, values: seq<Int32>): (r: Code)
    requires |slots| == |values| && forall s <- slots :: HasSlot(code, s)
    ensures |r| == |code| && forall s :: HasSlot(r, s) <==> HasSlot(code, s)
  {
    if slots == [] then code
    else
      var n := |slots| - 1;
      WithTarget(Rewritten(code, slots[..n], values[..n]), slots[n], values[n])
  }

  // Instructions before patching and after it: the same but for the kinds and values of targets.
  predicate SameButTargets(i: Instr, j: Instr) {
    && (i.Jump? <==> j.Jump?)
    && (i.Branch? <==> j.Branch?)
    && (i.Branch? ==> i.condition == j.condition)
    && (!i.Jump? && !i.Branch? ==> i == j)
  }

  lemma SameLength(i: Instr, j: Instr)
    requires SameButTargets(i, j)
    ensures |Encode(i)| == |Encode(j)| && (i.Valid() <==> j.Valid())
  {
  }

  // What rewriting does, slot by slot.
  lemma {:induction false} RewrittenMeaning(code: Code, slots: seq<Slot>, values: seq<Int32>)
    requires |slots| == |values| && forall s <- slots :: HasSlot(code, s)
    requires forall j, k | 0 <= j < k < |slots| :: slots[j] != slots[k]
    ensures var r := Rewritten(code, slots, values);
            && (forall k | 0 <= k < |code| :: SameButTargets(code[k], r[k]))
            && (forall j | 0 <= j < |slots| ::
                  TargetOf(r, slots[j]) == values[j] && KindOf(r, slots[j]) == ToByte)
            && (forall s | HasSlot(code, s) && s !in slots ::
                  TargetOf(r, s) == TargetOf(code, s) && KindOf(r, s) == KindOf(code, s))
  {
    hide WithTarget, TargetOf, KindOf, HasSlot, SameButTargets;
    if slots == [] {
      forall k | 0 <= k < |code|
        ensures SameButTargets(code[k], code[k])
      {
        Unchanged(code[k]);
      }
    } else {
      var n := |slots| - 1;
      RewrittenMeaning(code, slots[..n], values[..n]);
      assert slots == slots[..n] + [slots[n]];
      var p := Rewritten(code, slots[..n], values[..n]);
      WithTargetMeaning(p, slots[n], values[n]);
      forall k | 0 <= k < |code|
        ensures SameButTargets(code[k], WithTarget(p, slots[n], values[n])[k])
      {
        SameTransitive(code[k], p[k], WithTarget(p, slots[n], values[n])[k]);
      }
    }
  }

  lemma Unchanged(i: Instr)
    ensures SameButTargets(i, i)
  {
  }

  lemma SameTransitive(i: Instr, j: Instr, k: Instr)
    requires SameButTargets(i, j) && SameButTargets(j, k)
    ensures SameButTargets(i, k)
  {
  }

  lemma WithTargetMeaning(code: Code, s: Slot, v: Int32)
    requires HasSlot(code, s)
    ensures var r := WithTarget(code, s, v);
            && (forall t | HasSlot(code, t) ::
                  && HasSlot(r, t)
                  && TargetOf(r, t) == (if t == s then v else TargetOf(code, t))
                  && KindOf(r, t) == (if t == s then ToByte else KindOf(code, t)))
            && (forall k | 0 <= k < |code| :: SameButTargets(code[k], r[k]))
  {
  }

  // Part of the rewriting done: the next slot still holds its target, and nothing has moved.
  lemma RewritingKeeps(code: Code, slots: seq<Slot>, values: seq<Int32>, n: nat)
    requires n < |slots| == |values| && forall s <- slots :: HasSlot(code, s)
    requires forall j, k | 0 <= j < k < |slots| :: slots[j] != slots[k]
    ensures var r := Rewritten(code, slots[..n], values[..n]);
            && HasSlot(r, slots[n]) && TargetOf(r, slots[n]) == TargetOf(code, slots[n])
            && Position(r, slots[n]) == Position(code, slots[n])
            && forall k | 0 <= k <= |code| :: Start(r, k) == Start(code, k)
  {
    hide Encode, EncodeAll, Start, ByteAddress;
    RewrittenMeaning(code, slots[..n], values[..n]);
    var r := Rewritten(code, slots[..n], values[..n]);
    forall k | 0 <= k < |code|
      ensures |Encode(code[k])| == |Encode(r[k])|
    {
      SameLength(code[k], r[k]);
    }
    forall k | 0 <= k <= |code|
      ensures Start(r, k) == Start(code, k)
    {
      SameStarts(code, r, k);
    }
    assert slots[n] !in slots[..n];
  }

  lemma RewrittenNone(code: Code)
    ensures Rewritten(code, [], []) == code
  {
  }

  lemma RewrittenSnoc(code: Code, slots: seq<Slot>, values: seq<Int32>, n: nat)
    requires n < |slots| == |values| && forall s <- slots :: HasSlot(code, s)
    ensures Rewritten(code, slots[..n + 1], values[..n + 1]) ==
            WithTarget(Rewritten(code, slots[..n], values[..n]), slots[n], values[n])
  {
    hide WithTarget;
    assert slots[..n + 1][..n] == slots[..n] && values[..n + 1][..n] == values[..n];
  }

  lemma RewrittenValid(code: Code, s: Slot, v: Int32)
    requires ValidCode(code) && HasSlot(code, s)
    ensures ValidCode(WithTarget(code, s, v))
  {
  }

  // ----- resolving the targets of one kind -----

  // i of code with its targets of the given kind turned into addresses in code placed at offset.
  function ResolveInstr(code: Code, i: Instr, kind: JumpKind, offset: nat): Instr {
    match i
    case Jump(t, k) => if k == kind then Jump(ByteAddress(code, t, offset), ToByte) else i
    case Branch(c, t, tk, f, fk) =>
      Branch(c, if tk == kind then ByteAddress(code, t, offset) else t, if tk == kind then ToByte else tk,
             if fk == kind then ByteAddress(code, f, offset) else f, if fk == kind then ToByte else fk)
    case _ => i
  }

  // code, which is part of `whole`, with its targets of one kind turned into addresses in `whole`.
  function ResolveIn(whole: Code, code: Code, kind: JumpKind, offset: nat): (r: Code)
    ensures |r| == |code|
    ensures forall k | 0 <= k < |code| :: r[k] == ResolveInstr(whole, code[k], kind, offset)
  {
    seq(|code|, k requires 0 <= k < |code| => ResolveInstr(whole, code[k], kind, offset))
  }

  function Resolve(code: Code, kind: JumpKind, offset: nat): (r: Code)
    ensures |r| == |code|
    ensures forall k | 0 <= k < |code| :: r[k] == ResolveInstr(code, code[k], kind, offset)
  {
    ResolveIn(code, code, kind, offset)
  }

  // Every relative target of the code is the index of one of its instructions.
  predicate TargetsInside(code: Code) {
    forall s <- RecordedSlots(code, false) :: HasSlot(code, s) ==> TargetOf(code, s) < |code|
  }

  predicate AllKindsAgree(code: Code) {
    forall k | 0 <= k < |code| :: KindsAgree(code[k])
  }

  // Patching what was recorded resolves exactly the targets of that kind.
  lemma RewrittenIsResolved(whole: Code, code: Code, absolute: bool, offset: nat)
    requires AllKindsAgree(code)
    ensures forall s <- RecordedSlots(code, absolute) :: HasSlot(code, s)
    ensures var slots := RecordedSlots(code, absolute);
            Rewritten(code, slots, Addresses(whole, code, slots, seq(|slots|, _ => offset))) ==
            ResolveIn(whole, code, if absolute then Absolute else Relative, offset)
  {
    hide RecordedSlots, Rewritten, ByteAddress;
    RecordedAreSlots(code, absolute);
    var slots, kind := RecordedSlots(code, absolute), if absolute then Absolute else Relative;
    var values := Addresses(whole, code, slots, seq(|slots|, _ => offset));
    RewrittenMeaning(code, slots, values);
    var p, r := Rewritten(code, slots, values), ResolveIn(whole, code, kind, offset);
    forall s | HasSlot(code, s)
      ensures TargetOf(p, s) == TargetOf(r, s) && KindOf(p, s) == KindOf(r, s)
    {
      FilingOfSlot(code, s);
    }
    EqualByTargets(code, p, r);
  }

  // Two rewritings of the same code are equal when all their targets are.
  lemma EqualByTargets(code: Code, p: Code, r: Code)
    requires |p| == |r| == |code|
    requires forall k | 0 <= k < |code| :: SameButTargets(code[k], p[k]) && SameButTargets(code[k], r[k])
    requires forall s | HasSlot(code, s) ::
               && HasSlot(p, s) && HasSlot(r, s)
               && TargetOf(p, s) == TargetOf(r, s) && KindOf(p, s) == KindOf(r, s)
    ensures p == r
  {
    forall k | 0 <= k < |code|
      ensures p[k] == r[k]
    {
      assert SameButTargets(code[k], p[k]) && SameButTargets(code[k], r[k]);
      if code[k].Jump? || code[k].Branch? {
        assert HasSlot(code, Slot(k, false));
        if code[k].Branch? {
          assert HasSlot(code, Slot(k, true));
        }
      }
    }
  }

  // Two codes with the same instructions and kinds of targets, whatever the targets are.
  ghost predicate SameShape(p: Code, q: Code) {
    && |p| == |q| && (forall k | 0 <= k < |p| :: SameButTargets(p[k], q[k]))
    && forall s | HasSlot(p, s) :: HasSlot(q, s) && KindOf(p, s) == KindOf(q, s)
  }

  lemma ShapeConcat(a: Code, b: Code, c: Code, d: Code)
    requires SameShape(a, b) && SameShape(c, d)
    ensures SameShape(a + c, b + d)
  {
    hide SameButTargets;
    forall s | HasSlot(a + c, s)
      ensures HasSlot(b + d, s) && KindOf(a + c, s) == KindOf(b + d, s)
    {
      if s.at < |a| {
        assert HasSlot(a, s);
      } else {
        assert HasSlot(c, Slot(s.at - |a|, s.second));
      }
    }
  }

  lemma ResolvedKinds(code: Code, whole: Code, other: Code)
    ensures SameShape(ResolveIn(whole, code, Absolute, 0), ResolveIn(other, code, Absolute, 0))
  {
    hide ByteAddress;
  }

  // Of such codes the bytes tell the targets.
  lemma EncodedAlike(p: Code, q: Code)
    requires SameShape(p, q)
    ensures EncodeAll(p) == EncodeAll(q) <==> p == q
  {
    hide Encode, EncodeAll, SameButTargets, TargetOf, KindOf, WithTarget, Start;
    if EncodeAll(p) == EncodeAll(q) {
      forall k | 0 <= k < |p|
        ensures |Encode(p[k])| == |Encode(q[k])| && SameButTargets(p[k], p[k])
      {
        SameLength(p[k], q[k]);
        Unchanged(p[k]);
      }
      forall s | HasSlot(p, s)
        ensures TargetOf(p, s) == TargetOf(q, s)
      {
        TargetsTold(p, q, s);
      }
      EqualByTargets(p, p, q);
    }
  }

  lemma TargetsTold(p: Code, q: Code, s: Slot)
    requires HasSlot(p, s) && HasSlot(q, s) && |p| == |q| && EncodeAll(p) == EncodeAll(q)
    requires SameButTargets(p[s.at], q[s.at]) && forall k | 0 <= k < |p| :: |Encode(p[k])| == |Encode(q[k])|
    ensures TargetOf(p, s) == TargetOf(q, s)
  {
    hide Encode, EncodeAll, TargetOf, WithTarget, Start;
    PatchedCode(p, s, 0);
    PatchedCode(q, s, 0);
    SameStarts(p, q, s.at);
    ReadWritten(EncodeAll(p), Position(p, s), TargetOf(p, s));
    ReadWritten(EncodeAll(q), Position(q, s), TargetOf(q, s));
  }

  // p lists where the targets of the slots are stored.
  predicate Locates(code: Code, slots: seq<Slot>, p: seq<nat>) {
    && |p| == |slots|
    && forall j | 0 <= j < |p| :: HasSlot(code, slots[j]) && p[j] == Position(code, slots[j])
  }

  // The positions noted for an instruction emitted at byte start.
  function Noted(i: Instr, start: nat, absolute: bool): seq<nat> {
    match i
    case Jump(_, k) => if Recorded(k, k, absolute) then [start + 1] else []
    case Branch(_, _, tk, _, fk) =>
      (if Recorded(tk, tk, absolute) then [start + 6] else []) +
      (if Recorded(fk, tk, absolute) then [start + 10] else [])
    case _ => []
  }

  lemma NotedMeaning(i: Instr, at: nat, start: nat, absolute: bool)
    ensures |Noted(i, start, absolute)| == |SlotsOf(i, at, absolute)|
    ensures forall j | 0 <= j < |SlotsOf(i, at, absolute)| ::
              var s := SlotsOf(i, at, absolute)[j];
              && s.at == at && (i.Branch? || (i.Jump? && !s.second))
              && Noted(i, start, absolute)[j] == start + TargetOffset(i, s.second)
  {
  }

  lemma PositionKept(code: Code, i: Instr, s: Slot)
    requires HasSlot(code, s)
    ensures HasSlot(code + [i], s) && Position(code + [i], s) == Position(code, s)
  {
    hide Encode, EncodeAll;
    assert (code + [i])[..s.at] == code[..s.at];
  }

  lemma PositionAppended(code: Code, i: Instr, s: Slot)
    requires s.at == |code| && (i.Branch? || (i.Jump? && !s.second))
    ensures HasSlot(code + [i], s)
    ensures Position(code + [i], s) == |EncodeAll(code)| + TargetOffset(i, s.second)
  {
    hide Encode, EncodeAll;
    assert (code + [i])[..|code|] == code;
  }

  lemma LocatesSnoc(code: Code, i: Instr, absolute: bool, p: seq<nat>)
    requires Locates(code, RecordedSlots(code, absolute), p)
    ensures Locates(code + [i], RecordedSlots(code + [i], absolute), p + Noted(i, |EncodeAll(code)|, absolute))
  {
    hide Encode, EncodeAll, RecordedSlots, SlotsOf, Noted, Position, HasSlot;
    var old_, new_, noted := RecordedSlots(code, absolute), SlotsOf(i, |code|, absolute), Noted(i, |EncodeAll(code)|, absolute);
    RecordedSnoc(code, i, absolute);
    NotedMeaning(i, |code|, |EncodeAll(code)|, absolute);
    forall j | 0 <= j < |old_ + new_|
      ensures HasSlot(code + [i], (old_ + new_)[j]) && (p + noted)[j] == Position(code + [i], (old_ + new_)[j])
    {
      if j < |old_| {
        PositionKept(code, i, old_[j]);
      } else {
        PositionAppended(code, i, new_[j - |old_|]);
      }
    }
  }

  // A branch to instruction 0 of its own body and else to instruction 0 of the program, in a body
  // placed at byte 10: both targets are patched as if they were in the body.
  lemma MixedBranchMisses(c: Operand)
    ensures var code := [Branch(c, 0, Relative, 0, Absolute)];
            && Resolve(code, Relative, 10) == [Branch(c, 10, ToByte, 0, Absolute)]
            && Resolve(Filed(code), Relative, 10) == [Branch(c, 10, ToByte, 10, ToByte)]
  {
    var code := [Branch(c, 0, Relative, 0, Absolute)];
    StartZero(code);
    StartZero(Filed(code));
    assert Filed(code) == [Branch(c, 0, Relative, 0, Relative)];
    assert Resolve(Filed(code), Relative, 10)[0] == Branch(c, 10, ToByte, 10, ToByte);
    assert Resolve(code, Relative, 10)[0] == Branch(c, 10, ToByte, 0, Absolute);
  }
}
