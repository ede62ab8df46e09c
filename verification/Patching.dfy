// Turning stored instruction indexes into byte addresses, as a function of the byte array alone
// (src/program.cpp:58-90, 213-303, 332-355).
module Patching {
  import opened Bytes
  import opened Opcodes
  import opened Instructions
  import opened Jumps
  import opened Scan

  // ----- the scan -----

  // Where the scan stands after t instructions; an error at an opcode without a name and when an
  // instruction reaches the last byte.
  function ScanTo(b: seq<Byte>, t: nat): (r: Result<nat>)
    ensures r.Ok? ==> r.value <= |b| && (t > 0 ==> r.value < |b|)
  {
    if t == 0 then Ok(0)
    else
      match ScanTo(b, t - 1)
      case Err => Err
      case Ok(offset) =>
        if offset >= |b| then Err
        else
          match Stride(b, offset)
          case Err => Err
          case Ok(inc) => if offset + inc + 1 > |b| then Err else Ok(offset + inc)
  }

  // The instruction count a negative index is taken from.  Its table of sizes is an old one.
  function StaleSize(op: Byte): nat {
    if IADD <= op <= IDIV || ILT <= op <= IEQ || op == BRANCH then 12
    else if op == ISTORE then 8
    else if op == IINC || op == IDEC || op == PRINT || op == JUMP then 4
    else 0
  }

  function StaleCount(b: seq<Byte>, from: nat): nat
    decreases |b| - from
  {
    if from >= |b| then 0 else 1 + StaleCount(b, from + StaleSize(b[from]) + 1)
  }

  // How many instructions the scan passes for an index.
  function Steps(index: int, count: nat): nat {
    if index >= 0 then index else if count + index >= 0 then count + index else 0
  }

  // Instructions whose size the old table has right: those without operands, and jumps.
  predicate CountedRight(i: Instr) {
    i.Jump? || (i.Bare? && StaleSize(i.op) == 0)
  }

  // The opcodes the old table knows: of those it has the size without the flags of register operands, and
  // of all others none at all.
  predicate Listed(op: Byte) {
    op in {IADD, ISUB, IMUL, IDIV, ILT, ILTE, IGT, IGTE, IEQ, ISTORE, IINC, IDEC, PRINT, BRANCH, JUMP}
  }

  lemma StaleSizeRight(i: Instr)
    requires i.Valid()
    ensures CountedRight(i) <==> |Encode(i)| == StaleSize(i.Opcode()) + 1
    ensures Listed(i.Opcode()) ==> |Encode(i)| == StaleSize(i.Opcode()) + 1 + |RegisterOperands(i)|
    ensures !Listed(i.Opcode()) ==> StaleSize(i.Opcode()) == 0
    ensures Encode(i)[0] == i.Opcode()
  {
  }

  // In code of such instructions the count is right, so a negative index counts from the end.
  lemma {:induction false} CountOfRight(c: Code, before: seq<Byte>)
    requires ValidCode(c) && forall k | 0 <= k < |c| :: CountedRight(c[k])
    ensures StaleCount(before + EncodeAll(c), |before|) == |c|
  {
    hide Encode, StaleSize, CountedRight;
    var b := before + EncodeAll(c);
    if c == [] {
      EncodeNothing();
    } else {
      StaleSizeRight(c[0]);
      EncodeFirst(c);
      var e := Encode(c[0]);
      assert b[|before|] == e[0];
      assert b == (before + e) + EncodeAll(c[1..]);
      CountOfRight(c[1..], before + e);
    }
  }

  lemma NegativeIndex(c: Code, n: nat)
    requires ValidCode(c) && forall k | 0 <= k < |c| :: CountedRight(c[k])
    ensures Steps(-(n + 1), StaleCount(EncodeAll(c), 0)) == if n < |c| then |c| - 1 - n else 0
    ensures ScanTo(EncodeAll(c), Steps(-(n + 1), StaleCount(EncodeAll(c), 0))) == Ok(if n < |c| then Start(c, |c| - 1 - n) else 0)
  {
    hide EncodeAll, ScanTo, Start;
    CountOfRight(c, []);
    assert [] + EncodeAll(c) == EncodeAll(c) + [] == EncodeAll(c);
    if n < |c| {
      ScanInCode(c, [], |c| - 1 - n);
    } else {
      ScanZero(EncodeAll(c));
    }
  }

  lemma {:induction false} ScanStuck(b: seq<Byte>, s: nat, t: nat)
    requires s <= t && ScanTo(b, s).Err?
    ensures ScanTo(b, t).Err?
    decreases t
  {
    if s < t {
      ScanStuck(b, s, t - 1);
    }
  }

  lemma StridePositive(b: seq<Byte>, at: nat)
    requires at < |b| && Stride(b, at).Ok?
    ensures Stride(b, at).value > 0
  {
  }

  // Every step of the scan moves on.
  lemma {:induction false} ScanAdvances(b: seq<Byte>, s: nat, t: nat)
    requires s <= t && ScanTo(b, t).Ok?
    ensures ScanTo(b, s).Ok? && ScanTo(b, t).value >= ScanTo(b, s).value + (t - s)
    decreases t
  {
    hide Stride;
    if s < t {
      ScanAdvances(b, s, t - 1);
      StridePositive(b, ScanTo(b, t - 1).value);
    }
  }

  // One step over an instruction of code that lies at the head of the buffer.
  lemma StepInCode(c: Code, tail: seq<Byte>, k: nat)
    requires ValidCode(c) && k < |c| && ScanTo(EncodeAll(c) + tail, k) == Ok(Start(c, k))
    ensures ScanTo(EncodeAll(c) + tail, k + 1) ==
            if Start(c, k + 1) + 1 > |EncodeAll(c)| + |tail| then Err else Ok(Start(c, k + 1))
  {
    hide Encode, EncodeAll, Stride;
    var b, e := EncodeAll(c) + tail, Encode(c[k]);
    Layout(c, k);
    CodeAt(c, k);
    assert b[Start(c, k)..Start(c, k) + |e|] == EncodeAll(c)[Start(c, k)..Start(c, k) + |e|];
    StrideIsSize(b, Start(c, k), c[k]);
  }

  // An index the scan reaches without reading behind the code.
  predicate Reaches(c: Code, n: nat, t: int) {
    0 <= t < |c| || (t == |c| && n > 0)
  }

  lemma ScanZero(b: seq<Byte>)
    ensures ScanTo(b, 0) == Ok(0)
  {
  }

  // The scan finds every instruction of the code, and its end when there is something behind it.
  lemma {:induction false} ScanInCode(c: Code, tail: seq<Byte>, t: nat)
    requires ValidCode(c) && c != [] && Reaches(c, |tail|, t)
    ensures ScanTo(EncodeAll(c) + tail, t) == Ok(Start(c, t))
  {
    hide EncodeAll, Encode, ScanTo, Instructions.Start, Instr.Valid;
    if t == 0 {
      ScanZero(EncodeAll(c) + tail);
      StartZero(c);
    } else {
      ScanInCode(c, tail, t - 1);
      StepInCode(c, tail, t - 1);
      StartOfEnd(c);
      if t < |c| {
        StartMonotone(c, t, |c|);
      }
    }
  }

  // It fails at an index that could not be reached if all bytes behind the code were instructions.
  lemma ScanPast(c: Code, tail: seq<Byte>, t: nat)
    requires ValidCode(c) && c != [] && t >= |c| + |tail|
    ensures ScanTo(EncodeAll(c) + tail, t).Err?
  {
    hide EncodeAll;
    var b, n := EncodeAll(c) + tail, |c| - 1;
    ScanInCode(c, tail, n);
    StepInCode(c, tail, n);
    StartOfEnd(c);
    if ScanTo(b, |c|).Err? {
      ScanStuck(b, |c|, t);
    } else if ScanTo(b, t).Ok? {
      ScanAdvances(b, |c|, t);
    }
  }

  function Repeated(byte: Byte, n: nat): (b: seq<Byte>)
    ensures |b| == n && forall k | 0 <= k < n :: b[k] == byte
  {
    seq(n, _ => byte)
  }

  lemma StrideOfNop(b: seq<Byte>, at: nat)
    requires at < |b| && b[at] == NOP
    ensures Stride(b, at) == Ok(1)
  {
  }

  lemma StrideOfUnknown(b: seq<Byte>, at: nat)
    requires at < |b| && b[at] == 0xFF
    ensures Stride(b, at).Err?
  {
  }

  lemma {:induction false} ScanOverNops(c: Code, n: nat, t: nat)
    requires ValidCode(c) && c != [] && |c| <= t < |c| + n
    ensures ScanTo(EncodeAll(c) + Repeated(NOP, n), t) == Ok(|EncodeAll(c)| + (t - |c|))
    decreases t
  {
    hide EncodeAll, Stride;
    if t == |c| {
      ScanInCode(c, Repeated(NOP, n), t);
      StartOfEnd(c);
    } else {
      ScanOverNops(c, n, t - 1);
      var b, at := EncodeAll(c) + Repeated(NOP, n), |EncodeAll(c)| + (t - 1 - |c|);
      assert b[at] == NOP;
      StrideOfNop(b, at);
    }
  }

  lemma ScanIntoUnknown(c: Code, n: nat, t: nat)
    requires ValidCode(c) && c != [] && |c| < t < |c| + n
    ensures ScanTo(EncodeAll(c) + Repeated(0xFF, n), t).Err?
  {
    hide EncodeAll, Stride;
    var b := EncodeAll(c) + Repeated(0xFF, n);
    ScanInCode(c, Repeated(0xFF, n), |c|);
    StartOfEnd(c);
    assert b[|EncodeAll(c)|] == 0xFF;
    StrideOfUnknown(b, |EncodeAll(c)|);
    assert ScanTo(b, |c| + 1).Err?;
    ScanStuck(b, |c| + 1, t);
  }

  predicate SameScan(c: Code, x: seq<Byte>, y: seq<Byte>, t: nat) {
    ScanTo(EncodeAll(c) + x, t) == ScanTo(EncodeAll(c) + y, t)
  }

  // What the n bytes behind the code hold matters exactly for the indexes behind its end that could
  // still be reached.
  lemma ScanIsExact(c: Code, n: nat, t: nat)
    requires ValidCode(c) && c != []
    ensures (forall x: seq<Byte>, y: seq<Byte> | |x| == n && |y| == n :: SameScan(c, x, y, t)) <==>
            t <= |c| || t >= |c| + n
  {
    hide EncodeAll, ScanTo;
    if |c| < t < |c| + n {
      ScanOverNops(c, n, t);
      ScanIntoUnknown(c, n, t);
      assert !SameScan(c, Repeated(NOP, n), Repeated(0xFF, n), t);
    } else {
      forall x: seq<Byte>, y: seq<Byte> | |x| == n && |y| == n
        ensures SameScan(c, x, y, t)
      {
        if Reaches(c, n, t) {
          ScanInCode(c, x, t);
          ScanInCode(c, y, t);
        } else {
          ScanPast(c, x, t);
          ScanPast(c, y, t);
        }
      }
    }
  }

  // ----- patching -----

  predicate Patchable(b: seq<Byte>, jump: (nat, nat)) {
    jump.0 + 4 <= |b| && jump.1 + |b| < 0x8000_0000
  }

  // The index stored at jump.0 replaced by jump.1 plus the address the scan finds for it.
  function Patched(b: seq<Byte>, jump: (nat, nat), count: nat): (r: Result<seq<Byte>>)
    requires Patchable(b, jump)
    ensures r.Ok? ==> |r.value| == |b|
  {
    match ScanTo(b, Steps(ReadInt(b, jump.0), count))
    case Err => Err
    case Ok(adjustment) => Ok(b[..jump.0] + IntBytes(jump.1 + adjustment) + b[jump.0 + 4..])
  }

  // All listed jumps replaced, one after the other.
  function PatchedAll(b: seq<Byte>, jumps: seq<(nat, nat)>, count: nat): (r: Result<seq<Byte>>)
    requires forall j <- jumps :: Patchable(b, j)
    ensures r.Ok? ==> |r.value| == |b|
  {
    if jumps == [] then Ok(b)
    else
      var n := |jumps| - 1;
      match PatchedAll(b, jumps[..n], count)
      case Err => Err
      case Ok(p) =>
        assert Patchable(b, jumps[n]);
        Patched(p, jumps[n], count)
  }

  // The jumps list the slots of code, each to be counted from its own offset.
  predicate Lists(c: Code, n: nat, slots: seq<Slot>, offsets: seq<nat>, jumps: seq<(nat, nat)>) {
    && |jumps| == |slots| == |offsets|
    && (forall j | 0 <= j < |slots| ::
          && HasSlot(c, slots[j]) && 0 <= TargetOf(c, slots[j])
          && jumps[j] == (Position(c, slots[j]), offsets[j])
          && offsets[j] + |EncodeAll(c)| + n < 0x8000_0000)
    && forall j, k | 0 <= j < k < |slots| :: slots[j] != slots[k]
  }

  lemma ListedPatchable(c: Code, tail: seq<Byte>, slots: seq<Slot>, offsets: seq<nat>, jumps: seq<(nat, nat)>)
    requires Lists(c, |tail|, slots, offsets, jumps)
    ensures forall j <- jumps :: Patchable(EncodeAll(c) + tail, j)
  {
    hide EncodeAll, Position, WithTarget;
    forall j | 0 <= j < |jumps|
      ensures Patchable(EncodeAll(c) + tail, jumps[j])
    {
      PatchedCode(c, slots[j], 0);
    }
  }

  // One target of code at the head of the buffer.
  lemma PatchInCode(c: Code, tail: seq<Byte>, s: Slot, offset: nat, count: nat)
    requires ValidCode(c) && HasSlot(c, s) && 0 <= TargetOf(c, s)
    requires offset + |EncodeAll(c)| + |tail| < 0x8000_0000
    ensures var b, t, at := EncodeAll(c) + tail, TargetOf(c, s), Position(c, s);
            && at + 4 <= |b|
            && Patched(b, (at, offset), count) ==
               match ScanTo(b, t)
               case Err => Err
               case Ok(adjustment) => Ok(EncodeAll(WithTarget(c, s, offset + adjustment)) + tail)
  {
    hide EncodeAll, Position, WithTarget, ScanTo;
    var b, t, at := EncodeAll(c) + tail, TargetOf(c, s), Position(c, s);
    PatchedCode(c, s, 0);
    assert b[at..at + 4] == EncodeAll(c)[at..at + 4];
    ReadWritten(b, at, t);
    match ScanTo(b, t) {
      case Err =>
      case Ok(adjustment) =>
        PatchedCode(c, s, offset + adjustment);
        Head(EncodeAll(c), tail, at, IntBytes(offset + adjustment));
    }
  }

  lemma Head(e: seq<Byte>, tail: seq<Byte>, at: nat, w: seq<Byte>)
    requires at + |w| <= |e|
    ensures (e + tail)[..at] + w + (e + tail)[at + |w|..] == e[..at] + w + e[at + |w|..] + tail
  {
  }

  // Addresses the scan finds in the code are those in the whole of which the code is the head.
  predicate HeadOf(c: Code, whole: Code, slots: seq<Slot>)
    requires forall s <- slots :: HasSlot(c, s)
  {
    && |c| <= |whole|
    && forall s <- slots :: 0 <= TargetOf(c, s) < |whole| && TargetOf(c, s) <= |c| &&
                            Start(whole, TargetOf(c, s)) == Start(c, TargetOf(c, s))
  }

  lemma ReachedAddress(whole: Code, c: Code, r: Code, t: Int32, offset: nat, n: nat)
    requires 0 <= t < |whole| && t <= |c| == |r| && Start(whole, t) == Start(c, t)
    requires forall k | 0 <= k <= |c| :: Start(r, k) == Start(c, k)
    requires offset + |EncodeAll(c)| + n < 0x8000_0000
    ensures |EncodeAll(r)| == |EncodeAll(c)|
    ensures ByteAddress(whole, t, offset) == offset + Start(r, t)
  {
    hide EncodeAll, Start;
    StartOfEnd(c);
    StartOfEnd(r);
    if t < |c| {
      StartMonotone(c, t, |c|);
    }
  }

  // Patching code whose targets can all be reached rewrites exactly the listed targets, whatever
  // lies behind the code and whatever has been rewritten before.
  lemma {:induction false} PatchesCode(whole: Code, c: Code, tail: seq<Byte>, slots: seq<Slot>, offsets: seq<nat>,
                                       jumps: seq<(nat, nat)>, count: nat, n: nat)
    requires ValidCode(c) && Lists(c, |tail|, slots, offsets, jumps) && n <= |slots|
    requires (forall j <- jumps :: Patchable(EncodeAll(c) + tail, j)) && forall s <- slots :: HasSlot(c, s)
    requires HeadOf(c, whole, slots) && forall s <- slots :: Reaches(c, |tail|, TargetOf(c, s))
    ensures var values := Addresses(whole, c, slots, offsets);
            && PatchedAll(EncodeAll(c) + tail, jumps[..n], count) ==
               Ok(EncodeAll(Rewritten(c, slots[..n], values[..n])) + tail)
            && ValidCode(Rewritten(c, slots[..n], values[..n]))
  {
    hide EncodeAll, Start, Position, WithTarget, TargetOf, HasSlot, Rewritten, ByteAddress, ScanTo, Patched;
    var values := Addresses(whole, c, slots, offsets);
    if n == 0 {
      RewrittenNone(c);
      assert slots[..0] == [] && values[..0] == [] && jumps[..0] == [];
    } else {
      var k := n - 1;
      PatchesCode(whole, c, tail, slots, offsets, jumps, count, k);
      RewritingKeeps(c, slots, values, k);
      RewrittenSnoc(c, slots, values, k);
      var r, t := Rewritten(c, slots[..k], values[..k]), TargetOf(c, slots[k]);
      assert slots[k] in slots;
      ReachedAddress(whole, c, r, t, offsets[k], |tail|);
      PatchInCode(r, tail, slots[k], offsets[k], count);
      assert c != [] by {
        SlotInside(c, slots[k]);
      }
      ScanInCode(r, tail, t);
      RewrittenValid(r, slots[k], values[k]);
      assert jumps[..n][..k] == jumps[..k];
    }
  }

  lemma SlotInside(c: Code, s: Slot)
    requires HasSlot(c, s)
    ensures c != []
  {
  }

  // Whatever patching has found so far, the buffer still holds the code with other targets.
  lemma {:induction false} PatchingKeepsCode(c: Code, tail: seq<Byte>, slots: seq<Slot>, offsets: seq<nat>,
                                             jumps: seq<(nat, nat)>, count: nat, n: nat)
    returns (values: seq<Int32>)
    requires ValidCode(c) && Lists(c, |tail|, slots, offsets, jumps) && n <= |slots|
    requires (forall j <- jumps :: Patchable(EncodeAll(c) + tail, j)) && forall s <- slots :: HasSlot(c, s)
    ensures |values| == n
    ensures PatchedAll(EncodeAll(c) + tail, jumps[..n], count).Ok? ==>
              && ValidCode(Rewritten(c, slots[..n], values))
              && PatchedAll(EncodeAll(c) + tail, jumps[..n], count) == Ok(EncodeAll(Rewritten(c, slots[..n], values)) + tail)
  {
    hide EncodeAll, Start, Position, WithTarget, TargetOf, HasSlot, Rewritten, ByteAddress, ScanTo, Patched;
    if n == 0 {
      values := [];
      RewrittenNone(c);
      assert slots[..0] == [] && jumps[..0] == [];
    } else {
      var k := n - 1;
      values := PatchingKeepsCode(c, tail, slots, offsets, jumps, count, k);
      assert jumps[..n][..k] == jumps[..k];
      if PatchedAll(EncodeAll(c) + tail, jumps[..k], count).Ok? {
        var r := Rewritten(c, slots[..k], values);
        PrefixKeeps(c, slots, values, k);
        PatchInCode(r, tail, slots[k], offsets[k], count);
        match ScanTo(EncodeAll(r) + tail, TargetOf(c, slots[k])) {
          case Err => values := values + [0];
          case Ok(adjustment) =>
            RewrittenValid(r, slots[k], offsets[k] + adjustment);
            RewrittenNext(c, slots, values, k, offsets[k] + adjustment);
            values := values + [offsets[k] + adjustment];
        }
      } else {
        values := values + [0];
      }
    }
  }

  // RewritingKeeps for a list of values that is no longer than the slots rewritten.
  lemma PrefixKeeps(c: Code, slots: seq<Slot>, values: seq<Int32>, k: nat)
    requires k < |slots| && |values| == k && forall s <- slots :: HasSlot(c, s)
    requires forall i, j | 0 <= i < j < |slots| :: slots[i] != slots[j]
    ensures var r := Rewritten(c, slots[..k], values);
            && HasSlot(r, slots[k]) && TargetOf(r, slots[k]) == TargetOf(c, slots[k])
            && Position(r, slots[k]) == Position(c, slots[k]) && |EncodeAll(r)| == |EncodeAll(c)|
  {
    hide EncodeAll, Start, Position, WithTarget, TargetOf, HasSlot, Rewritten;
    var all := values + seq(|slots| - k, _ => 0);
    assert all[..k] == values;
    RewritingKeeps(c, slots, all, k);
    StartOfEnd(c);
    StartOfEnd(Rewritten(c, slots[..k], values));
  }

  lemma RewrittenNext(c: Code, slots: seq<Slot>, values: seq<Int32>, k: nat, v: Int32)
    requires k < |slots| && |values| == k && forall s <- slots :: HasSlot(c, s)
    ensures Rewritten(c, slots[..k + 1], values + [v]) == WithTarget(Rewritten(c, slots[..k], values), slots[k], v)
  {
    hide WithTarget;
    assert slots[..k + 1][..k] == slots[..k] && (values + [v])[..k] == values;
  }

  lemma {:induction false} PatchingStuck(b: seq<Byte>, jumps: seq<(nat, nat)>, count: nat, n: nat)
    requires n <= |jumps| && forall j <- jumps :: Patchable(b, j)
    requires PatchedAll(b, jumps[..n], count).Err?
    ensures PatchedAll(b, jumps, count).Err?
    decreases |jumps|
  {
    hide Patched;
    if n == |jumps| {
      assert jumps[..n] == jumps;
    } else {
      var m := |jumps| - 1;
      assert jumps[..m][..n] == jumps[..n];
      PatchingStuck(b, jumps[..m], count, n);
    }
  }

  // Patching fails for certain when an index could not be reached even if all bytes behind the code
  // were instructions.
  lemma PatchingFails(c: Code, tail: seq<Byte>, slots: seq<Slot>, offsets: seq<nat>, jumps: seq<(nat, nat)>,
                      count: nat, k: nat)
    requires ValidCode(c) && Lists(c, |tail|, slots, offsets, jumps) && k < |slots|
    requires (forall j <- jumps :: Patchable(EncodeAll(c) + tail, j)) && forall s <- slots :: HasSlot(c, s)
    requires TargetOf(c, slots[k]) >= |c| + |tail|
    ensures PatchedAll(EncodeAll(c) + tail, jumps, count).Err?
  {
    hide EncodeAll, Start, Position, WithTarget, TargetOf, HasSlot, Rewritten, ScanTo, Patched;
    var b := EncodeAll(c) + tail;
    var values := PatchingKeepsCode(c, tail, slots, offsets, jumps, count, k);
    assert jumps[..k + 1][..k] == jumps[..k];
    if PatchedAll(b, jumps[..k], count).Ok? {
      var r := Rewritten(c, slots[..k], values);
      PrefixKeeps(c, slots, values, k);
      PatchInCode(r, tail, slots[k], offsets[k], count);
      SlotInside(r, slots[k]);
      ScanPast(r, tail, TargetOf(c, slots[k]));
    }
    PatchingStuck(b, jumps, count, k + 1);
  }
}
