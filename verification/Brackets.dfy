// Runs between a call and its `end`, and between an `enter` and its `leave`
// (src/cpu/instr/calls.cpp:164-233, src/cpu/instr/tcmechanism.cpp:70-149).
module Brackets {
  import opened Bytes
  import opened Opcodes
  import opened Instructions
  import opened Machine
  import opened Scan
  import opened Stacks
  import opened Effects

  // In the first n ticks the stacks never get lower than f frames and b blocks.
  predicate Within<D>(env: Env<D>, m: Machine<D>, n: nat, f: nat, b: nat) {
    forall k | 0 <= k <= n :: |Ticks(env, m, k).frames| >= f && |Ticks(env, m, k).blocks| >= b
  }

  // The f lowest frames and the b lowest blocks are the same.
  predicate SameBelow<D>(m: Machine<D>, r: Machine<D>, f: nat, b: nat) {
    && f <= |m.frames| && f <= |r.frames| && r.frames[..f] == m.frames[..f]
    && b <= |m.blocks| && b <= |r.blocks| && r.blocks[..b] == m.blocks[..b]
  }

  lemma DispatchBelow<D>(env: Env<D>, m: Machine<D>, f: nat, b: nat)
    requires m.Live() && f <= |m.frames| && b <= |m.blocks|
    requires f <= |Dispatch(env, m).frames| && b <= |Dispatch(env, m).blocks|
    ensures SameBelow(m, Dispatch(env, m), f, b)
  {
    hide Dispatch, Fetch;
    DispatchShape(env, m);
    var r := Dispatch(env, m);
    if Pushed(m, r) {
      assert r.frames[..f] == r.frames[..|m.frames|][..f];
    } else if Dropped(m, r) {
      assert r.frames[..f] == m.frames[..f];
    } else if Opened(m, r) {
      assert r.blocks[..b] == r.blocks[..|m.blocks|][..b];
    } else if Closed(m, r) {
      assert r.blocks[..b] == m.blocks[..b];
    }
  }

  lemma UnwoundBelow<D>(m: Machine<D>, r: Machine<D>, f: nat, b: nat)
    requires Unwound(m, r) && f <= |r.frames| && b <= |r.blocks|
    ensures f <= |m.frames| && b <= |m.blocks| && SameBelow(m, r, f, b)
  {
    hide TopAfter;
    if r.frames != m.frames || r.blocks != m.blocks {
      var k: nat :| k < |m.blocks| && UnwoundTo(m, r, k);
      assert r.frames[..f] == m.frames[..f] && r.blocks[..b] == m.blocks[..b];
    }
  }

  lemma TickBelow<D>(env: Env<D>, m: Machine<D>, f: nat, b: nat)
    requires Allocates(env) && Sound(m) && f <= |m.frames| && b <= |m.blocks|
    requires f <= |Tick(env, m).frames| && b <= |Tick(env, m).blocks|
    ensures SameBelow(m, Tick(env, m), f, b)
  {
    hide Dispatch, After, Unwound, Sound;
    if m.Live() {
      DispatchSound(env, m);
      var d := Dispatch(env, m);
      assert DistinctIds(d.frames) by {
        SoundIsDistinct(d);
      }
      AfterShape(env, d, m.ip);
      UnwoundBelow(d, After(env, d, m.ip), f, b);
      DispatchBelow(env, m, f, b);
    }
  }

  // What a run never pops it never changes.
  lemma {:induction false} RunBelow<D>(env: Env<D>, m: Machine<D>, n: nat, f: nat, b: nat)
    requires Allocates(env) && Sound(m) && Within(env, m, n, f, b)
    ensures SameBelow(m, Ticks(env, m, n), f, b)
  {
    hide Tick, Sound;
    assert |Ticks(env, m, 0).frames| >= f && |Ticks(env, m, 0).blocks| >= b;
    if n > 0 {
      RunBelow(env, m, n - 1, f, b);
      RunSound(env, m, n - 1);
      assert |Ticks(env, m, n).frames| >= f && |Ticks(env, m, n).blocks| >= b;
      TickBelow(env, Ticks(env, m, n - 1), f, b);
    }
  }

  // Nothing but the verdict is added to an instruction that threw nothing.
  lemma QuietAfter<D>(env: Env<D>, m: Machine<D>, previous: nat)
    requires m.Going()
    ensures After(env, m, previous) == m.(status := After(env, m, previous).status)
    ensures m.frames != [] && m.ip < env.text.End() && (m.ip != previous || MayStay(env.text, m.ip)) ==>
              After(env, m, previous) == m
  {
  }

  // ----- calls -----

  // The registers after `end`, when the call asked for the result in the given register: with 0 the
  // registers of the frame are destroyed and nothing else happens; otherwise what register 0 held is
  // taken before that and placed in the caller's registers behind it.
  predicate Returned<D(==)>(env: Env<D>, e: Machine<D>, r: Machine<D>, resolve: bool, result: Int32)
    requires |e.frames| > 1
  {
    if result == 0 then r.data == env.sem.drop(e.Top().id, e.data)
    else
      match env.sem.take(ViewOf(env, e), e.data)
      case Taken(d, o) =>
        var dropped := WithoutTop(env, e, d);
        env.sem.place(o, resolve, result, ViewOf(env, dropped), dropped.data) == Done(r.data)
      case _ => false
  }

  // The name and the result register that the instruction at m asks for: those `call` names, or those
  // that the operands of `fcall` and `msg` lead to.
  function Asked<D>(env: Env<D>, m: Machine<D>, i: Instr): Callee
    requires m.frames != []
  {
    if i.Text? && i.op == CALL then Calls(i.text, i.a.ref, i.a.index, None) else env.sem.callee(i, ViewOf(env, m), m.data)
  }

  lemma PushedByCall<D>(env: Env<D>, m: Machine<D>)
    requires m.Live() && Pushed(m, Dispatch(env, m))
    ensures Fetch(env.text, m.ip).Some?
    ensures var f := Fetch(env.text, m.ip).value; Dispatch(env, m) == Call(env, m, f.instr, f.after)
  {
    hide ViewOf, Fetch, Call, End, EnterBlock, Leave, NewFrame, ThrowObject, Pull, Ordinary, Try, Select, Register, JumpTo,
      BranchTo, OpcodeOf;
    if m.ip < env.text.End() && Fetch(env.text, m.ip).Some? {
      var f := Fetch(env.text, m.ip).value;
      EndShape(env, m);
      FrameShape(env, m, f.instr, f.after);
      QuietShapes(env, m, f.instr, f.after);
      MoreQuietShapes(env, m, f.after);
      BlockShapes(env, m, if f.instr.Named? then f.instr.name else [], f.after);
    }
  }

  // A call that pushes a frame has found a function, and pushes the frame for what it asks.
  lemma AskedPushed<D>(env: Env<D>, m: Machine<D>)
    requires m.Live() && Pushed(m, Dispatch(env, m))
    ensures Fetch(env.text, m.ip).Some?
    ensures var d, c := Dispatch(env, m), Asked(env, m, Fetch(env.text, m.ip).value.instr);
            && c.Calls? && c.name in env.functions && d.ip == env.functions[c.name]
            && d.Top().name == c.name && d.Top().resolve == c.resolve && d.Top().result == c.result
            && d.selected == (if c.closure.Some? then Captured(c.closure.value) else Local(d.Top().id))
  {
    hide Dispatch, Fetch, ViewOf, Enter;
    PushedByCall(env, m);
    var f := Fetch(env.text, m.ip).value;
    var c := Asked(env, m, f.instr);
    if c.Calls? {
      EnterEffectOf(env, m, f.after, c);
    }
  }

  lemma EndMeaning<D>(env: Env<D>, e: Machine<D>)
    requires e.Live() && |e.frames| > 1 && End(env, e).Going()
    ensures var r := End(env, e);
            && r.frames == e.frames[..|e.frames| - 1] && r.ip == e.Top().return_
            && r.selected == Local(r.Top().id) && r.blocks == e.blocks && r.caught == e.caught
            && Returned(env, e, r, e.Top().resolve, e.Top().result)
  {
    hide ViewOf;
  }

  lemma DispatchEnd<D>(env: Env<D>, e: Machine<D>)
    requires e.Live() && Dropped(e, Dispatch(env, e))
    ensures Dispatch(env, e) == End(env, e) && e.ip < env.text.End() && Fetch(env.text, e.ip).Some?
    ensures Fetch(env.text, e.ip).value.instr == Bare(END)
  {
    hide End, Fetch, Call, EnterBlock, Leave, NewFrame, ThrowObject, Pull, Ordinary, Try, Select, Register,
      JumpTo, BranchTo;
    assert Change(env, e, Dispatch(env, e)) by {
      hide Dispatch;
      DispatchShape(env, e);
    }
  }

  lemma EndMayStay(text: Text, at: nat)
    requires Fetch(text, at).Some? && Fetch(text, at).value.instr == Bare(END)
    ensures MayStay(text, at)
  {
  }

  // A matched call and `end`: the call goes to the function it asks for, and whatever runs between them
  // without dropping the frame of the call, the `end` goes on right after the call with the caller's
  // stack as it was and its local registers selected, drops exactly the frame the call pushed, and
  // gives the result to the register the call asked for.
  lemma CallReturns<D>(env: Env<D>, m: Machine<D>, n: nat)
    requires Allocates(env) && m.Live() && Sound(m) && Pushed(m, Dispatch(env, m))
    requires Within(env, Tick(env, m), n, |m.frames| + 1, 0)
    requires var e := Ticks(env, Tick(env, m), n);
             e.Live() && |e.frames| == |m.frames| + 1 && Dropped(e, Dispatch(env, e)) && Dispatch(env, e).Going()
    ensures var e := Ticks(env, Tick(env, m), n); var r := Dispatch(env, e);
            && Fetch(env.text, m.ip).Some? && r.ip == Fetch(env.text, m.ip).value.after
            && r.frames == m.frames && r.selected == Local(m.Top().id)
            && e.Top() == Dispatch(env, m).Top()
            && var c := Asked(env, m, Fetch(env.text, m.ip).value.instr);
               && c.Calls? && c.name in env.functions && Dispatch(env, m).ip == env.functions[c.name]
               && e.Top().name == c.name && Returned(env, e, r, c.resolve, c.result)
               && (r.ip < env.text.End() ==> Tick(env, e) == r)
  {
    hide Dispatch, End, Fetch, Sound, After, Returned, Asked;
    DispatchShape(env, m);
    AskedPushed(env, m);
    var d, c := Dispatch(env, m), Tick(env, m);
    TickSound(env, m);
    QuietAfter(env, d, m.ip);
    var e := Ticks(env, c, n);
    RunBelow(env, c, n, |m.frames| + 1, 0);
    assert e.frames == e.frames[..|m.frames| + 1] == c.frames;
    assert e.Top() == d.Top();
    DispatchEnd(env, e);
    EndMayStay(env.text, e.ip);
    EndMeaning(env, e);
    QuietAfter(env, Dispatch(env, e), e.ip);
    assert d.frames[..|m.frames|] == m.frames;
  }

  // ----- blocks -----

  lemma OpenedTick<D>(env: Env<D>, m: Machine<D>)
    requires m.Live() && Opened(m, Dispatch(env, m))
    ensures Fetch(env.text, m.ip).Some?
    ensures var c := Tick(env, m);
            && c.frames == m.frames && |c.blocks| == |m.blocks| + 1 && c.blocks[..|m.blocks|] == m.blocks
            && c.TopBlock().frame == m.Top().id && c.TopBlock().return_ == Fetch(env.text, m.ip).value.after
  {
    hide Dispatch, Fetch, After;
    DispatchShape(env, m);
    QuietAfter(env, Dispatch(env, m), m.ip);
  }

  // A matched `enter` and `leave`: whatever runs between them without dropping the frame or the
  // block, calls and caught objects included, the `leave` goes on right after the `enter` with
  // both stacks as they were.
  lemma LeaveRejoins<D>(env: Env<D>, m: Machine<D>, n: nat)
    requires Allocates(env) && m.Live() && Sound(m) && Opened(m, Dispatch(env, m))
    requires Within(env, Tick(env, m), n, |m.frames|, |m.blocks| + 1)
    requires var e := Ticks(env, Tick(env, m), n);
             && e.Live() && |e.frames| == |m.frames| && |e.blocks| == |m.blocks| + 1
             && Closed(e, Dispatch(env, e))
    ensures var e := Ticks(env, Tick(env, m), n); var r := Dispatch(env, e);
            && Fetch(env.text, m.ip).Some? && r.ip == Fetch(env.text, m.ip).value.after
            && r.frames == m.frames && r.blocks == m.blocks
  {
    hide Dispatch, Fetch, Sound, After, Tick;
    OpenedTick(env, m);
    TickSound(env, m);
    var c := Tick(env, m);
    var e := Ticks(env, c, n);
    RunBelow(env, c, n, |m.frames|, |m.blocks| + 1);
    assert e.frames == e.frames[..|m.frames|] == m.frames;
    assert e.blocks == e.blocks[..|m.blocks| + 1] == c.blocks;
    DispatchShape(env, e);
  }

  // n ticks after m entered a block, an object is thrown and caught by that block, as the type j of
  // those it can be caught by.
  predicate ThrownInside<D>(env: Env<D>, m: Machine<D>, n: nat, j: nat) {
    var e := Ticks(env, Tick(env, m), n);
    && Within(env, Tick(env, m), n, |m.frames|, |m.blocks| + 1)
    && e.Live()
    && var d := Dispatch(env, e);
       && d.status.Running? && d.thrown.Some? && ByType(d.blocks, d.thrown.value)
       && |d.frames| >= |m.frames| && |d.blocks| > |m.blocks| && d.ip < env.text.End()
       && Innermost(d.blocks, TypesOf(env, d.data, d.thrown.value.Type()), |m.blocks|, j)
  }

  // The machine after such a throw.
  function Thrown<D>(env: Env<D>, m: Machine<D>, n: nat): Machine<D> {
    Tick(env, Ticks(env, Tick(env, m), n))
  }

  // The frames that unwinding to the block entered by m leaves of d: those of m, but at least two if
  // d has several.
  function FramesLeft<D>(m: Machine<D>, d: Machine<D>): seq<Frame>
    requires |d.frames| >= |m.frames| > 0
  {
    if |m.frames| > 1 || |d.frames| == 1 then m.frames else d.frames[..2]
  }

  // An object thrown inside a block and caught by it: the machine goes on at the handler with the
  // blocks as they were when the block was entered, and with the frames as they were exactly when
  // there were several of them then or only one in the end.
  lemma ThrowStaysWithin<D>(env: Env<D>, m: Machine<D>, n: nat, j: nat)
    requires Allocates(env) && m.Live() && Sound(m) && Opened(m, Dispatch(env, m))
    requires ThrownInside(env, m, n, j)
    ensures var c, r := Tick(env, m), Thrown(env, m, n);
            var d := Dispatch(env, Ticks(env, c, n));
            var t := TypesOf(env, d.data, d.thrown.value.Type())[j];
            && r.Live() && r.frames == FramesLeft(m, d) && (r.frames == m.frames <==> |m.frames| > 1 || |d.frames| == 1)
            && r.blocks == c.blocks && r.caught == d.thrown
            && r.blocks != [] && t in r.TopBlock().catchers && r.ip == r.TopBlock().catchers[t]
  {
    hide Dispatch, Fetch, Sound, Tick, Settle, TypesOf, Innermost, Uncaught, ByType;
    OpenedTick(env, m);
    TickSound(env, m);
    var c := Tick(env, m);
    var e := Ticks(env, c, n);
    RunBelow(env, c, n, |m.frames|, |m.blocks| + 1);
    RunSound(env, c, n);
    DispatchSound(env, e);
    var d := Dispatch(env, e);
    DispatchBelow(env, e, |m.frames|, |m.blocks| + 1);
    CaughtAt(env, d, c, |m.frames|, |m.blocks|, j);
    TickIsSettle(env, e);
  }

  lemma TickIsSettle<D>(env: Env<D>, e: Machine<D>)
    requires e.Live() && Dispatch(env, e).status.Running? && Dispatch(env, e).thrown.Some?
    requires Dispatch(env, e).frames != [] && Dispatch(env, e).ip < env.text.End()
    ensures Tick(env, e) == Settle(env, Dispatch(env, e))
  {
    hide Dispatch, Settle;
  }

  lemma CaughtAt<D>(env: Env<D>, d: Machine<D>, c: Machine<D>, f: nat, b: nat, j: nat)
    requires Sound(d) && d.status.Running? && d.thrown.Some? && ByType(d.blocks, d.thrown.value)
    requires 0 < f <= |d.frames| && b < |d.blocks| && |c.frames| == f && |c.blocks| == b + 1
    requires d.frames[..f] == c.frames && d.blocks[..b + 1] == c.blocks && c.TopBlock().frame == c.Top().id
    requires Innermost(d.blocks, TypesOf(env, d.data, d.thrown.value.Type()), b, j)
    ensures var r := Settle(env, d);
            && r.Live() && r.frames == FramesLeft(c, d) && (r.frames == c.frames <==> f > 1 || |d.frames| == 1)
            && r.blocks == c.blocks && r.caught == d.thrown
            && TypesOf(env, d.data, d.thrown.value.Type())[j] in c.TopBlock().catchers
            && r.ip == c.TopBlock().catchers[TypesOf(env, d.data, d.thrown.value.Type())[j]]
  {
    hide TypesOf, Settle, Rank;
    var types := TypesOf(env, d.data, d.thrown.value.Type());
    Unwinding(env, d);
    var r := Settle(env, d);
    assert types[j] in d.blocks[b].catchers;
    assert r.status.Running?;
    var k: nat, i: nat :| Innermost(d.blocks, types, k, i) && r.blocks == d.blocks[..k + 1]
                          && r.frames == d.frames[..TopAfter(d.frames, d.blocks[k].frame) + 1]
                          && r.ip == d.blocks[k].catchers[types[i]] && r.caught == d.thrown && r.thrown.None?;
    assert k == b && i == j by {
      OnePlace(d.blocks, types, k, i, b, j);
    }
    assert d.blocks[b] == c.blocks[b];
    assert d.frames[f - 1] == c.frames[f - 1];
    assert Rank(d.frames, d.blocks[b].frame) == f - 1;
  }

  // There is only one place where an object can be caught.
  lemma OnePlace(blocks: seq<Block>, types: seq<Name>, k: nat, j: nat, k': nat, j': nat)
    requires Innermost(blocks, types, k, j) && Innermost(blocks, types, k', j')
    ensures k == k' && j == j'
  {
  }

  // n ticks after m entered a block, an exception is thrown and caught by that block, as the detailed
  // type it names.
  predicate DetailedInside<D>(env: Env<D>, m: Machine<D>, n: nat) {
    var e := Ticks(env, Tick(env, m), n);
    && Within(env, Tick(env, m), n, |m.frames|, |m.blocks| + 1)
    && e.Live()
    && var d := Dispatch(env, e);
       && d.status.Running? && d.thrown.Some? && d.thrown.value.Type() == EXCEPTION
       && |d.frames| >= |m.frames| && |d.blocks| > |m.blocks| && d.ip < env.text.End()
       && TopmostFor(d.blocks, d.thrown.value.Detailed()) == Some(|m.blocks|)
  }

  // An exception thrown inside a block and caught by it as its detailed type: the machine goes on at the
  // handler, but in the frame of the throw and in the innermost block there.  The frames are those of
  // the `enter` exactly when no call is open at the throw, and the blocks exactly when no block is that
  // was entered since.
  lemma DetailedStaysWithin<D>(env: Env<D>, m: Machine<D>, n: nat)
    requires Allocates(env) && m.Live() && Sound(m) && Opened(m, Dispatch(env, m)) && DetailedInside(env, m, n)
    ensures var c, r := Tick(env, m), Thrown(env, m, n); var d := Dispatch(env, Ticks(env, c, n));
            && r.Live() && r.caught == d.thrown && r.frames == d.frames && r.blocks == d.blocks
            && c.blocks != [] && d.thrown.value.Detailed() in c.TopBlock().catchers
            && r.ip == c.TopBlock().catchers[d.thrown.value.Detailed()]
            && (r.frames == m.frames <==> |d.frames| == |m.frames|)
            && (r.blocks == c.blocks <==> |d.blocks| == |c.blocks|)
  {
    hide Dispatch, Fetch, Sound, Tick, Settle, TopmostFor;
    OpenedTick(env, m);
    TickSound(env, m);
    var c := Tick(env, m);
    var e := Ticks(env, c, n);
    RunBelow(env, c, n, |m.frames|, |m.blocks| + 1);
    RunSound(env, c, n);
    DispatchSound(env, e);
    var d := Dispatch(env, e);
    DispatchBelow(env, e, |m.frames|, |m.blocks| + 1);
    TickIsSettle(env, e);
    CaughtByDetail(env, d, |m.blocks|);
    assert d.frames[..|m.frames|] == m.frames && d.blocks[..|m.blocks| + 1] == c.blocks;
    assert d.blocks[|m.blocks|] == c.TopBlock();
    assert |d.frames| == |m.frames| ==> d.frames[..|m.frames|] == d.frames;
    assert |d.blocks| == |c.blocks| ==> d.blocks[..|c.blocks|] == d.blocks;
  }

  lemma CaughtByDetail<D>(env: Env<D>, d: Machine<D>, k: nat)
    requires d.frames != [] && d.status.Running? && d.thrown.Some? && d.thrown.value.Type() == EXCEPTION
    requires TopmostFor(d.blocks, d.thrown.value.Detailed()) == Some(k)
    ensures k < |d.blocks| && d.thrown.value.Detailed() in d.blocks[k].catchers
    ensures Settle(env, d) ==
            d.(ip := d.blocks[k].catchers[d.thrown.value.Detailed()], caught := d.thrown, thrown := None)
  {
  }

  // A `leave` of the block entered by m, n ticks after the `enter`.
  predicate LeftNormally<D>(env: Env<D>, m: Machine<D>, n: nat) {
    && Within(env, Tick(env, m), n, |m.frames|, |m.blocks| + 1)
    && Leaves(env, |m.frames|, |m.blocks|, Ticks(env, Tick(env, m), n))
  }

  // e executes a `leave` in the frame and of the block with the given indexes.
  predicate Leaves<D>(env: Env<D>, f: nat, b: nat, e: Machine<D>) {
    && e.Live() && |e.frames| == f && |e.blocks| == b + 1
    && Closed(e, Dispatch(env, e))
  }

  // An object is thrown `thrown` ticks after the `enter` and caught by the block, and the handler
  // leaves the block `handled` ticks later in the frame it started in.
  predicate LeftByHandler<D>(env: Env<D>, m: Machine<D>, thrown: nat, handled: nat, j: nat) {
    var r := Thrown(env, m, thrown);
    && ThrownInside(env, m, thrown, j)
    && Within(env, r, handled, |r.frames|, |m.blocks| + 1)
    && Leaves(env, |r.frames|, |m.blocks|, Ticks(env, r, handled))
  }

  // Two runs that enter a block at the same place with the same stacks, one leaving it normally
  // and one by the handler of an object thrown in it, end at the same address with the same blocks,
  // and with the same frames exactly when there were several at the `enter` or only one at the throw.
  lemma ThrowAndLeaveRejoin<D>(env: Env<D>, m: Machine<D>, n: nat, other: Machine<D>, thrown: nat, handled: nat, j: nat)
    requires Allocates(env) && m.Live() && other.Live() && Sound(m) && Sound(other)
    requires m.ip == other.ip && m.frames == other.frames && m.blocks == other.blocks
    requires Opened(m, Dispatch(env, m)) && Opened(other, Dispatch(env, other))
    requires LeftNormally(env, m, n) && LeftByHandler(env, other, thrown, handled, j)
    ensures var r := Dispatch(env, Ticks(env, Tick(env, m), n));
            var s := Dispatch(env, Ticks(env, Thrown(env, other, thrown), handled));
            var d := Dispatch(env, Ticks(env, Tick(env, other), thrown));
            && r.ip == s.ip && r.blocks == s.blocks && s.frames == FramesLeft(other, d)
            && (r.frames == s.frames <==> |m.frames| > 1 || |d.frames| == 1)
  {
    hide Dispatch, Fetch, Sound, Tick, TypesOf, Innermost, ByType;
    LeaveRejoins(env, m, n);
    OpenedTick(env, other);
    TickSound(env, other);
    ThrowStaysWithin(env, other, thrown, j);
    var c, r := Tick(env, other), Thrown(env, other, thrown);
    assert r == Ticks(env, c, thrown + 1);
    RunSound(env, c, thrown + 1);
    var e := Ticks(env, r, handled);
    RunBelow(env, r, handled, |r.frames|, |other.blocks| + 1);
    assert e.frames == e.frames[..|r.frames|] == r.frames;
    assert e.blocks == e.blocks[..|other.blocks| + 1] == c.blocks;
    DispatchShape(env, e);
  }
}
