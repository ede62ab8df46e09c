// What holds of the call stack and the block stack in every run.
module Stacks {
  import opened Bytes
  import opened Instructions
  import opened Opcodes
  import opened Machine

  // ----- one instruction -----

  function PendingId<D>(m: Machine<D>): Option<nat> {
    if m.pending.Some? then Some(m.pending.value.id) else None
  }

  predicate Same<D>(m: Machine<D>, r: Machine<D>) {
    r.frames == m.frames && r.blocks == m.blocks && PendingId(r) == PendingId(m)
  }

  predicate Requested<D>(env: Env<D>, m: Machine<D>, r: Machine<D>) {
    && r.frames == m.frames && r.blocks == m.blocks && m.pending.None?
    && PendingId(r) == Some(env.sem.allocate(m.LiveIds(), m.requests))
  }

  predicate Pushed<D>(m: Machine<D>, r: Machine<D>) {
    && |r.frames| == |m.frames| + 1 <= MAX_STACK_SIZE + 1 && r.frames[..|m.frames|] == m.frames
    && r.blocks == m.blocks && r.pending.None? && PendingId(m) == Some(r.Top().id)
    && forall k | 0 <= k < |m.frames| :: m.frames[k].id != r.Top().id
  }

  predicate Dropped<D>(m: Machine<D>, r: Machine<D>) {
    && m.frames != [] && r.frames == m.frames[..|m.frames| - 1]
    && r.blocks == m.blocks && PendingId(r) == PendingId(m)
  }

  predicate Opened<D>(m: Machine<D>, r: Machine<D>) {
    && m.frames != [] && r.frames == m.frames && PendingId(r) == PendingId(m)
    && |r.blocks| == |m.blocks| + 1 && r.blocks[..|m.blocks|] == m.blocks && r.TopBlock().frame == m.Top().id
  }

  predicate Closed<D>(m: Machine<D>, r: Machine<D>) {
    && r.frames == m.frames && PendingId(r) == PendingId(m)
    && m.blocks != [] && r.blocks == m.blocks[..|m.blocks| - 1]
  }

  lemma EnterShape<D>(env: Env<D>, m: Machine<D>, next: nat, c: Callee)
    requires c.Calls? && m.Live()
    ensures Same(m, Enter(env, m, next, c)) || Pushed(m, Enter(env, m, next, c))
    ensures Pushed(m, Enter(env, m, next, c)) ==>
              Enter(env, m, next, c).Top().return_ == next && Enter(env, m, next, c).Going()
  {
  }

  lemma CallShape<D>(env: Env<D>, m: Machine<D>, i: Instr, next: nat)
    requires m.Live()
    ensures Same(m, Call(env, m, i, next)) || Pushed(m, Call(env, m, i, next))
    ensures Pushed(m, Call(env, m, i, next)) ==>
              Call(env, m, i, next).Top().return_ == next && Call(env, m, i, next).Going()
  {
    hide Enter, ViewOf;
    var c := if i.Text? && i.op == CALL then Calls(i.text, i.a.ref, i.a.index, None)
             else env.sem.callee(i, ViewOf(env, m), m.data);
    if c.Calls? {
      EnterShape(env, m, next, c);
    }
  }

  lemma EndShape<D>(env: Env<D>, m: Machine<D>)
    requires m.Live()
    ensures Same(m, End(env, m)) || Dropped(m, End(env, m))
    ensures Same(m, End(env, m)) ==> !End(env, m).Going()
  {
    hide ViewOf;
  }

  lemma BlockShapes<D>(env: Env<D>, m: Machine<D>, name: Name, resume: nat)
    requires m.Live()
    ensures Same(m, EnterBlock(env, m, name, resume)) ||
            (Opened(m, EnterBlock(env, m, name, resume)) && EnterBlock(env, m, name, resume).Going()
             && EnterBlock(env, m, name, resume).TopBlock().return_ == resume)
    ensures Same(m, Leave(m)) || (Closed(m, Leave(m)) && Leave(m).ip == m.TopBlock().return_ && Leave(m).Going())
  {
  }

  lemma FrameShape<D>(env: Env<D>, m: Machine<D>, i: Instr, next: nat)
    requires m.Live()
    ensures Same(m, NewFrame(env, m, i, next)) || Requested(env, m, NewFrame(env, m, i, next))
  {
    hide ViewOf;
  }

  // Instructions that leave both stacks alone.
  lemma QuietShapes<D>(env: Env<D>, m: Machine<D>, i: Instr, next: nat)
    requires m.Live()
    ensures Same(m, ThrowObject(env, m, i, next)) && Same(m, Pull(env, m, i, next)) && Same(m, Ordinary(env, m, i, next))
    ensures forall n: Int32 :: Same(m, Select(env, m, i, n, next))
  {
    hide ViewOf;
  }

  lemma MoreQuietShapes<D>(env: Env<D>, m: Machine<D>, next: nat)
    requires m.Live()
    ensures Same(m, Try(m, next))
    ensures forall t: Name, b: Name :: Same(m, Register(env, m, t, b, next))
    ensures forall t: int :: Same(m, JumpTo(env, m, t))
    ensures forall c: Operand, yes: int, no: int :: Same(m, BranchTo(env, m, c, yes, no))
  {
    hide ViewOf;
  }

  // The stacks change at one end and by one element at a time: the call stack only in calls, which
  // note the address of the next instruction, and in `end`; the block stack only in `enter`, which
  // notes the place after its own name, and in `leave`, which goes there.
  predicate Change<D>(env: Env<D>, m: Machine<D>, r: Machine<D>) {
    || Same(m, r)
    || match Fetch(env.text, m.ip)
       case None => false
       case Some(Fetched(i, after)) =>
         || (i.Opcode() == FRAME && Requested(env, m, r))
         || (i.Opcode() in {CALL, FCALL, MSG} && Pushed(m, r) && r.Top().return_ == after && r.Going())
         || (i == Bare(END) && Dropped(m, r))
         || (i.Opcode() == ENTER && Opened(m, r) && r.TopBlock().return_ == after && r.Going())
         || (i == Bare(LEAVE) && Closed(m, r) && r.ip == m.TopBlock().return_ && r.Going())
  }

  lemma DispatchShape<D>(env: Env<D>, m: Machine<D>)
    requires m.Live()
    ensures Change(env, m, Dispatch(env, m))
  {
    hide ViewOf, Fetch, Call, End, EnterBlock, Leave, NewFrame, ThrowObject, Pull, Ordinary, Try, Select, Register,
      JumpTo, BranchTo, Requested, Pushed, Dropped, Opened, Closed, OpcodeOf;
    if m.ip < env.text.End() && Fetch(env.text, m.ip).Some? {
      var f := Fetch(env.text, m.ip).value;
      CallShape(env, m, f.instr, f.after);
      EndShape(env, m);
      FrameShape(env, m, f.instr, f.after);
      QuietShapes(env, m, f.instr, f.after);
      MoreQuietShapes(env, m, f.after);
      if f.instr.Named? {
        BlockShapes(env, m, f.instr.name, f.after);
      } else {
        BlockShapes(env, m, [], f.after);
      }
    }
  }

  // ----- frames -----

  predicate DistinctIds(frames: seq<Frame>) {
    forall j, k | 0 <= j < k < |frames| :: frames[j].id != frames[k].id
  }

  // Frames are pairwise distinct and not too many, and the pending one is none of them.
  predicate Sound<D>(m: Machine<D>) {
    && DistinctIds(m.frames)
    && |m.frames| <= MAX_STACK_SIZE + 1
    && (m.pending.Some? ==> forall k | 0 <= k < |m.frames| :: m.frames[k].id != m.pending.value.id)
  }

  // The allocator never returns the address of a live frame.
  ghost predicate Allocates<D>(env: Env<D>) {
    forall live: set<nat>, n: nat :: env.sem.allocate(live, n) !in live
  }

  lemma DispatchSound<D>(env: Env<D>, m: Machine<D>)
    requires Allocates(env) && m.Live() && Sound(m)
    ensures Sound(Dispatch(env, m))
  {
    hide Dispatch, Fetch;
    DispatchShape(env, m);
    var r := Dispatch(env, m);
    if Requested(env, m, r) {
      forall k | 0 <= k < |m.frames|
        ensures m.frames[k].id != r.pending.value.id
      {
        assert m.frames[k].id in m.LiveIds();
      }
    }
  }

  // ----- unwinding -----

  // The highest index of a frame with the given id, or -1.
  function Rank(frames: seq<Frame>, id: nat): (r: int)
    ensures -1 <= r < |frames| && (r >= 0 ==> frames[r].id == id)
    ensures forall k | r < k < |frames| :: frames[k].id != id
  {
    if frames == [] then -1
    else if frames[|frames| - 1].id == id then |frames| - 1
    else Rank(frames[..|frames| - 1], id)
  }

  // The index of the frame that unwinding to frame id leaves on top: the frame itself, but never
  // less than 1 unless there is only one frame.
  function TopAfter(frames: seq<Frame>, id: nat): (t: nat)
    requires frames != []
    ensures t < |frames|
  {
    if |frames| == 1 then 0 else if Rank(frames, id) < 1 then 1 else Rank(frames, id)
  }

  lemma {:induction false} DistanceMeaning(frames: seq<Frame>, id: nat, j: nat)
    requires DistinctIds(frames) && j < |frames| && Rank(frames, id) <= j
    ensures j - Distance(frames, id, j) ==
            if j <= 1 then j else if Rank(frames, id) < 1 then 1 else Rank(frames, id)
  {
    if j > 1 && frames[j].id != id {
      DistanceMeaning(frames, id, j - 1);
    }
  }

  // Registers after frames have been dropped, the topmost first.
  function Destroyed<D>(env: Env<D>, frames: seq<Frame>, data: D): D {
    if frames == [] then data
    else Destroyed(env, frames[..|frames| - 1], env.sem.drop(frames[|frames| - 1].id, data))
  }

  lemma {:induction false} DropFramesKeeps<D>(env: Env<D>, m: Machine<D>, n: nat)
    requires n <= |m.frames|
    ensures var left := m.frames[..|m.frames| - n];
            DropFrames(env, m, n) ==
            m.(frames := left, data := Destroyed(env, m.frames[|m.frames| - n..], m.data),
               selected := if n == 0 then m.selected else if left == [] then Global else Local(left[|left| - 1].id))
    decreases n
  {
    hide DropFrames, Destroyed;
    DropOneMore(env, m, n);
    DestroyedStep(env, m.frames[|m.frames| - n..], m.data);
    if n == 0 {
      assert m.frames[..|m.frames|] == m.frames;
    } else {
      DropFramesKeeps(env, DropFrame(env, m), n - 1);
      WithoutLast(m.frames, n);
    }
  }

  lemma WithoutLast(frames: seq<Frame>, n: nat)
    requires 0 < n <= |frames|
    ensures var init := frames[..|frames| - 1];
            && init[..|init| - (n - 1)] == frames[..|frames| - n]
            && init[|init| - (n - 1)..] == frames[|frames| - n..][..n - 1]
  {
  }

  lemma DestroyedStep<D>(env: Env<D>, frames: seq<Frame>, data: D)
    ensures frames == [] ==> Destroyed(env, frames, data) == data
    ensures frames != [] ==>
              Destroyed(env, frames, data) ==
              Destroyed(env, frames[..|frames| - 1], env.sem.drop(frames[|frames| - 1].id, data))
  {
  }

  // Unwinding to block k keeps the frames up to its own one and the blocks up to k; the registers of the
  // other frames are destroyed, and those of the frame on top selected when there were others.
  lemma UnwindShape<D>(env: Env<D>, m: Machine<D>, k: nat, t: Name)
    requires m.frames != [] && DistinctIds(m.frames) && k < |m.blocks| && t in m.blocks[k].catchers
    ensures var top := TopAfter(m.frames, m.blocks[k].frame);
            UnwindTo(env, m, k, t) ==
            m.(frames := m.frames[..top + 1], data := Destroyed(env, m.frames[top + 1..], m.data),
               selected := if top + 1 < |m.frames| then Local(m.frames[top].id) else m.selected,
               blocks := m.blocks[..k + 1], ip := m.blocks[k].catchers[t], caught := m.thrown, thrown := None)
  {
    hide DropFrames, Distance, Rank, Destroyed;
    DistanceMeaning(m.frames, m.blocks[k].frame, |m.frames| - 1);
    DropFramesKeeps(env, m, Distance(m.frames, m.blocks[k].frame, |m.frames| - 1));
  }

  // Whose frame ends on top: that of the block, except when it is at index 0 of several frames or
  // gone.
  lemma UnwindTop<D>(env: Env<D>, m: Machine<D>, k: nat, t: Name)
    requires m.frames != [] && DistinctIds(m.frames) && k < |m.blocks| && t in m.blocks[k].catchers
    ensures UnwindTo(env, m, k, t).frames != []
    ensures UnwindTo(env, m, k, t).Top().id == m.blocks[k].frame <==> Regained(m.frames, m.blocks[k].frame)
  {
    hide UnwindTo;
    UnwindShape(env, m, k, t);
  }

  // Unwinding to the frame id gets there.
  predicate Regained(frames: seq<Frame>, id: nat)
    requires frames != []
  {
    Rank(frames, id) >= 1 || (|frames| == 1 && frames[0].id == id)
  }

  // Where an object of one of the given types is caught: the innermost block that catches any of
  // them, and there the first of them.
  predicate Innermost(blocks: seq<Block>, types: seq<Name>, k: nat, j: nat) {
    && k < |blocks| && j < |types| && types[j] in blocks[k].catchers
    && (forall j' | 0 <= j' < j :: types[j'] !in blocks[k].catchers)
    && forall k', j' | k < k' < |blocks| && 0 <= j' < |types| :: types[j'] !in blocks[k'].catchers
  }

  predicate Uncaught(blocks: seq<Block>, types: seq<Name>) {
    forall k, j | 0 <= k < |blocks| && 0 <= j < |types| :: types[j] !in blocks[k].catchers
  }

  // An object that is not looked up by its detailed type.
  predicate ByType(blocks: seq<Block>, o: Object) {
    o.Type() == EXCEPTION ==> TopmostFor(blocks, o.Detailed()).None?
  }

  // Unwinding: an object is caught by the innermost block with any match, its exact type before
  // ancestors and these in chain order.  Then that block is the top block, the lower blocks and
  // frames are untouched, and its frame is the top frame exactly when it was there to be regained and
  // not at index 0 of several.
  lemma Unwinding<D>(env: Env<D>, m: Machine<D>)
    requires m.frames != [] && DistinctIds(m.frames) && m.status.Running?
    requires m.thrown.Some? && ByType(m.blocks, m.thrown.value)
    ensures var types, r := TypesOf(env, m.data, m.thrown.value.Type()), Settle(env, m);
            && (r.status.Running? <==> !Uncaught(m.blocks, types))
            && (!r.status.Running? ==> r == m.(status := Unhandled(m.thrown.value)))
            && (r.status.Running? ==>
                  exists k: nat, j: nat ::
                    && Innermost(m.blocks, types, k, j)
                    && r.blocks == m.blocks[..k + 1]
                    && r.frames == m.frames[..TopAfter(m.frames, m.blocks[k].frame) + 1]
                    && r.data == Destroyed(env, m.frames[|r.frames|..], m.data)
                    && r.selected == (if |r.frames| < |m.frames| then Local(r.Top().id) else m.selected)
                    && (r.Top().id == r.TopBlock().frame <==> Regained(m.frames, m.blocks[k].frame))
                    && r.ip == m.blocks[k].catchers[types[j]]
                    && r.caught == m.thrown && r.thrown.None?)
  {
    hide UnwindTo, TypesOf, Destroyed;
    var types := TypesOf(env, m.data, m.thrown.value.Type());
    var c := Catching(m.blocks, types);
    if c.Some? {
      var k := c.value;
      var j := FirstCaught(m.blocks[k].catchers, types).value;
      UnwindShape(env, m, k, types[j]);
      UnwindTop(env, m, k, types[j]);
      forall k', j' | k < k' < |m.blocks| && 0 <= j' < |types|
        ensures types[j'] !in m.blocks[k'].catchers
      {
        assert FirstCaught(m.blocks[k'].catchers, types).None?;
      }
      assert Innermost(m.blocks, types, k, j);
    } else {
      forall k', j' | 0 <= k' < |m.blocks| && 0 <= j' < |types|
        ensures types[j'] !in m.blocks[k'].catchers
      {
        assert FirstCaught(m.blocks[k'].catchers, types).None?;
      }
    }
  }

  // An exception caught by its detailed type goes to the topmost block that names this type, and
  // nothing is unwound: the frames and the blocks above stay, so the block it went to is on top
  // exactly when it was before, and its frame exactly when no call has been made from it.
  lemma DetailedUnwindsNothing<D>(env: Env<D>, m: Machine<D>)
    requires m.frames != [] && m.status.Running?
    requires m.thrown.Some? && !ByType(m.blocks, m.thrown.value)
    ensures var t, r := m.thrown.value.Detailed(), Settle(env, m);
            && r.status.Running? && r == m.(ip := r.ip, caught := m.thrown, thrown := None)
            && exists k: nat ::
                 && k < |m.blocks| && t in m.blocks[k].catchers && r.ip == m.blocks[k].catchers[t]
                 && (forall k' | k < k' < |m.blocks| :: t !in m.blocks[k'].catchers)
                 && (k == |m.blocks| - 1 <==> t in m.TopBlock().catchers)
                 && (r.Top().id == r.blocks[k].frame <==> Rank(m.frames, m.blocks[k].frame) == |m.frames| - 1)
  {
    var k := TopmostFor(m.blocks, m.thrown.value.Detailed()).value;
    assert k < |m.blocks|;
  }

  // A block opened in the only frame, and an object of type t thrown in a function called from there.
  function ThrownFromCall<D>(t: Name, handler: nat, data: D): Machine<D> {
    var caller, callee := Frame(0, 0, [], false, 0), Frame(1, 0, [], false, 0);
    Machine(0, [caller, callee], None, [Block(0, 0, [], map[t := handler])], None, Some(Value(t, t, 0)), None, Local(1), 1,
            data, Running)
  }

  // The object is caught by the block, but the handler runs in the frame of the called function.
  lemma ThrownFromCallStays<D>(env: Env<D>, t: Name, handler: nat, data: D)
    requires t != EXCEPTION
    ensures var m := ThrownFromCall(t, handler, data); var r := Settle(env, m);
            && r.Live() && r.ip == handler && r.blocks == m.blocks
            && r.frames == m.frames && r.Top().id != r.TopBlock().frame
  {
    hide DropFrames;
    var m := ThrownFromCall(t, handler, data);
    var types := TypesOf(env, data, t);
    assert types[0] == t && FirstCaught(m.blocks[0].catchers, types) == Some(0);
    assert Catching(m.blocks, types) == Some(0);
    assert Distance(m.frames, 0, 1) == 0;
    DropFramesKeeps(env, m, 0);
  }

  // A function that has opened a block and called another one, which throws an exception of detailed
  // type t; the block has a handler for s.
  function ThrownDeeper<D>(t: Name, s: Name, handler: nat, data: D): Machine<D> {
    var main, caller, callee := Frame(0, 0, [], false, 0), Frame(1, 0, [], false, 0), Frame(2, 0, [], false, 0);
    Machine(0, [main, caller, callee], None, [Block(0, 1, [], map[s := handler])], None, Some(Value(EXCEPTION, t, 0)), None,
            Local(2), 2, data, Running)
  }

  // A handler for exceptions runs in the frame of its block, one for the detailed type in the frame of
  // the throw.
  lemma DetailedStays<D>(env: Env<D>, t: Name, handler: nat, data: D)
    requires t != EXCEPTION
    ensures var m := ThrownDeeper(t, EXCEPTION, handler, data); var r := Settle(env, m);
            r.Live() && r.ip == handler && r.frames == m.frames[..2] && r.Top().id == r.TopBlock().frame
    ensures var m := ThrownDeeper(t, t, handler, data); var r := Settle(env, m);
            r.Live() && r.ip == handler && r.frames == m.frames && r.Top().id != r.TopBlock().frame
  {
    hide DropFrames, Distance, UnwindTo;
    var m := ThrownDeeper(t, EXCEPTION, handler, data);
    var types := TypesOf(env, data, EXCEPTION);
    assert TopmostFor(m.blocks[..0], t) == None && m.blocks[..|m.blocks| - 1] == m.blocks[..0];
    assert TopmostFor(m.blocks, t) == None;
    assert types[0] == EXCEPTION && FirstCaught(m.blocks[0].catchers, types) == Some(0);
    assert Catching(m.blocks, types) == Some(0);
    assert DistinctIds(m.frames);
    UnwindShape(env, m, 0, EXCEPTION);
    RankOfMiddle(m.frames);
    var n := ThrownDeeper(t, t, handler, data);
    assert TopmostFor(n.blocks, t) == Some(0);
  }

  lemma RankOfMiddle(frames: seq<Frame>)
    requires |frames| == 3 && frames[1].id == 1 && frames[2].id == 2
    ensures Rank(frames, 1) == 1
  {
    assert frames[..2][1] == frames[1];
  }

  // What happens to the stacks when a thrown object is dealt with.
  predicate Unwound<D>(m: Machine<D>, r: Machine<D>) {
    || (r.frames == m.frames && r.blocks == m.blocks && r.pending == m.pending)
    || exists k: nat | k < |m.blocks| :: UnwoundTo(m, r, k)
  }

  predicate UnwoundTo<D>(m: Machine<D>, r: Machine<D>, k: nat) {
    && m.frames != [] && k < |m.blocks| && r.blocks == m.blocks[..k + 1] && r.pending == m.pending
    && r.frames == m.frames[..TopAfter(m.frames, m.blocks[k].frame) + 1]
  }

  lemma SettleShape<D>(env: Env<D>, m: Machine<D>)
    requires m.frames != [] && DistinctIds(m.frames)
    ensures Unwound(m, Settle(env, m))
  {
    hide UnwindTo, TypesOf, TopAfter;
    var d := CatchDetailed(m);
    if d.thrown.Some? {
      var types := TypesOf(env, d.data, d.thrown.value.Type());
      var c := Catching(d.blocks, types);
      if c.Some? {
        UnwindShape(env, d, c.value, types[FirstCaught(d.blocks[c.value].catchers, types).value]);
        assert UnwoundTo(m, Settle(env, m), c.value);
      }
    }
  }

  lemma AfterShape<D>(env: Env<D>, m: Machine<D>, previous: nat)
    requires DistinctIds(m.frames)
    ensures Unwound(m, After(env, m, previous))
  {
    hide Settle;
    if m.frames != [] {
      SettleShape(env, m);
    }
  }

  lemma UnwoundSound<D>(m: Machine<D>, r: Machine<D>)
    requires Sound(m) && Unwound(m, r)
    ensures Sound(r)
  {
  }

  lemma TickSound<D>(env: Env<D>, m: Machine<D>)
    requires Allocates(env) && Sound(m)
    ensures Sound(Tick(env, m))
  {
    hide Dispatch, After, Unwound, Sound;
    if m.Live() {
      DispatchSound(env, m);
      var d := Dispatch(env, m);
      assert DistinctIds(d.frames) by {
        SoundIsDistinct(d);
      }
      AfterShape(env, d, m.ip);
      UnwoundSound(d, After(env, d, m.ip));
    }
  }

  lemma SoundIsDistinct<D>(m: Machine<D>)
    requires Sound(m)
    ensures DistinctIds(m.frames)
  {
  }

  // In every run frames stay pairwise distinct, so a frame is never pushed twice, and there are
  // never more than 8193 of them.
  lemma {:induction false} RunSound<D>(env: Env<D>, m: Machine<D>, n: nat)
    requires Allocates(env) && Sound(m)
    ensures Sound(Ticks(env, m, n))
  {
    hide Tick, Sound;
    if n > 0 {
      RunSound(env, m, n - 1);
      TickSound(env, Ticks(env, m, n - 1));
    }
  }

  lemma LoadedSound<D>(entry: nat, name: Name, data: D)
    ensures Sound(Loaded(entry, name, data)) && Nested(Loaded(entry, name, data)) && Loaded(entry, name, data).Live()
    ensures var m := Loaded(entry, name, data);
            && m.ip == entry && |m.frames| == 1 && m.Top().name == name && m.selected == Local(m.Top().id) && m.data == data
            && m.pending.None? && m.pendingBlock.None? && m.caught.None? && m.blocks == []
  {
  }

  // The check for a frame pushed twice never fires.
  lemma NeverCorrupt<D>(m: Machine<D>)
    requires Sound(m) && m.Live() && m.pending.Some?
    ensures !PushFrame(m).status.Crashed?
    ensures PushFrame(m).Going() <==> |m.frames| <= MAX_STACK_SIZE
  {
  }

  // ----- nesting of blocks in frames -----

  // The frame of every open block is on the call stack, and blocks are opened in call order.
  predicate Nested<D>(m: Machine<D>) {
    && (forall k | 0 <= k < |m.blocks| :: Rank(m.frames, m.blocks[k].frame) >= 0)
    && forall j, k | 0 <= j < k < |m.blocks| :: Rank(m.frames, m.blocks[j].frame) <= Rank(m.frames, m.blocks[k].frame)
  }

  lemma RankIn(frames: seq<Frame>, more: seq<Frame>, id: nat)
    requires DistinctIds(more) && frames <= more
    ensures Rank(more, id) < |frames| ==> Rank(frames, id) == Rank(more, id)
    ensures Rank(more, id) >= |frames| ==> Rank(frames, id) == -1
  {
    var r, s := Rank(more, id), Rank(frames, id);
    assert s >= 0 ==> more[s].id == id;
    assert 0 <= r < |frames| ==> frames[r].id == id;
  }

  lemma SameRanks<D>(m: Machine<D>, r: Machine<D>)
    requires Nested(m) && r.blocks <= m.blocks
    requires forall k | 0 <= k < |r.blocks| :: Rank(r.frames, r.blocks[k].frame) == Rank(m.frames, m.blocks[k].frame)
    ensures Nested(r)
  {
  }

  // The instruction ends the frame of a block that is still open.
  predicate EndsOpenBlock<D>(m: Machine<D>, r: Machine<D>) {
    Dropped(m, r) && m.blocks != [] && m.TopBlock().frame == m.Top().id
  }

  // Nesting survives an instruction exactly when that is not an `end` of a frame with an open block.
  lemma DispatchNesting<D>(env: Env<D>, m: Machine<D>)
    requires Allocates(env) && m.Live() && Sound(m) && Nested(m)
    ensures Nested(Dispatch(env, m)) <==> !EndsOpenBlock(m, Dispatch(env, m))
  {
    hide Dispatch, Rank, Fetch;
    DispatchShape(env, m);
    DispatchSound(env, m);
    var r := Dispatch(env, m);
    if Pushed(m, r) {
      PushedNesting(m, r);
    } else if Dropped(m, r) {
      DroppedNesting(m, r);
    } else if Opened(m, r) {
      OpenedNesting(m, r);
    } else {
      SameRanks(m, r);
    }
  }

  lemma PushedNesting<D>(m: Machine<D>, r: Machine<D>)
    requires Sound(r) && Nested(m) && Pushed(m, r)
    ensures Nested(r) && !Dropped(m, r)
  {
    hide Rank;
    forall k | 0 <= k < |m.blocks|
      ensures Rank(r.frames, r.blocks[k].frame) == Rank(m.frames, m.blocks[k].frame)
    {
      RankIn(m.frames, r.frames, m.blocks[k].frame);
    }
    SameRanks(m, r);
  }

  lemma OpenedNesting<D>(m: Machine<D>, r: Machine<D>)
    requires Sound(m) && Nested(m) && Opened(m, r)
    ensures Nested(r) && !Dropped(m, r)
  {
    var n := |m.blocks|;
    assert Rank(r.frames, r.blocks[n].frame) == |r.frames| - 1;
    assert forall k | 0 <= k < n :: r.blocks[k] == m.blocks[k];
  }

  lemma DroppedNesting<D>(m: Machine<D>, r: Machine<D>)
    requires Sound(m) && Nested(m) && Dropped(m, r)
    ensures Nested(r) <==> !EndsOpenBlock(m, r)
  {
    hide Rank;
    var n := |m.frames| - 1;
    forall k | 0 <= k < |m.blocks|
      ensures Rank(r.frames, r.blocks[k].frame) ==
              if Rank(m.frames, m.blocks[k].frame) < n then Rank(m.frames, m.blocks[k].frame) else -1
    {
      RankIn(r.frames, m.frames, m.blocks[k].frame);
    }
    if EndsOpenBlock(m, r) {
      assert Rank(m.frames, m.TopBlock().frame) == n;
      assert Rank(r.frames, r.blocks[|r.blocks| - 1].frame) == -1;
    } else if m.blocks != [] {
      var last := |m.blocks| - 1;
      assert Rank(m.frames, m.blocks[last].frame) < n;
      forall k | 0 <= k < |m.blocks|
        ensures Rank(m.frames, m.blocks[k].frame) < n
      {
        assert k < last ==> Rank(m.frames, m.blocks[k].frame) <= Rank(m.frames, m.blocks[last].frame);
      }
      SameRanks(m, r);
    }
  }

  lemma UnwoundNesting<D>(m: Machine<D>, r: Machine<D>)
    requires Sound(m) && Nested(m) && Unwound(m, r)
    ensures Nested(r)
  {
    hide Rank;
    if r.frames != m.frames || r.blocks != m.blocks {
      var k: nat :| k < |m.blocks| && UnwoundTo(m, r, k);
      forall j | 0 <= j < |r.blocks|
        ensures Rank(r.frames, r.blocks[j].frame) == Rank(m.frames, m.blocks[j].frame)
      {
        assert j < k ==> Rank(m.frames, m.blocks[j].frame) <= Rank(m.frames, m.blocks[k].frame);
        RankIn(r.frames, m.frames, m.blocks[j].frame);
      }
      SameRanks(m, r);
    }
  }

  lemma TickNesting<D>(env: Env<D>, m: Machine<D>)
    requires Allocates(env) && Sound(m) && Nested(m)
    requires m.Live() ==> !EndsOpenBlock(m, Dispatch(env, m))
    ensures Nested(Tick(env, m))
  {
    hide Dispatch, After, Unwound, Sound, Nested;
    if m.Live() {
      DispatchSound(env, m);
      DispatchNesting(env, m);
      var d := Dispatch(env, m);
      assert DistinctIds(d.frames) by {
        SoundIsDistinct(d);
      }
      AfterShape(env, d, m.ip);
      UnwoundNesting(d, After(env, d, m.ip));
    }
  }

  // Blocks stay nested in frames through every run in which no `end` executes in a frame with an
  // open block: enter, leave, call, end and unwinding all keep it.
  lemma {:induction false} RunNesting<D>(env: Env<D>, m: Machine<D>, n: nat)
    requires Allocates(env) && Sound(m) && Nested(m)
    requires forall k: nat | k < n ::
               Ticks(env, m, k).Live() ==> !EndsOpenBlock(Ticks(env, m, k), Dispatch(env, Ticks(env, m, k)))
    ensures Sound(Ticks(env, m, n)) && Nested(Ticks(env, m, n))
  {
    hide Tick, Sound, Nested, Dispatch, EndsOpenBlock;
    if n > 0 {
      RunNesting(env, m, n - 1);
      TickSound(env, Ticks(env, m, n - 1));
      TickNesting(env, Ticks(env, m, n - 1));
    }
  }

  // A function that ends inside a block it has entered.
  lemma EndLeavesBlock<D>(env: Env<D>, data: D)
    ensures var m := Machine(0, [Frame(0, 0, [], false, 0), Frame(1, 7, [], false, 0)], None, [Block(0, 1, [], map[])],
                             None, None, None, Local(1), 1, data, Running);
            Sound(m) && Nested(m) && End(env, m).Going() && !Nested(End(env, m))
  {
    var m := Machine(0, [Frame(0, 0, [], false, 0), Frame(1, 7, [], false, 0)], None, [Block(0, 1, [], map[])],
                     None, None, None, Local(1), 1, data, Running);
    var r := End(env, m);
    assert r.frames == [Frame(0, 0, [], false, 0)] && r.blocks == m.blocks;
    assert Rank(r.frames[..0], 1) == -1;
    assert Rank(r.frames, r.blocks[0].frame) == -1;
  }
}
