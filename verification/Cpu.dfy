// The machine as an object whose handlers update its fields (src/cpu/cpu.cpp:201-293, 567-690,
// src/cpu/instr/calls.cpp:164-233, src/cpu/instr/tcmechanism.cpp).
module Cpus {
  import opened Bytes
  import opened Opcodes
  import opened Instructions
  import opened Machine
  import M = Machine
  import opened Stacks

  class Cpu<D> {
    const env: Env<D>
    var instructionPointer: nat
    var frames: seq<Frame>
    var frameNew: Option<Frame>
    var tryframes: seq<Block>
    var tryFrameNew: Option<Block>
    var thrown: Option<Object>
    var caught: Option<Object>
    var uregset: RegisterSet
    var requests: nat
    var registers: D
    var status: Status

    ghost function State(): Machine<D>
      reads this
    {
      Machine(instructionPointer, frames, frameNew, tryframes, tryFrameNew, thrown, caught, uregset, requests,
              registers, status)
    }

    constructor (env: Env<D>, entry: nat, name: Name, data: D)
      ensures this.env == env && State() == Loaded(entry, name, data)
    {
      this.env := env;
      instructionPointer, registers := entry, data;
      frames := [Frame(0, 0, name, false, 0)];
      frameNew, tryframes, tryFrameNew, thrown, caught := None, [], None, None, None;
      uregset, requests, status := Local(0), 0, Running;
    }

    // What the handlers of the remaining instructions see.
    function Sight(): (v: View)
      requires frames != []
      reads this
      ensures v == ViewOf(env, State())
    {
      View(uregset, frames[|frames| - 1].id, frames[|frames| - 1].name, if frameNew.Some? then Some(frameNew.value.id) else None,
           env.sem.allocate((set k | 0 <= k < |frames| :: frames[k].id) +
                            (if frameNew.Some? then {frameNew.value.id} else {}), requests))
    }

    method Raise(cause: Cause)
      modifies this`thrown
      ensures State() == Throw(old(State()), cause)
    {
      thrown := Some(Raised(cause));
    }

    method Execute(i: Instr)
      requires frames != []
      modifies this`registers, this`thrown, this`status
      ensures State() == M.Run(env, old(State()), i)
    {
      hide Sight, ViewOf;
      match env.sem.run(i, Sight(), registers) {
        case Done(d) => registers := d;
        case Raises(d, o) => registers, thrown := d, Some(o);
        case Lost => status := Crashed;
      }
    }

    // ----- frames -----

    method RequestNewFrame()
      modifies this`frameNew, this`requests, this`thrown
      ensures State() == M.RequestNewFrame(env, old(State()))
    {
      if frameNew.Some? {
        Raise(FrameUnused);
        return;
      }
      var ids := set k | 0 <= k < |frames| :: frames[k].id;
      assert ids + {} == ids;
      frameNew := Some(Frame(env.sem.allocate(ids, requests), 0, [], false, 0));
      requests := requests + 1;
    }

    method PushFrame()
      requires frameNew.Some?
      modifies this`frames, this`frameNew, this`uregset, this`thrown, this`status
      ensures State() == M.PushFrame(old(State()))
    {
      if |frames| > MAX_STACK_SIZE {
        Raise(StackExceeded);
        return;
      }
      for k := 0 to |frames|
        invariant State() == old(State())
        invariant forall j | 0 <= j < k :: frames[j].id != frameNew.value.id
      {
        if frames[k].id == frameNew.value.id {
          status := Crashed;
          return;
        }
      }
      uregset := Local(frameNew.value.id);
      frames := frames + [frameNew.value];
      frameNew := None;
    }

    method DropFrame()
      requires frames != []
      modifies this`frames, this`uregset, this`registers
      ensures State() == M.DropFrame(env, old(State()))
    {
      registers := env.sem.drop(frames[|frames| - 1].id, registers);
      frames := frames[..|frames| - 1];
      if |frames| > 0 {
        uregset := Local(frames[|frames| - 1].id);
      } else {
        uregset := Global;
      }
    }

    // ----- calls -----

    method CallNative(name: Name, resolve: bool, result: Int32, closure: Option<nat>, returnAddress: nat)
      modifies this
      ensures State() == Enter(env, old(State()), returnAddress, Calls(name, resolve, result, closure))
    {
      if name !in env.functions {
        Raise(UndefinedFunction);
        return;
      }
      if frameNew.None? {
        Raise(NoFrame);
        return;
      }
      frameNew := Some(frameNew.value.(name := name, return_ := returnAddress, resolve := resolve, result := result));
      PushFrame();
      if thrown.Some? || !status.Running? {
        return;
      }
      if closure.Some? {
        uregset := Captured(closure.value);
      }
      instructionPointer := env.functions[name];
    }

    method Call(i: Instr, next: nat)
      requires frames != []
      modifies this
      ensures State() == M.Call(env, old(State()), i, next)
    {
      hide Sight, ViewOf;
      var callee: Callee;
      if i.Text? && i.op == CALL {
        callee := Calls(i.text, i.a.ref, i.a.index, None);
      } else {
        callee := env.sem.callee(i, Sight(), registers);
      }
      match callee {
        case NoCallee(o) => thrown := Some(o);
        case NoObject => status := Crashed;
        case Calls(name, resolve, result, closure) =>
          if i.Text? && i.op == MSG && frameNew.None? {
            status := Crashed;
          } else {
            CallNative(name, resolve, result, closure, next);
          }
      }
    }

    // Place the return value of the frame f that has just been dropped.
    method EndWith(returned: Object, f: Frame)
      modifies this`registers, this`thrown, this`status, this`instructionPointer
      ensures State() == M.EndWith(env, old(State()), returned, f)
    {
      hide Sight, ViewOf;
      if |frames| > 0 {
        match env.sem.place(returned, f.resolve, f.result, Sight(), registers) {
          case Done(d) => registers := d;
          case Raises(d, e) =>
            registers, thrown := d, Some(e);
            return;
          case Lost =>
            status := Crashed;
            return;
        }
      }
      instructionPointer := f.return_;
    }

    method End()
      requires frames != []
      modifies this
      ensures State() == M.End(env, old(State()))
    {
      hide Sight, ViewOf, M.DropFrame, M.EndWith;
      var f := frames[|frames| - 1];
      if f.result == 0 {
        DropFrame();
        instructionPointer := f.return_;
        return;
      }
      match env.sem.take(Sight(), registers) {
        case Missing => status := Crashed;
        case NotTaken(d, o) => registers, thrown := d, Some(o);
        case Taken(d, returned) =>
          registers := d;
          DropFrame();
          EndWith(returned, f);
      }
    }

    // ----- blocks -----

    method VmTry(next: nat)
      modifies this`tryFrameNew, this`thrown, this`instructionPointer
      ensures State() == Try(old(State()), next)
    {
      if tryFrameNew.Some? {
        Raise(BlockUnused);
        return;
      }
      tryFrameNew := Some(Block(0, 0, [], map[]));
      instructionPointer := next;
    }

    method VmCatch(type_: Name, block: Name, next: nat)
      modifies this`tryFrameNew, this`thrown, this`instructionPointer, this`status
      ensures State() == Register(env, old(State()), type_, block, next)
    {
      if block !in env.blocks {
        Raise(UndefinedBlock);
        return;
      }
      if tryFrameNew.None? {
        status := Crashed;
        return;
      }
      var b := tryFrameNew.value;
      tryFrameNew := Some(b.(catchers := b.catchers[type_ := env.blocks[block]]));
      instructionPointer := next;
    }

    method VmEnter(name: Name, resume: nat)
      requires frames != []
      modifies this`tryframes, this`tryFrameNew, this`thrown, this`instructionPointer, this`status
      ensures State() == EnterBlock(env, old(State()), name, resume)
    {
      if name !in env.blocks {
        Raise(UndefinedBlock);
        return;
      }
      if tryFrameNew.None? {
        status := Crashed;
        return;
      }
      tryframes := tryframes + [tryFrameNew.value.(return_ := resume, frame := frames[|frames| - 1].id, name := name)];
      tryFrameNew := None;
      instructionPointer := env.blocks[name];
    }

    method VmThrow(i: Instr, next: nat)
      requires frames != []
      modifies this`registers, this`thrown, this`instructionPointer, this`status
      ensures State() == ThrowObject(env, old(State()), i, next)
    {
      hide Sight, ViewOf;
      match env.sem.source(i, Sight(), registers) {
        case Taken(d, o) => registers, thrown, instructionPointer := d, Some(o), next;
        case NotTaken(d, o) => registers, thrown := d, Some(o);
        case Missing => status := Crashed;
      }
    }

    method Pull(i: Instr, next: nat)
      requires frames != []
      modifies this`registers, this`thrown, this`caught, this`instructionPointer, this`status
      ensures State() == M.Pull(env, old(State()), i, next)
    {
      hide Sight, ViewOf;
      if caught.None? {
        Execute(i);
        if status.Running? && thrown.None? {
          Raise(NothingCaught);
        }
        return;
      }
      match env.sem.pull(i, caught.value, Sight(), registers) {
        case Done(d) => registers, caught, instructionPointer := d, None, next;
        case Raises(d, o) => registers, thrown := d, Some(o);
        case Lost => status := Crashed;
      }
    }

    method Leave()
      modifies this`tryframes, this`thrown, this`instructionPointer
      ensures State() == M.Leave(old(State()))
    {
      if |tryframes| == 0 {
        Raise(NoBlock);
        return;
      }
      instructionPointer := tryframes[|tryframes| - 1].return_;
      tryframes := tryframes[..|tryframes| - 1];
    }

    // ----- control in one frame -----

    method Jump(target: Int32)
      modifies this`thrown, this`instructionPointer, this`status
      ensures State() == JumpTo(env, old(State()), target)
    {
      if env.text.Bytecode? && target == instructionPointer + 1 {
        Raise(JumpToItself);
      } else {
        Go(target);
      }
    }

    method Go(target: Int32)
      modifies this`instructionPointer, this`status
      ensures State() == Goto(old(State()), target)
    {
      if target < 0 {
        status := Crashed;
      } else {
        instructionPointer := target;
      }
    }

    method Branch(condition: Operand, yes: Int32, no: Int32)
      requires frames != []
      modifies this`thrown, this`instructionPointer, this`status
      ensures State() == BranchTo(env, old(State()), condition, yes, no)
    {
      hide Sight, ViewOf;
      match env.sem.test(condition, Sight(), registers) {
        case Verdict(v) => Go(if v then yes else no);
        case Refused(o) => thrown := Some(o);
        case Broken => status := Crashed;
      }
    }

    method Ress(i: Instr, n: Int32, next: nat)
      requires frames != []
      modifies this
      ensures State() == Select(env, old(State()), i, n, next)
    {
      hide Sight, ViewOf, M.Run;
      if n == 0 {
        uregset := Global;
      } else if n == 1 {
        uregset := Local(frames[|frames| - 1].id);
      } else if n == 2 {
        Execute(i);
        if !(status.Running? && thrown.None?) {
          return;
        }
        uregset := Static(frames[|frames| - 1].name);
      } else {
        Raise(BadRegisterSet);
        return;
      }
      instructionPointer := next;
    }

    method Plain(i: Instr, next: nat)
      requires frames != []
      modifies this
      ensures State() == Ordinary(env, old(State()), i, next)
    {
      hide Sight, ViewOf, M.Run;
      Execute(i);
      if status.Running? && thrown.None? {
        instructionPointer := next;
      }
    }

    method VmFrame(i: Instr, next: nat)
      requires frames != []
      modifies this
      ensures State() == NewFrame(env, old(State()), i, next)
    {
      hide Sight, ViewOf;
      var before := registers;
      Execute(i);
      if !(status.Running? && thrown.None?) {
        return;
      }
      var after := registers;
      registers := before;
      RequestNewFrame();
      if status.Running? && thrown.None? {
        registers, instructionPointer := after, next;
      }
    }

    method HandleBare(op: Byte, next: nat)
      requires frames != []
      modifies this
      ensures State() == M.HandleBare(env, old(State()), op, next)
    {
      hide M.End, Try, M.Leave;
      if op == NOP {
        instructionPointer := next;
      } else if op == HALT {
        status := Halted;
      } else if op == END {
        End();
      } else if op == TRY {
        VmTry(next);
      } else if op == LEAVE {
        Leave();
      } else {
        status := Crashed;
      }
    }

    method Handle(i: Instr, next: nat)
      requires frames != []
      modifies this
      ensures State() == M.Handle(env, old(State()), i, next)
    {
      hide M.HandleBare, M.Call, EnterBlock, NewFrame, ThrowObject, M.Pull, Ordinary, Select, Register, JumpTo, BranchTo;
      var op := i.Opcode();
      if i.Bare? {
        HandleBare(op, next);
      } else if i.Jump? {
        Jump(i.target);
      } else if i.Branch? {
        Branch(i.condition, i.ifTrue, i.ifFalse);
      } else if i.SelectRegisters? {
        Ress(i, i.registerSet, next);
      } else if i.Catch? {
        VmCatch(i.type_, i.block, next);
      } else if i.Named? {
        if op == ENTER {
          VmEnter(i.name, next);
        } else {
          Plain(i, next);
        }
      } else if op == CALL || op == FCALL || op == MSG {
        Call(i, next);
      } else if op == FRAME {
        VmFrame(i, next);
      } else if op == THROW {
        VmThrow(i, next);
      } else if op == PULL {
        Pull(i, next);
      } else {
        Plain(i, next);
      }
    }

    method Dispatch()
      requires frames != []
      modifies this
      ensures State() == M.Dispatch(env, old(State()))
    {
      hide M.Handle, Fetch;
      if instructionPointer >= env.text.End() {
        status := Crashed;
        return;
      }
      if !Implemented(OpcodeOf(env.text, instructionPointer)) {
        Raise(UnknownInstruction);
        return;
      }
      var fetched := Fetch(env.text, instructionPointer);
      if fetched.None? {
        status := Crashed;
        return;
      }
      Handle(fetched.value.instr, fetched.value.after);
    }

    // ----- ticks -----

    // The search for a catcher of the detailed type of an exception.
    method CatchDetailed()
      modifies this`thrown, this`caught, this`instructionPointer
      ensures State() == M.CatchDetailed(old(State()))
    {
      if thrown.None? || thrown.value.Type() != EXCEPTION {
        return;
      }
      var detailed := thrown.value.Detailed();
      var i := |tryframes|;
      assert tryframes[..i] == tryframes;
      while i > 0
        invariant 0 <= i <= |tryframes| && State() == old(State())
        invariant TopmostFor(tryframes, detailed) == TopmostFor(tryframes[..i], detailed)
      {
        assert tryframes[..i][..i - 1] == tryframes[..i - 1];
        if detailed in tryframes[i - 1].catchers {
          instructionPointer := tryframes[i - 1].catchers[detailed];
          caught := thrown;
          thrown := None;
          return;
        }
        i := i - 1;
      }
    }

    // The type by which a block catches an object: its own, or the first ancestor it names.
    method FindIn(catchers: map<Name, nat>, type_: Name) returns (found: Option<Name>)
      ensures var types := TypesOf(env, registers, type_);
              found == match FirstCaught(catchers, types)
                       case None => None
                       case Some(j) => Some(types[j])
    {
      ghost var types := TypesOf(env, registers, type_);
      if type_ in catchers {
        assert types[0] == type_;
        return Some(type_);
      }
      found := None;
      var ancestors := env.sem.chain(type_, registers);
      if ancestors.Some? {
        var toCheck := ancestors.value;
        assert types == [type_] + toCheck;
        for j := 0 to |toCheck|
          invariant found.None? && forall k | 0 <= k < j :: toCheck[k] !in catchers
        {
          if toCheck[j] in catchers {
            FirstCaughtIs(catchers, types, j + 1);
            return Some(toCheck[j]);
          }
        }
      }
      assert forall k | 0 <= k < |types| :: types[k] !in catchers;
    }

    // Drop the frames above frame id; the search for it stops at index 1.
    method UnwindFrames(id: nat)
      requires frames != []
      modifies this`frames, this`uregset, this`registers
      ensures State() == DropFrames(env, old(State()), Distance(old(frames), id, |old(frames)| - 1))
    {
      hide DropFrames, M.DropFrame;
      var distance, j := 0, |frames| - 1;
      while j > 1 && frames[j].id != id
        invariant 0 <= j < |frames| && distance + j == |frames| - 1
        invariant distance + Distance(frames, id, j) == Distance(frames, id, |frames| - 1)
      {
        distance := distance + 1;
        j := j - 1;
      }
      ghost var total := distance;
      while distance > 0
        invariant 0 <= distance <= |frames|
        invariant DropFrames(env, State(), distance) == DropFrames(env, old(State()), total)
      {
        DropOneMore(env, State(), distance);
        DropFrame();
        distance := distance - 1;
      }
      DropOneMore(env, State(), 0);
    }

    // Drop the blocks above block k.
    method UnwindBlocks(k: nat)
      requires k < |tryframes|
      modifies this`tryframes
      ensures tryframes == old(tryframes)[..k + 1]
    {
      while |tryframes| - 1 != k
        invariant k < |tryframes| <= |old(tryframes)| && tryframes == old(tryframes)[..|tryframes|]
      {
        tryframes := tryframes[..|tryframes| - 1];
      }
    }

    method Unwind(k: nat, type_: Name)
      requires frames != [] && k < |tryframes| && type_ in tryframes[k].catchers
      modifies this`frames, this`uregset, this`registers, this`tryframes, this`thrown, this`caught, this`instructionPointer
      ensures State() == UnwindTo(env, old(State()), k, type_)
    {
      hide DropFrames;
      ghost var n := Distance(frames, tryframes[k].frame, |frames| - 1);
      DropFramesOnly(env, State(), n);
      DropIgnoresPointer(env, State(), tryframes[k].catchers[type_], n);
      instructionPointer := tryframes[k].catchers[type_];
      UnwindFrames(tryframes[k].frame);
      UnwindBlocks(k);
      caught := thrown;
      thrown := None;
    }

    // The topmost block that catches the thrown object, and the type by which it does.
    method FindCatcher() returns (found: Option<(nat, Name)>)
      requires thrown.Some?
      ensures var types := TypesOf(env, registers, thrown.value.Type());
              found == match Catching(tryframes, types)
                       case None => None
                       case Some(k) => Some((k, types[FirstCaught(tryframes[k].catchers, types).value]))
    {
      hide TypesOf, FirstCaught;
      ghost var types := TypesOf(env, registers, thrown.value.Type());
      var i := |tryframes|;
      assert tryframes[..i] == tryframes;
      while i > 0
        invariant 0 <= i <= |tryframes|
        invariant Catching(tryframes, types) == Catching(tryframes[..i], types)
      {
        assert tryframes[..i][..i - 1] == tryframes[..i - 1];
        var name := FindIn(tryframes[i - 1].catchers, thrown.value.Type());
        if name.Some? {
          return Some((i - 1, name.value));
        }
        i := i - 1;
      }
      found := None;
    }

    // Unwind to the block that catches the thrown object by its type, if there is one.
    method CatchByType()
      requires frames != []
      modifies this`frames, this`uregset, this`registers, this`tryframes, this`thrown, this`caught, this`instructionPointer
      ensures State() == M.CatchByType(env, old(State()))
    {
      hide UnwindTo, TypesOf, FirstCaught;
      if thrown.None? {
        return;
      }
      var found := FindCatcher();
      if found.Some? {
        Unwind(found.value.0, found.value.1);
      }
    }

    method Tick()
      modifies this
      ensures State() == M.Tick(env, old(State()))
    {
      hide M.Dispatch, M.CatchDetailed, M.CatchByType;
      if !(status.Running? && frames != [] && thrown.None?) {
        return;
      }
      var previous := instructionPointer;
      Dispatch();
      if status.Crashed? {
        return;
      }
      if status.Halted? || |frames| == 0 {
        status := Halted;
        return;
      }
      if instructionPointer >= env.text.End() {
        status := OutOfBounds;
        return;
      }
      if instructionPointer == previous && !MayStay(env.text, instructionPointer) && thrown.None? {
        status := Unchanged;
        return;
      }
      ghost var dispatched := State();
      CatchDetailed();
      DetailedKeepsFrames(dispatched);
      CatchByType();
      if thrown.Some? {
        status := Unhandled(thrown.value);
      }
    }

    // Tick until the machine stops, at most n times.  The stacks stay in order on the way.
    method Run(n: nat)
      modifies this
      ensures State() == Ticks(env, old(State()), n)
      ensures Allocates(env) && Sound(old(State())) ==> Sound(State())
      ensures Allocates(env) && Sound(old(State())) && Nested(old(State())) && NeverEndsOpenBlock(env, old(State()), n) ==>
                Nested(State())
    {
      hide M.Tick, Sound, Nested, NeverEndsOpenBlock, Allocates;
      ghost var start := State();
      var i := 0;
      while i < n && status.Running? && frames != [] && thrown.None?
        invariant i <= n && State() == Ticks(env, start, i)
      {
        Tick();
        i := i + 1;
      }
      if i < n {
        StoppedFor(env, start, i, n);
      }
      if Allocates(env) && Sound(start) {
        RunSound(env, start, n);
        if Nested(start) && NeverEndsOpenBlock(env, start, n) {
          RunNested(env, start, n);
        }
      }
    }
  }

  // No `end` executes in a frame with an open block in the first n ticks.
  ghost predicate NeverEndsOpenBlock<D>(env: Env<D>, m: Machine<D>, n: nat) {
    forall k: nat | k < n ::
      Ticks(env, m, k).Live() ==> !EndsOpenBlock(Ticks(env, m, k), M.Dispatch(env, Ticks(env, m, k)))
  }

  lemma RunNested<D>(env: Env<D>, m: Machine<D>, n: nat)
    requires Allocates(env) && Sound(m) && Nested(m) && NeverEndsOpenBlock(env, m, n)
    ensures Nested(Ticks(env, m, n))
  {
    hide M.Tick, M.Dispatch, Sound, Nested, EndsOpenBlock;
    RunNesting(env, m, n);
  }

  // A machine that has stopped stays as it is.
  lemma {:induction false} StoppedFor<D>(env: Env<D>, m: Machine<D>, i: nat, n: nat)
    requires i <= n && !Ticks(env, m, i).Live()
    ensures Ticks(env, m, n) == Ticks(env, m, i)
    decreases n
  {
    if i < n {
      StoppedFor(env, m, i, n - 1);
    }
  }

  lemma DetailedKeepsFrames<D>(m: Machine<D>)
    ensures M.CatchDetailed(m).frames == m.frames
  {
  }

  lemma {:induction false} FirstCaughtIs(catchers: map<Name, nat>, types: seq<Name>, j: nat)
    requires j < |types| && types[j] in catchers && forall k | 0 <= k < j :: types[k] !in catchers
    ensures FirstCaught(catchers, types) == Some(j)
  {
    if j > 0 {
      FirstCaughtIs(catchers, types[1..], j - 1);
    }
  }

  lemma OneIgnoresPointer<D>(env: Env<D>, m: Machine<D>, ip: nat)
    requires m.frames != []
    ensures M.DropFrame(env, m.(ip := ip)) == M.DropFrame(env, m).(ip := ip)
    ensures |M.DropFrame(env, m).frames| == |m.frames| - 1
  {
  }

  lemma {:induction false} DropIgnoresPointer<D>(env: Env<D>, m: Machine<D>, ip: nat, n: nat)
    requires n <= |m.frames|
    ensures DropFrames(env, m.(ip := ip), n) == DropFrames(env, m, n).(ip := ip)
    decreases n
  {
    if n > 0 {
      OneIgnoresPointer(env, m, ip);
      hide M.DropFrame;
      DropIgnoresPointer(env, M.DropFrame(env, m), ip, n - 1);
    }
  }

  lemma {:induction false} DropFramesOnly<D>(env: Env<D>, m: Machine<D>, n: nat)
    requires n <= |m.frames|
    ensures var r := DropFrames(env, m, n);
            r == m.(frames := r.frames, selected := r.selected, data := r.data)
    decreases n
  {
    if n > 0 {
      DropFramesOnly(env, M.DropFrame(env, m), n - 1);
    }
  }
}
