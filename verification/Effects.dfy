// What each control instruction does, said of one step of the machine
// (src/cpu/cpu.cpp:201-278, src/cpu/instr/general.cpp:39-103, src/cpu/instr/calls.cpp:13-233,
// src/cpu/instr/tcmechanism.cpp:8-149).
module Effects {
  import opened Bytes
  import opened Opcodes
  import opened Instructions
  import opened Machine
  import opened Stacks

  // m is about to execute i, and what follows i lies at `after`.
  predicate Executes<D>(env: Env<D>, m: Machine<D>, i: Instr, after: nat) {
    m.Live() && Implemented(i.Opcode()) && Fetch(env.text, m.ip) == Some(Fetched(i, after))
  }

  lemma FetchedOpcode(text: Text, at: nat)
    requires Fetch(text, at).Some?
    ensures at < text.End() && OpcodeOf(text, at) == Fetch(text, at).value.instr.Opcode()
    ensures Fetch(text, at).value.after > at
  {
    hide ReadInt, ReadText;
  }

  lemma Handled<D>(env: Env<D>, m: Machine<D>, i: Instr, after: nat)
    requires Executes(env, m, i, after)
    ensures m.frames != [] && m.ip < env.text.End() && after > m.ip && OpcodeOf(env.text, m.ip) == i.Opcode()
    ensures Dispatch(env, m) == Handle(env, m, i, after)
  {
    hide Fetch, Handle, Implemented;
    FetchedOpcode(env.text, m.ip);
  }

  // What is raised without anything else happening.
  function Raising<D>(m: Machine<D>, cause: Cause): Machine<D> {
    m.(thrown := Some(Raised(cause)))
  }

  // ----- jumps and register sets -----

  // A jump goes to its target; in bytecode, one to the byte behind its own opcode is refused.
  lemma JumpEffect<D>(env: Env<D>, m: Machine<D>, target: Int32, kind: JumpKind, after: nat)
    requires Executes(env, m, Jump(target, kind), after)
    ensures env.text.Bytecode? && target == m.ip + 1 ==> Dispatch(env, m) == Raising(m, JumpToItself)
    ensures !(env.text.Bytecode? && target == m.ip + 1) && target >= 0 ==> Dispatch(env, m) == m.(ip := target)
    ensures target < 0 ==> Dispatch(env, m) == m.(status := Crashed)
  {
    hide Fetch, Dispatch, Implemented;
    Handled(env, m, Jump(target, kind), after);
  }

  // A branch goes to its first target when the test says so, and otherwise to its second; the object
  // that the test throws is thrown.
  lemma BranchEffect<D>(env: Env<D>, m: Machine<D>, c: Operand, yes: Int32, yesKind: JumpKind, no: Int32, noKind: JumpKind,
                        after: nat)
    requires Executes(env, m, Branch(c, yes, yesKind, no, noKind), after)
    ensures match env.sem.test(c, ViewOf(env, m), m.data)
            case Verdict(true) => Dispatch(env, m) == if yes < 0 then m.(status := Crashed) else m.(ip := yes)
            case Verdict(false) => Dispatch(env, m) == if no < 0 then m.(status := Crashed) else m.(ip := no)
            case Refused(o) => Dispatch(env, m) == m.(thrown := Some(o))
            case Broken => Dispatch(env, m) == m.(status := Crashed)
  {
    hide Fetch, Dispatch, ViewOf, Implemented;
    Handled(env, m, Branch(c, yes, yesKind, no, noKind), after);
  }

  // 0 selects the global registers, 1 those of the top frame, 2 those of its function, once they exist;
  // temporary registers cannot be selected.
  lemma RessEffect<D>(env: Env<D>, m: Machine<D>, n: Int32, after: nat)
    requires Executes(env, m, SelectRegisters(n), after)
    ensures n == 0 ==> Dispatch(env, m) == m.(selected := Global, ip := after)
    ensures n == 1 ==> Dispatch(env, m) == m.(selected := Local(m.frames[|m.frames| - 1].id), ip := after)
    ensures n == 2 ==>
              match env.sem.run(SelectRegisters(n), ViewOf(env, m), m.data)
              case Done(d) => Dispatch(env, m) == m.(data := d, selected := Static(m.frames[|m.frames| - 1].name), ip := after)
              case Raises(d, o) => Dispatch(env, m) == m.(data := d, thrown := Some(o))
              case Lost => Dispatch(env, m) == m.(status := Crashed)
    ensures n < 0 || n > 2 ==> Dispatch(env, m) == Raising(m, BadRegisterSet)
  {
    hide Fetch, Dispatch, ViewOf, Implemented;
    Handled(env, m, SelectRegisters(n), after);
  }

  // What instructions see: the registers selected, the top frame and its function, and the pending frame.
  lemma Sight<D>(env: Env<D>, m: Machine<D>)
    requires m.frames != []
    ensures var v, top := ViewOf(env, m), m.frames[|m.frames| - 1];
            && v.selected == m.selected && v.top == top.id && v.function_ == top.name
            && (v.pending.Some? <==> m.pending.Some?) && (v.pending.Some? ==> v.pending.value == m.pending.value.id)
  {
  }

  // ----- calls -----

  // A frame is requested: the one whose registers have just been made, with an identity of its own,
  // unless one is pending.
  lemma FrameEffect<D>(env: Env<D>, m: Machine<D>, i: Instr, after: nat)
    requires Executes(env, m, i, after) && i.Two? && i.op == FRAME
    ensures var r := env.sem.run(i, ViewOf(env, m), m.data);
            && (r.Done? && m.pending.None? ==>
                  Dispatch(env, m) == m.(data := r.data, pending := Some(Frame(ViewOf(env, m).address, 0, [], false, 0)),
                                         requests := m.requests + 1, ip := after))
            && (r.Done? && m.pending.Some? ==> Dispatch(env, m) == Raising(m, FrameUnused))
            && match r
               case Done(_) => true
               case Raises(d, o) => Dispatch(env, m) == m.(data := d, thrown := Some(o))
               case Lost => Dispatch(env, m) == m.(status := Crashed)
    ensures Allocates(env) && Dispatch(env, m).requests > m.requests ==>
              Dispatch(env, m).pending.Some? && forall f <- m.frames :: f.id != Dispatch(env, m).pending.value.id
  {
    hide Fetch, Dispatch, ViewOf, Implemented, Machine.LiveIds;
    Handled(env, m, i, after);
    assert Dispatch(env, m) == NewFrame(env, m, i, after);
    SameAddress(env, m);
    if Allocates(env) {
      Unused(env, m);
    }
  }

  lemma SameAddress<D>(env: Env<D>, m: Machine<D>)
    requires m.frames != []
    ensures ViewOf(env, m).address == env.sem.allocate(m.LiveIds(), m.requests)
  {
  }

  lemma Unused<D>(env: Env<D>, m: Machine<D>)
    requires Allocates(env)
    ensures forall f <- m.frames :: f.id != env.sem.allocate(m.LiveIds(), m.requests)
  {
    forall f <- m.frames
      ensures f.id in m.LiveIds()
    {
      var k :| 0 <= k < |m.frames| && m.frames[k] == f;
      assert m.frames[k].id in m.LiveIds();
    }
  }

  // Whether the pending frame can be pushed.
  predicate CanPush<D>(m: Machine<D>) {
    && m.pending.Some? && |m.frames| <= MAX_STACK_SIZE
    && forall k | 0 <= k < |m.frames| :: m.frames[k].id != m.pending.value.id
  }

  // The pending frame pushed for a function, which will return to `after` and give its result to the
  // register named.
  function Called<D>(env: Env<D>, m: Machine<D>, after: nat, name: Name, resolve: bool, result: Int32,
                     registers: RegisterSet): Machine<D>
    requires m.pending.Some? && name in env.functions
  {
    m.(frames := m.frames + [Frame(m.pending.value.id, after, name, resolve, result)], pending := None,
       selected := registers, ip := env.functions[name])
  }

  lemma EnterEffectOf<D>(env: Env<D>, m: Machine<D>, after: nat, c: Callee)
    requires c.Calls? && m.Live()
    ensures var d := Enter(env, m, after, c);
            && (Pushed(m, d) <==> c.name in env.functions && CanPush(m))
            && (c.name !in env.functions ==> d == Raising(m, UndefinedFunction))
            && (c.name in env.functions && m.pending.None? ==> d == Raising(m, NoFrame))
            && (c.name in env.functions && m.pending.Some? && |m.frames| > MAX_STACK_SIZE ==>
                  d.thrown == Some(Raised(StackExceeded)) && d == m.(thrown := d.thrown, pending := d.pending))
            && (c.name in env.functions && m.pending.Some? && |m.frames| <= MAX_STACK_SIZE && !CanPush(m) ==> d.status.Crashed?)
            && (c.name in env.functions && CanPush(m) ==>
                  d == Called(env, m, after, c.name, c.resolve, c.result,
                              if c.closure.Some? then Captured(c.closure.value) else Local(m.pending.value.id)))
  {
  }

  // `call` pushes the pending frame for the function it names, with the register it names for the
  // result.
  lemma CallEffect<D>(env: Env<D>, m: Machine<D>, a: Operand, name: Name, after: nat)
    requires Executes(env, m, Instr.Text(CALL, a, name), after)
    ensures var d := Dispatch(env, m);
            && (Pushed(m, d) <==> name in env.functions && CanPush(m))
            && (Pushed(m, d) ==> d == Called(env, m, after, name, a.ref, a.index, Local(m.pending.value.id)))
            && (name !in env.functions ==> d == Raising(m, UndefinedFunction))
            && (name in env.functions && m.pending.None? ==> d == Raising(m, NoFrame))
            && (name in env.functions && m.pending.Some? && |m.frames| > MAX_STACK_SIZE ==> d.thrown == Some(Raised(StackExceeded)))
  {
    hide Fetch, Dispatch, ViewOf, Implemented, Enter, Pushed, CanPush;
    Handled(env, m, Instr.Text(CALL, a, name), after);
    EnterEffectOf(env, m, after, Calls(name, a.ref, a.index, None));
  }

  // `fcall` and `msg` do the same for the function, result register and closure that their operands
  // lead to.
  lemma CalleeEffect<D>(env: Env<D>, m: Machine<D>, i: Instr, after: nat)
    requires Executes(env, m, i, after) && ((i.Two? && i.op == FCALL) || (i.Text? && i.op == MSG))
    ensures var d, c := Dispatch(env, m), env.sem.callee(i, ViewOf(env, m), m.data);
            && (c.Calls? ==> (Pushed(m, d) <==> c.name in env.functions && CanPush(m)))
            && (c.Calls? && Pushed(m, d) ==>
                  d == Called(env, m, after, c.name, c.resolve, c.result,
                              if c.closure.Some? then Captured(c.closure.value) else Local(m.pending.value.id)))
            && match c
               case NoCallee(o) => d == m.(thrown := Some(o))
               case NoObject => d == m.(status := Crashed)
               case Calls(name, _, _, _) =>
                 && (m.pending.None? && i.Text? ==> d == m.(status := Crashed))
                 && (m.pending.None? && i.Two? && name in env.functions ==> d == Raising(m, NoFrame))
                 && (name !in env.functions && !(m.pending.None? && i.Text?) ==> d == Raising(m, UndefinedFunction))
  {
    hide Fetch, Dispatch, ViewOf, Implemented, Enter, Pushed, CanPush;
    Handled(env, m, i, after);
    var c := env.sem.callee(i, ViewOf(env, m), m.data);
    if c.Calls? {
      EnterEffectOf(env, m, after, c);
      NotPushed(m);
    }
  }

  lemma NotPushed<D>(m: Machine<D>)
    requires m.Live()
    ensures !Pushed(m, m.(status := Crashed)) && (m.pending.None? ==> !CanPush(m))
  {
  }

  // The machine with its top frame dropped.
  function WithoutTop<D>(env: Env<D>, m: Machine<D>, data: D): Machine<D>
    requires m.frames != []
  {
    var rest := m.frames[..|m.frames| - 1];
    m.(frames := rest, data := env.sem.drop(m.frames[|m.frames| - 1].id, data),
       selected := if rest == [] then Global else Local(rest[|rest| - 1].id))
  }

  // `end` drops the top frame and goes where it says.  When the frame names a result register, what
  // register 0 held is taken before the drop and put there after it.
  lemma EndEffect<D>(env: Env<D>, m: Machine<D>, after: nat)
    requires Executes(env, m, Bare(END), after)
    ensures var f := m.frames[|m.frames| - 1];
            && (f.result == 0 ==> Dispatch(env, m) == WithoutTop(env, m, m.data).(ip := f.return_))
            && (f.result != 0 ==>
                  match env.sem.take(ViewOf(env, m), m.data)
                  case Missing => Dispatch(env, m) == m.(status := Crashed)
                  case NotTaken(d, o) => Dispatch(env, m) == m.(data := d, thrown := Some(o))
                  case Taken(d, o) =>
                    var dropped := WithoutTop(env, m, d);
                    if |m.frames| == 1 then Dispatch(env, m) == dropped.(ip := f.return_)
                    else
                      match env.sem.place(o, f.resolve, f.result, ViewOf(env, dropped), dropped.data)
                      case Done(e) => Dispatch(env, m) == dropped.(data := e, ip := f.return_)
                      case Raises(e, x) => Dispatch(env, m) == dropped.(data := e, thrown := Some(x))
                      case Lost => Dispatch(env, m).status.Crashed?)
  {
    hide Fetch, Dispatch, ViewOf, Implemented;
    Handled(env, m, Bare(END), after);
  }

  // ----- blocks -----

  lemma TryEffect<D>(env: Env<D>, m: Machine<D>, after: nat)
    requires Executes(env, m, Bare(TRY), after)
    ensures m.pendingBlock.Some? ==> Dispatch(env, m) == Raising(m, BlockUnused)
    ensures m.pendingBlock.None? ==>
              && Dispatch(env, m).pendingBlock.Some? && Dispatch(env, m).pendingBlock.value.catchers == map[]
              && Dispatch(env, m) == m.(pendingBlock := Dispatch(env, m).pendingBlock, ip := after)
  {
    hide Fetch, Dispatch, Implemented;
    Handled(env, m, Bare(TRY), after);
  }

  // `catch` gives the pending block a handler for a type; what it has for other types stays.
  lemma CatchEffect<D>(env: Env<D>, m: Machine<D>, type_: Name, block: Name, after: nat)
    requires Executes(env, m, Instr.Catch(type_, block), after)
    ensures block !in env.blocks ==> Dispatch(env, m) == Raising(m, UndefinedBlock)
    ensures block in env.blocks && m.pendingBlock.None? ==> Dispatch(env, m) == m.(status := Crashed)
    ensures block in env.blocks && m.pendingBlock.Some? ==>
              var d := Dispatch(env, m);
              && d.pendingBlock.Some? && d == m.(pendingBlock := d.pendingBlock, ip := after)
              && var had, has := m.pendingBlock.value.catchers, d.pendingBlock.value.catchers;
                 && type_ in has && has[type_] == env.blocks[block]
                 && forall t | t != type_ :: (t in has <==> t in had) && (t in had ==> has[t] == had[t])
  {
    hide Fetch, Dispatch, Implemented;
    Handled(env, m, Instr.Catch(type_, block), after);
  }

  // `enter` pushes the pending block with its handlers, notes where it goes on and which frame it
  // belongs to, and goes to the block it names.
  lemma EnterEffect<D>(env: Env<D>, m: Machine<D>, name: Name, after: nat)
    requires Executes(env, m, Named(ENTER, name), after)
    ensures name !in env.blocks ==> Dispatch(env, m) == Raising(m, UndefinedBlock)
    ensures name in env.blocks && m.pendingBlock.None? ==> Dispatch(env, m) == m.(status := Crashed)
    ensures name in env.blocks && m.pendingBlock.Some? ==>
              Dispatch(env, m) ==
              m.(blocks := m.blocks + [Block(after, m.frames[|m.frames| - 1].id, name, m.pendingBlock.value.catchers)],
                 pendingBlock := None, ip := env.blocks[name])
  {
    hide Fetch, Dispatch, Implemented;
    Handled(env, m, Named(ENTER, name), after);
  }

  lemma LeaveEffect<D>(env: Env<D>, m: Machine<D>, after: nat)
    requires Executes(env, m, Bare(LEAVE), after)
    ensures m.blocks == [] ==> Dispatch(env, m) == Raising(m, NoBlock)
    ensures m.blocks != [] ==>
              var last := |m.blocks| - 1;
              Dispatch(env, m) == m.(blocks := m.blocks[..last], ip := m.blocks[last].return_)
  {
    hide Fetch, Dispatch, Implemented;
    Handled(env, m, Bare(LEAVE), after);
  }

  // `throw` takes the object its operand names and has moved on when it is thrown.
  lemma ThrowEffect<D>(env: Env<D>, m: Machine<D>, a: Operand, after: nat)
    requires Executes(env, m, One(THROW, a), after)
    ensures match env.sem.source(One(THROW, a), ViewOf(env, m), m.data)
            case Taken(d, o) => Dispatch(env, m) == m.(data := d, thrown := Some(o), ip := after)
            case NotTaken(d, o) => Dispatch(env, m) == m.(data := d, thrown := Some(o))
            case Missing => Dispatch(env, m) == m.(status := Crashed)
  {
    hide Fetch, Dispatch, ViewOf, Implemented;
    Handled(env, m, One(THROW, a), after);
  }

  // `pull` puts the caught object into a register, after which none is caught; when the register
  // cannot take it, or nothing is caught, the caught object stays as it is.
  lemma PullEffect<D>(env: Env<D>, m: Machine<D>, a: Operand, after: nat)
    requires Executes(env, m, One(PULL, a), after)
    ensures m.caught.Some? ==>
              match env.sem.pull(One(PULL, a), m.caught.value, ViewOf(env, m), m.data)
              case Done(d) => Dispatch(env, m) == m.(data := d, caught := None, ip := after)
              case Raises(d, o) => Dispatch(env, m) == m.(data := d, thrown := Some(o))
              case Lost => Dispatch(env, m) == m.(status := Crashed)
    ensures m.caught.None? ==>
              match env.sem.run(One(PULL, a), ViewOf(env, m), m.data)
              case Done(d) => Dispatch(env, m) == Raising(m, NothingCaught).(data := d)
              case Raises(d, o) => Dispatch(env, m) == m.(data := d, thrown := Some(o))
              case Lost => Dispatch(env, m) == m.(status := Crashed)
  {
    hide Fetch, Dispatch, ViewOf, Implemented;
    Handled(env, m, One(PULL, a), after);
  }

  // ----- everything else -----

  // Instructions that only touch registers.
  predicate IsPlain(i: Instr) {
    && !i.Jump? && !i.Branch? && !i.SelectRegisters? && !i.Catch? && !i.Bare?
    && i.Opcode() !in {ENTER, CALL, FCALL, MSG, FRAME, THROW, PULL}
  }

  lemma PlainEffect<D>(env: Env<D>, m: Machine<D>, i: Instr, after: nat)
    requires Executes(env, m, i, after) && IsPlain(i)
    ensures match env.sem.run(i, ViewOf(env, m), m.data)
            case Done(d) => Dispatch(env, m) == m.(data := d, ip := after)
            case Raises(d, o) => Dispatch(env, m) == m.(data := d, thrown := Some(o))
            case Lost => Dispatch(env, m) == m.(status := Crashed)
  {
    hide Fetch, Dispatch, ViewOf, Implemented;
    Handled(env, m, i, after);
  }

  lemma HaltEffect<D>(env: Env<D>, m: Machine<D>, op: Byte, after: nat)
    requires Executes(env, m, Bare(op), after)
    ensures op == HALT ==> Dispatch(env, m) == m.(status := Halted)
    ensures op == NOP ==> Dispatch(env, m) == m.(ip := after)
  {
    hide Fetch, Dispatch, Implemented;
    Handled(env, m, Bare(op), after);
  }

  // No instruction at all: outside of the text or cut off by its end, the machine reads what is not
  // there; an opcode without a handler raises an exception.
  lemma NothingExecutes<D>(env: Env<D>, m: Machine<D>)
    requires m.Live()
    ensures m.ip >= env.text.End() ==> Dispatch(env, m) == m.(status := Crashed)
    ensures m.ip < env.text.End() && !Implemented(OpcodeOf(env.text, m.ip)) ==> Dispatch(env, m) == Raising(m, UnknownInstruction)
    ensures m.ip < env.text.End() && Implemented(OpcodeOf(env.text, m.ip)) && Fetch(env.text, m.ip).None? ==>
              Dispatch(env, m) == m.(status := Crashed)
  {
    hide Fetch, OpcodeOf, Implemented, Handle;
  }

  // ----- ticks -----

  // What ends a run beside `halt`: no frame left, an address outside, an address that is still the same
  // without an `end` (or, in a list of instructions, a `leave`) being there, and a thrown object that
  // nothing catches.
  lemma TickOutcome<D>(env: Env<D>, m: Machine<D>)
    requires m.Live()
    ensures var d, r := Dispatch(env, m), Tick(env, m);
            && (r.status.Crashed? <==> d.status.Crashed?)
            && (r.status.Halted? <==> !d.status.Crashed? && (d.status.Halted? || d.frames == []))
            && (d.status.Running? && d.frames != [] ==>
                  && (r.status.OutOfBounds? <==> d.ip >= env.text.End())
                  && (r.status.Unchanged? <==>
                        && d.ip == m.ip && d.ip < env.text.End() && d.thrown.None?
                        && OpcodeOf(env.text, m.ip) != END && !(env.text.Indexed? && OpcodeOf(env.text, m.ip) == LEAVE))
                  && (d.thrown.None? && d.ip < env.text.End() && !r.status.Unchanged? ==> r == d)
                  && (d.thrown.Some? && d.ip < env.text.End() ==> r == Settle(env, d)))
  {
    hide Dispatch, Settle;
    OnlyRunning(env, m);
    var d := Dispatch(env, m);
    if d.frames != [] {
      SettleStatus(env, d);
    }
  }

  // An instruction leaves the machine running, halts it or crashes it.
  lemma OnlyRunning<D>(env: Env<D>, m: Machine<D>)
    requires m.Live()
    ensures var s := Dispatch(env, m).status; s.Running? || s.Halted? || s.Crashed?
  {
    hide Fetch, ViewOf, OpcodeOf, Implemented;
    if m.ip < env.text.End() && Fetch(env.text, m.ip).Some? {
      var f := Fetch(env.text, m.ip).value;
      HandleStatus(env, m, f.instr, f.after);
    }
  }

  lemma HandleStatus<D>(env: Env<D>, m: Machine<D>, i: Instr, after: nat)
    requires m.Live()
    ensures var s := Handle(env, m, i, after).status; s.Running? || s.Halted? || s.Crashed?
  {
    hide ViewOf, Machine.LiveIds;
  }

  lemma SettleStatus<D>(env: Env<D>, m: Machine<D>)
    requires m.frames != []
    ensures var r := Settle(env, m); r.status == m.status || r.status.Unhandled?
    ensures m.thrown.None? ==> Settle(env, m) == m
  {
    hide TypesOf, Distance, Catching, TopmostFor, FirstCaught;
    var d := CatchDetailed(m);
    if d.thrown.Some? {
      var c := Catching(d.blocks, TypesOf(env, d.data, d.thrown.value.Type()));
      if c.Some? {
        DropFramesKeeps(env, d, Distance(d.frames, d.blocks[c.value].frame, |d.frames| - 1));
      }
    }
  }

  // When an instruction goes on somewhere else, the tick is that instruction.
  lemma TickGoes<D>(env: Env<D>, m: Machine<D>)
    requires m.Live() && Dispatch(env, m).Going() && Dispatch(env, m).frames != []
    requires Dispatch(env, m).ip < env.text.End() && Dispatch(env, m).ip != m.ip
    ensures Tick(env, m) == Dispatch(env, m)
  {
    hide Dispatch, Settle;
    TickOutcome(env, m);
  }
}
