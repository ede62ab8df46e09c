// Running bytecode does what running the source instructions does.
module Simulation {
  import opened Bytes
  import opened Opcodes
  import opened Instructions
  import opened Jumps
  import opened Scan
  import opened Disassembler
  import opened Machine
  import opened Stacks
  import opened Brackets
  import opened Addresses

  // ----- fetching -----

  lemma DecodeFixed(b: seq<Byte>, at: nat, i: Instr)
    requires i.Valid() && At(b, at, i) && i == i.Raw() && at < |b|
    requires !i.Text? && !i.Named? && !i.Attach? && !i.Catch?
    ensures Decode(b, at) == Some(i)
  {
    hide ReadOperand, ReadInt, Encode, At;
    OpcodeAt(b, at, i);
    OperandsAt(b, at, i);
    TargetsAt(b, at, i);
    ConstantsAt(b, at, i);
    BytesAt(b, at, i);
  }

  lemma BytesAt(b: seq<Byte>, at: nat, i: Instr)
    requires At(b, at, i)
    ensures i.ByteStore? ==> at + 8 <= |b| && b[at + 6] == if i.ref then 1 else 0
    ensures i.SelectRegisters? ==> at + 5 <= |b| && ReadInt(b, at + 1) == i.registerSet
  {
    var e := Encode(i);
    hide OperandBytes, ReadInt, IntBytes;
    if i.ByteStore? {
      assert e[6] == (if i.ref then 1 else 0) && b[at..at + |e|][6] == b[at + 6];
    } else if i.SelectRegisters? {
      assert e[1..5] == IntBytes(i.registerSet);
      NumberRead(b, at, e, 1, i.registerSet);
    }
  }

  lemma DecodeTexts(b: seq<Byte>, at: nat, i: Instr)
    requires i.Valid() && At(b, at, i) && at < |b|
    requires i.Text? || i.Named? || i.Attach? || i.Catch?
    ensures Decode(b, at) == Some(i)
  {
    hide ReadOperand, ReadInt, ReadText, TextLength, Encode, At;
    OpcodeAt(b, at, i);
    if i.Text? {
      TextOperandAt(b, at, i);
      TextAt(b, at, i);
    } else if i.Named? {
      NamedAt(b, at, i);
    } else if i.Attach? {
      TextOperandAt(b, at, i);
      AttachAt(b, at, i);
    } else {
      CatchAt(b, at, i);
    }
  }

  // What handlers move over is what the generator writes, but for the NUL of a single name.
  lemma ConsumedIsSize(i: Instr)
    requires i.Valid()
    ensures |Encode(i)| == Consumed(i) + (if i.Named? then 1 else 0)
  {
  }

  // The machine reads back the instruction that was written, and its handler ends where the next one
  // starts, or on the NUL in front of it.
  lemma FetchAt(b: seq<Byte>, at: nat, i: Instr)
    requires i.Valid() && At(b, at, i) && i == i.Raw()
    ensures Fetch(Bytecode(b), at) == Some(Fetched(i, at + |Encode(i)| - (if i.Named? then 1 else 0)))
  {
    hide Decode, Encode, At, Consumed;
    OpcodeAt(b, at, i);
    ConsumedIsSize(i);
    if i.Text? || i.Named? || i.Attach? || i.Catch? {
      DecodeTexts(b, at, i);
    } else {
      DecodeFixed(b, at, i);
    }
  }

  // ----- source states and bytecode states -----

  // The byte address of instruction k, also behind the last one.
  function Addr(exec: Code, k: nat): nat {
    if k <= |exec| then Instructions.Start(exec, k) else |EncodeAll(exec)| + (k - |exec|)
  }

  // The byte before instruction k.
  function Behind(exec: Code, k: nat): nat {
    if Addr(exec, k) > 0 then Addr(exec, k) - 1 else 0
  }

  // Where the handler of i ends when instruction k follows.
  function Landing(exec: Code, i: Instr, k: nat): nat {
    if i.Named? then Behind(exec, k) else Addr(exec, k)
  }

  function PlacedFrame(exec: Code, f: Frame): Frame {
    f.(return_ := Addr(exec, f.return_))
  }

  function PlacedCatchers(exec: Code, c: map<Name, nat>): map<Name, nat> {
    map t | t in c :: Addr(exec, c[t])
  }

  // A block returns to the NUL of its `enter`.
  function PlacedBlock(exec: Code, b: Block): Block {
    b.(return_ := Behind(exec, b.return_), catchers := PlacedCatchers(exec, b.catchers))
  }

  function PlacedFrames(exec: Code, fs: seq<Frame>): seq<Frame> {
    seq(|fs|, k requires 0 <= k < |fs| => PlacedFrame(exec, fs[k]))
  }

  function PlacedBlocks(exec: Code, bs: seq<Block>): seq<Block> {
    seq(|bs|, k requires 0 <= k < |bs| => PlacedBlock(exec, bs[k]))
  }

  // The bytecode machine that corresponds to a source machine: the same but for addresses.
  function Placed<D>(exec: Code, m: Machine<D>): Machine<D> {
    m.(ip := Addr(exec, m.ip),
       frames := PlacedFrames(exec, m.frames),
       pending := if m.pending.Some? then Some(PlacedFrame(exec, m.pending.value)) else None,
       blocks := PlacedBlocks(exec, m.blocks),
       pendingBlock := if m.pendingBlock.Some? then Some(PlacedBlock(exec, m.pendingBlock.value)) else None)
  }

  // The same one byte earlier, on the NUL in front of the instruction.
  function OnNul<D>(exec: Code, m: Machine<D>): Machine<D> {
    Placed(exec, m).(ip := Behind(exec, m.ip))
  }

  function PlacedNames(exec: Code, names: map<Name, nat>): (r: map<Name, nat>)
    ensures r.Keys == names.Keys && forall t <- names :: r[t] == Addr(exec, names[t])
  {
    map t | t in names :: Addr(exec, names[t])
  }

  lemma PlacedTop<D>(exec: Code, m: Machine<D>)
    ensures |Placed(exec, m).frames| == |m.frames|
    ensures m.frames != [] ==> Placed(exec, m).Top() == PlacedFrame(exec, m.Top())
    ensures m.frames != [] ==>
              Placed(exec, m).Top().id == m.Top().id && Placed(exec, m).Top().name == m.Top().name
    ensures |Placed(exec, m).blocks| == |m.blocks|
    ensures m.blocks != [] ==> Placed(exec, m).TopBlock() == PlacedBlock(exec, m.TopBlock())
  {
    hide Addr, Behind, PlacedBlock;
  }

  function PlacedEnv<D>(exec: Code, env: Env<D>): Env<D> {
    Env(Bytecode(EncodeAll(exec)), PlacedNames(exec, env.functions), PlacedNames(exec, env.blocks), env.sem)
  }

  // A source program and its executable code: every target is an index of an instruction.
  predicate TargetsIn(i: Instr, n: nat) {
    match i
    case Jump(t, k) => k != ToByte && 0 <= t < n
    case Branch(_, t, tk, f, fk) => tk != ToByte && fk != ToByte && 0 <= t < n && 0 <= f < n
    case _ => true
  }

  ghost predicate Runs<D>(env: Env<D>, exec: Code) {
    && env.text.Indexed? && ValidCode(env.text.code) && Compiled(env.text.code, exec)
    && |EncodeAll(exec)| < 0x8000_0000
    && forall k | 0 <= k < |env.text.code| :: TargetsIn(env.text.code[k], |env.text.code|)
  }

  lemma AddrMonotone(exec: Code, j: nat, k: nat)
    requires j < k
    ensures Addr(exec, j) < Addr(exec, k)
  {
    hide EncodeAll, Instructions.Start;
    if k <= |exec| {
      StartMonotone(exec, j, k);
    } else {
      StartOfEnd(exec);
      if j < |exec| {
        StartMonotone(exec, j, |exec|);
      }
    }
  }

  lemma AddrInjective(exec: Code, j: nat, k: nat)
    ensures Addr(exec, j) == Addr(exec, k) <==> j == k
    ensures Addr(exec, j) >= |EncodeAll(exec)| <==> j >= |exec|
  {
    hide EncodeAll, Addr, Instructions.Start;
    if j < k {
      AddrMonotone(exec, j, k);
    } else if k < j {
      AddrMonotone(exec, k, j);
    }
    AddrOfEnd(exec);
    if j < |exec| {
      AddrMonotone(exec, j, |exec|);
    } else if j > |exec| {
      AddrMonotone(exec, |exec|, j);
    }
  }

  lemma AddrOfEnd(exec: Code)
    ensures Addr(exec, |exec|) == |EncodeAll(exec)|
  {
    StartOfEnd(exec);
  }

  // Instruction k of the source and what lies at its address.
  lemma Counterpart<D>(env: Env<D>, exec: Code, k: nat)
    requires Runs(env, exec) && k < |env.text.code|
    ensures var i, j, b := env.text.code[k], exec[k], EncodeAll(exec);
            && j == AtAddresses(exec, i) && j.Valid() && j.Opcode() == i.Opcode()
            && Addr(exec, k) < |b| && b[Addr(exec, k)] == i.Opcode()
            && |Encode(j)| > 0 && Addr(exec, k + 1) == Addr(exec, k) + |Encode(j)| <= |b|
            && Fetch(Bytecode(b), Addr(exec, k)) == Some(Fetched(j, Landing(exec, i, k + 1)))
  {
    hide Encode, EncodeAll, Fetch, Instructions.Start, At;
    var j := exec[k];
    LayoutOf(exec, k);
    CodeAt(exec, k);
    OpcodeAt(EncodeAll(exec), Addr(exec, k), j);
    FetchAt(EncodeAll(exec), Addr(exec, k), j);
  }

  lemma TargetAddress<D>(env: Env<D>, exec: Code, t: Int32)
    requires Runs(env, exec) && 0 <= t < |exec|
    ensures ByteAddress(exec, t, 0) == Addr(exec, t)
  {
    hide EncodeAll, Instructions.Start;
    StartMonotone(exec, t, |exec|);
  }

  // ----- instructions in both machines -----

  lemma SameView<D>(env: Env<D>, exec: Code, m: Machine<D>)
    requires m.frames != []
    ensures ViewOf(PlacedEnv(exec, env), Placed(exec, m)) == ViewOf(env, m)
    ensures Placed(exec, m).LiveIds() == m.LiveIds()
  {
    hide Addr, Behind, PlacedEnv;
    var p := Placed(exec, m);
    PlacedTop(exec, m);
    assert (set k | 0 <= k < |p.frames| :: p.frames[k].id) == (set k | 0 <= k < |m.frames| :: m.frames[k].id) by {
      forall k | 0 <= k < |m.frames|
        ensures p.frames[k].id == m.frames[k].id
      {
      }
    }
    assert PlacedEnv(exec, env).sem == env.sem by {
      SameSemantics(env, exec);
    }
  }

  lemma SameSemantics<D>(env: Env<D>, exec: Code)
    ensures PlacedEnv(exec, env).sem == env.sem
    ensures PlacedEnv(exec, env).functions == PlacedNames(exec, env.functions)
    ensures PlacedEnv(exec, env).blocks == PlacedNames(exec, env.blocks)
    ensures PlacedEnv(exec, env).text == Bytecode(EncodeAll(exec))
  {
  }

  lemma FramesPush(exec: Code, fs: seq<Frame>, f: Frame)
    ensures PlacedFrames(exec, fs + [f]) == PlacedFrames(exec, fs) + [PlacedFrame(exec, f)]
  {
    hide Addr;
  }

  lemma FramesPrefix(exec: Code, fs: seq<Frame>, n: nat)
    requires n <= |fs|
    ensures PlacedFrames(exec, fs[..n]) == PlacedFrames(exec, fs)[..n]
  {
    hide Addr;
  }

  lemma BlocksPush(exec: Code, bs: seq<Block>, b: Block)
    ensures PlacedBlocks(exec, bs + [b]) == PlacedBlocks(exec, bs) + [PlacedBlock(exec, b)]
  {
    hide PlacedBlock;
  }

  lemma BlocksPrefix(exec: Code, bs: seq<Block>, n: nat)
    requires n <= |bs|
    ensures PlacedBlocks(exec, bs[..n]) == PlacedBlocks(exec, bs)[..n]
  {
    hide PlacedBlock;
  }

  lemma SimRun<D>(env: Env<D>, exec: Code, m: Machine<D>, i: Instr)
    requires m.Live()
    ensures Run(PlacedEnv(exec, env), Placed(exec, m), i) == Placed(exec, Run(env, m, i))
  {
    hide ViewOf, PlacedEnv, Addr, Behind, PlacedFrames, PlacedBlocks;
    SameView(env, exec, m);
    SameSemantics(env, exec);
  }

  lemma SimOrdinary<D>(env: Env<D>, exec: Code, m: Machine<D>, i: Instr, next: nat)
    requires m.Live()
    ensures var r := Ordinary(env, m, i, next);
            && Ordinary(PlacedEnv(exec, env), Placed(exec, m), i, Addr(exec, next)) == Placed(exec, r)
            && Ordinary(PlacedEnv(exec, env), Placed(exec, m), i, Behind(exec, next)) ==
               if r.Going() then OnNul(exec, r) else Placed(exec, r)
  {
    hide ViewOf, PlacedEnv, Addr, Behind, Run, PlacedFrames, PlacedBlocks;
    SimRun(env, exec, m, i);
  }

  lemma SimFrame<D>(env: Env<D>, exec: Code, m: Machine<D>, i: Instr, next: nat)
    requires m.Live()
    ensures NewFrame(PlacedEnv(exec, env), Placed(exec, m), i, Addr(exec, next)) == Placed(exec, NewFrame(env, m, i, next))
  {
    hide ViewOf, PlacedEnv, Addr, Behind, Run, PlacedFrames, PlacedBlocks;
    SimRun(env, exec, m, i);
    SameView(env, exec, m);
    SameSemantics(env, exec);
    AddrZero(exec);
  }

  lemma AddrZero(exec: Code)
    ensures Addr(exec, 0) == 0 && Behind(exec, 0) == 0
  {
    StartZero(exec);
  }

  lemma SimPush<D>(exec: Code, m: Machine<D>)
    requires m.pending.Some?
    ensures PushFrame(Placed(exec, m)) == Placed(exec, PushFrame(m))
  {
    hide Addr, Behind;
    FramesPush(exec, m.frames, m.pending.value);
    var p := Placed(exec, m);
    assert (exists k | 0 <= k < |p.frames| :: p.frames[k].id == p.pending.value.id) <==>
           (exists k | 0 <= k < |m.frames| :: m.frames[k].id == m.pending.value.id) by {
      assert forall k | 0 <= k < |m.frames| :: p.frames[k].id == m.frames[k].id;
    }
  }

  lemma SimDrop<D>(env: Env<D>, exec: Code, m: Machine<D>)
    requires m.frames != []
    ensures DropFrame(PlacedEnv(exec, env), Placed(exec, m)) == Placed(exec, DropFrame(env, m))
  {
    hide Addr, Behind, PlacedEnv, PlacedFrames, PlacedBlocks, PlacedFrame, PlacedBlock;
    SameSemantics(env, exec);
    var n := |m.frames| - 1;
    FramesPrefix(exec, m.frames, n);
    PlacedTop(exec, m);
    PlacedTop(exec, m.(frames := m.frames[..n]));
  }

  lemma SimEnter<D>(env: Env<D>, exec: Code, m: Machine<D>, next: nat, c: Callee)
    requires m.Live() && c.Calls?
    ensures Enter(PlacedEnv(exec, env), Placed(exec, m), Addr(exec, next), c) == Placed(exec, Enter(env, m, next, c))
  {
    hide Addr, Behind, PlacedEnv, PushFrame, PlacedFrames, PlacedBlocks;
    SameSemantics(env, exec);
    if c.name in env.functions && m.pending.Some? {
      var f := m.pending.value.(name := c.name, return_ := next, resolve := c.resolve, result := c.result);
      SimPush(exec, m.(pending := Some(f)));
    }
  }

  lemma SimCall<D>(env: Env<D>, exec: Code, m: Machine<D>, i: Instr, next: nat)
    requires m.Live()
    ensures Call(PlacedEnv(exec, env), Placed(exec, m), i, Addr(exec, next)) == Placed(exec, Call(env, m, i, next))
  {
    hide Addr, Behind, PlacedEnv, Enter, ViewOf, PlacedFrames, PlacedBlocks, PlacedFrame, PlacedBlock, Machine.LiveIds;
    PlacedTop(exec, m);
    SameView(env, exec, m);
    SameSemantics(env, exec);
    var c := if i.Text? && i.op == CALL then Calls(i.text, i.a.ref, i.a.index, None)
             else env.sem.callee(i, ViewOf(env, m), m.data);
    if c.Calls? {
      SimEnter(env, exec, m, next, c);
    }
  }

  lemma SimReturn<D>(env: Env<D>, exec: Code, m: Machine<D>, o: Object, f: Frame)
    ensures EndWith(PlacedEnv(exec, env), Placed(exec, m), o, PlacedFrame(exec, f)) ==
            Placed(exec, EndWith(env, m, o, f))
  {
    hide Addr, Behind, PlacedEnv, ViewOf, PlacedFrames, PlacedBlocks, PlacedBlock, Machine.LiveIds;
    SameSemantics(env, exec);
    PlacedTop(exec, m);
    if m.frames != [] {
      SameView(env, exec, m);
    }
  }

  lemma SimEnd<D>(env: Env<D>, exec: Code, m: Machine<D>)
    requires m.Live()
    ensures End(PlacedEnv(exec, env), Placed(exec, m)) == Placed(exec, End(env, m))
  {
    hide Addr, Behind, PlacedEnv, DropFrame, ViewOf, PlacedFrames, PlacedBlocks, EndWith;
    SameView(env, exec, m);
    SameSemantics(env, exec);
    PlacedTop(exec, m);
    if m.Top().result == 0 {
      SimDrop(env, exec, m);
    } else {
      match env.sem.take(ViewOf(env, m), m.data) {
        case Taken(d, o) =>
          SimDrop(env, exec, m.(data := d));
          SimReturn(env, exec, DropFrame(env, m.(data := d)), o, m.Top());
        case _ =>
      }
    }
  }

  lemma SimTry<D>(exec: Code, m: Machine<D>, next: nat)
    ensures Try(Placed(exec, m), Addr(exec, next)) == Placed(exec, Try(m, next))
  {
    hide Addr, Behind, PlacedFrames, PlacedBlocks;
    AddrZero(exec);
    assert PlacedCatchers(exec, map[]) == map[];
  }

  lemma SimRegister<D>(env: Env<D>, exec: Code, m: Machine<D>, type_: Name, name: Name, next: nat)
    ensures Register(PlacedEnv(exec, env), Placed(exec, m), type_, name, Addr(exec, next)) ==
            Placed(exec, Register(env, m, type_, name, next))
  {
    hide Addr, Behind, PlacedEnv, PlacedFrames, PlacedBlocks;
    SameSemantics(env, exec);
    if name in env.blocks && m.pendingBlock.Some? {
      var b := m.pendingBlock.value;
      assert PlacedCatchers(exec, b.catchers[type_ := env.blocks[name]]) ==
             PlacedCatchers(exec, b.catchers)[type_ := Addr(exec, env.blocks[name])];
    }
  }

  lemma SimEnterBlock<D>(env: Env<D>, exec: Code, m: Machine<D>, name: Name, next: nat)
    requires m.Live()
    ensures EnterBlock(PlacedEnv(exec, env), Placed(exec, m), name, Behind(exec, next)) ==
            Placed(exec, EnterBlock(env, m, name, next))
  {
    hide Addr, Behind, PlacedEnv, PlacedFrames, PlacedBlocks, PlacedCatchers;
    SameSemantics(env, exec);
    PlacedTop(exec, m);
    if name in env.blocks && m.pendingBlock.Some? {
      BlocksPush(exec, m.blocks, m.pendingBlock.value.(return_ := next, frame := m.Top().id, name := name));
    }
  }

  lemma SimLeave<D>(exec: Code, m: Machine<D>)
    ensures Leave(Placed(exec, m)) == if m.blocks == [] then Placed(exec, Leave(m)) else OnNul(exec, Leave(m))
  {
    hide Addr, Behind, PlacedFrames, PlacedBlocks;
    PlacedTop(exec, m);
    if m.blocks != [] {
      BlocksPrefix(exec, m.blocks, |m.blocks| - 1);
    }
  }

  lemma SimThrow<D>(env: Env<D>, exec: Code, m: Machine<D>, i: Instr, next: nat)
    requires m.Live()
    ensures ThrowObject(PlacedEnv(exec, env), Placed(exec, m), i, Addr(exec, next)) ==
            Placed(exec, ThrowObject(env, m, i, next))
  {
    hide Addr, Behind, PlacedEnv, ViewOf, Run, PlacedFrames, PlacedBlocks, PlacedFrame, PlacedBlock, Machine.LiveIds;
    SameSemantics(env, exec);
    SameView(env, exec, m);
    PlacedTop(exec, m);
  }

  lemma SimPull<D>(env: Env<D>, exec: Code, m: Machine<D>, i: Instr, next: nat)
    requires m.Live()
    ensures Pull(PlacedEnv(exec, env), Placed(exec, m), i, Addr(exec, next)) == Placed(exec, Pull(env, m, i, next))
  {
    hide Addr, Behind, PlacedEnv, ViewOf, Run, PlacedFrames, PlacedBlocks, PlacedFrame, PlacedBlock, Machine.LiveIds;
    SameSemantics(env, exec);
    PlacedTop(exec, m);
    if m.caught.None? {
      SimRun(env, exec, m, i);
    } else {
      SameView(env, exec, m);
    }
  }

  lemma SimSelect<D>(env: Env<D>, exec: Code, m: Machine<D>, i: Instr, n: Int32, next: nat)
    requires m.Live()
    ensures Select(PlacedEnv(exec, env), Placed(exec, m), i, n, Addr(exec, next)) == Placed(exec, Select(env, m, i, n, next))
  {
    hide Addr, Behind, PlacedEnv, ViewOf, Run, PlacedFrames, PlacedBlocks, PlacedFrame, PlacedBlock, Machine.LiveIds;
    SimRun(env, exec, m, i);
    PlacedTop(exec, m);
  }

  lemma SimBranch<D>(env: Env<D>, exec: Code, m: Machine<D>, c: Operand, yes: Int32, no: Int32)
    requires m.Live() && Runs(env, exec) && 0 <= yes < |exec| && 0 <= no < |exec|
    ensures BranchTo(PlacedEnv(exec, env), Placed(exec, m), c, ByteAddress(exec, yes, 0), ByteAddress(exec, no, 0)) ==
            Placed(exec, BranchTo(env, m, c, yes, no))
  {
    hide Addr, Behind, PlacedEnv, ViewOf, Runs, ByteAddress, PlacedFrames, PlacedBlocks, PlacedFrame, PlacedBlock,
      Machine.LiveIds;
    PlacedTop(exec, m);
    SameSemantics(env, exec);
    SameView(env, exec, m);
    TargetAddress(env, exec, yes);
    TargetAddress(env, exec, no);
  }

  // No instruction starts right behind the opcode of a jump, so no jump is taken for one to itself.
  lemma NotIntoJump<D>(env: Env<D>, exec: Code, k: nat, t: nat)
    requires Runs(env, exec) && k < |exec| && exec[k].Jump?
    ensures Addr(exec, t) != Addr(exec, k) + 1
  {
    hide Addr, Runs;
    JumpLength(env, exec, k);
    if t > k + 1 {
      AddrMonotone(exec, k + 1, t);
    } else if t < k {
      AddrMonotone(exec, t, k);
    }
  }

  lemma SimJump<D>(env: Env<D>, exec: Code, m: Machine<D>, t: Int32)
    requires m.Live() && Runs(env, exec) && 0 <= t < |exec| && m.ip < |exec| && exec[m.ip].Jump?
    ensures JumpTo(PlacedEnv(exec, env), Placed(exec, m), ByteAddress(exec, t, 0)) == Placed(exec, JumpTo(env, m, t))
  {
    hide Addr, Behind, PlacedEnv, Runs, ByteAddress, PlacedFrames, PlacedBlocks;
    SameSemantics(env, exec);
    TargetAddress(env, exec, t);
    NotIntoJump(env, exec, m.ip, t);
    IsIndexed(env, exec);
  }

  lemma IsIndexed<D>(env: Env<D>, exec: Code)
    requires Runs(env, exec)
    ensures env.text.Indexed? && env.text.End() == |exec|
  {
  }

  lemma JumpLength<D>(env: Env<D>, exec: Code, k: nat)
    requires Runs(env, exec) && k < |exec| && exec[k].Jump?
    ensures Addr(exec, k + 1) == Addr(exec, k) + 5
  {
    hide EncodeAll, Addr, Fetch;
    Counterpart(env, exec, k);
  }

  // An instruction after which the bytecode machine is one NUL behind: an `import`, a `link` or a
  // `leave` that goes through.
  predicate Lags<D>(env: Env<D>, m: Machine<D>)
    requires env.text.Indexed?
  {
    && m.Live() && m.ip < |env.text.code|
    && Dispatch(env, m).Going()
    && var op := env.text.code[m.ip].Opcode();
       op == IMPORT || op == LINK || op == LEAVE
  }

  function Reached<D>(exec: Code, m: Machine<D>, lags: bool): Machine<D> {
    if lags then OnNul(exec, m) else Placed(exec, m)
  }

  lemma SimBare<D>(env: Env<D>, exec: Code, m: Machine<D>, op: Byte, next: nat)
    requires m.Live()
    ensures var r := HandleBare(env, m, op, next);
            HandleBare(PlacedEnv(exec, env), Placed(exec, m), op, Addr(exec, next)) ==
            Reached(exec, r, op == LEAVE && r.Going())
  {
    hide Addr, Behind, PlacedEnv, End, Try, PlacedFrames, PlacedBlocks;
    PlacedTop(exec, m);
    SimEnd(env, exec, m);
    SimTry(exec, m, next);
    SimLeave(exec, m);
  }

  lemma SimHandle<D>(env: Env<D>, exec: Code, m: Machine<D>, i: Instr, next: nat)
    requires m.Live() && Runs(env, exec) && TargetsIn(i, |exec|) && i.Valid()
    requires i.Jump? ==> m.ip < |exec| && exec[m.ip].Jump?
    ensures var r := Handle(env, m, i, next); var op := i.Opcode();
            Handle(PlacedEnv(exec, env), Placed(exec, m), AtAddresses(exec, i), Landing(exec, i, next)) ==
            Reached(exec, r, (op == LEAVE || op == IMPORT || op == LINK) && r.Going())
  {
    hide Addr, Behind, PlacedEnv, HandleBare, Call, EnterBlock, NewFrame, ThrowObject, Pull, Ordinary, Select, Register,
      JumpTo, BranchTo, Runs, ByteAddress, Placed, OnNul, Machine.Live, Machine.Going;
    PlacedLive(exec, m);
    if i.Bare? {
      SimBare(env, exec, m, i.op, next);
    } else if i.Jump? {
      SimJump(env, exec, m, i.target);
    } else if i.Branch? {
      SimBranch(env, exec, m, i.condition, i.ifTrue, i.ifFalse);
    } else if i.SelectRegisters? {
      SimSelect(env, exec, m, i, i.registerSet, next);
    } else if i.Catch? {
      SimRegister(env, exec, m, i.type_, i.block, next);
    } else if i.Named? {
      SimEnterBlock(env, exec, m, i.name, next);
      SimOrdinary(env, exec, m, i, next);
    } else {
      SimCall(env, exec, m, i, next);
      SimFrame(env, exec, m, i, next);
      SimThrow(env, exec, m, i, next);
      SimPull(env, exec, m, i, next);
      SimOrdinary(env, exec, m, i, next);
    }
  }

  lemma PlacedLive<D>(exec: Code, m: Machine<D>)
    ensures Placed(exec, m).frames == [] <==> m.frames == []
    ensures Placed(exec, m).Live() <==> m.Live()
  {
    PlacedTop(exec, m);
  }

  // One instruction, in the source and at its address in the bytecode.
  lemma SimDispatch<D>(env: Env<D>, exec: Code, m: Machine<D>)
    requires m.Live() && Runs(env, exec)
    ensures Dispatch(PlacedEnv(exec, env), Placed(exec, m)) == Reached(exec, Dispatch(env, m), Lags(env, m))
  {
    hide Addr, Behind, PlacedEnv, Handle, EncodeAll, Encode, TargetsIn, AtAddresses, Decode, PlacedFrames,
      PlacedBlocks, PlacedFrame, PlacedBlock;
    PlacedTop(exec, m);
    SameSemantics(env, exec);
    AddrInjective(exec, m.ip, m.ip);
    if m.ip < |env.text.code| {
      var i := env.text.code[m.ip];
      Counterpart(env, exec, m.ip);
      JumpKept(exec, i);
      SimHandle(env, exec, m, i, m.ip + 1);
    }
  }

  lemma JumpKept(exec: Code, i: Instr)
    ensures i.Jump? <==> AtAddresses(exec, i).Jump?
  {
  }

  // ----- handlers and unwinding in both machines -----

  lemma SimTopmost(exec: Code, bs: seq<Block>, t: Name)
    ensures TopmostFor(PlacedBlocks(exec, bs), t) == TopmostFor(bs, t)
  {
    hide Addr, Behind;
    var p := PlacedBlocks(exec, bs);
    forall k | 0 <= k < |bs|
      ensures t in p[k].catchers <==> t in bs[k].catchers
    {
    }
    var r, s := TopmostFor(p, t), TopmostFor(bs, t);
    assert r.Some? ==> t in bs[r.value].catchers;
    assert s.Some? ==> t in p[s.value].catchers;
  }

  lemma {:induction false} SimFirst(exec: Code, c: map<Name, nat>, types: seq<Name>)
    ensures FirstCaught(PlacedCatchers(exec, c), types) == FirstCaught(c, types)
  {
    hide Addr;
    if types != [] {
      SimFirst(exec, c, types[1..]);
    }
  }

  lemma {:induction false} SimCatching(exec: Code, bs: seq<Block>, types: seq<Name>)
    ensures Catching(PlacedBlocks(exec, bs), types) == Catching(bs, types)
  {
    hide Addr, Behind, PlacedCatchers, FirstCaught;
    if bs != [] {
      var n := |bs| - 1;
      BlocksPrefix(exec, bs, n);
      SimCatching(exec, bs[..n], types);
      SimFirst(exec, bs[n].catchers, types);
      assert PlacedBlocks(exec, bs)[n] == PlacedBlock(exec, bs[n]);
    }
  }

  lemma {:induction false} SimDropFrames<D>(env: Env<D>, exec: Code, m: Machine<D>, n: nat)
    requires n <= |m.frames| == |Placed(exec, m).frames|
    ensures DropFrames(PlacedEnv(exec, env), Placed(exec, m), n) == Placed(exec, DropFrames(env, m, n))
    decreases n
  {
    hide Placed, PlacedEnv, DropFrame, DropFrames;
    DropOneMore(env, m, n);
    DropOneMore(PlacedEnv(exec, env), Placed(exec, m), n);
    if n > 0 {
      SimDrop(env, exec, m);
      DropLength(env, exec, m);
      SimDropFrames(env, exec, DropFrame(env, m), n - 1);
    }
  }

  lemma DropLength<D>(env: Env<D>, exec: Code, m: Machine<D>)
    requires m.frames != []
    ensures Placed(exec, m).frames != [] && |DropFrame(env, m).frames| == |m.frames| - 1
    ensures |Placed(exec, DropFrame(env, m)).frames| == |m.frames| - 1
  {
    hide Addr, Behind, PlacedBlocks;
  }

  lemma {:induction false} SimDistance(exec: Code, fs: seq<Frame>, id: nat, j: nat)
    requires j < |fs| == |PlacedFrames(exec, fs)|
    ensures Distance(PlacedFrames(exec, fs), id, j) == Distance(fs, id, j)
  {
    hide Addr;
    if j > 1 && fs[j].id != id {
      SimDistance(exec, fs, id, j - 1);
    }
  }

  lemma SimUnwind<D>(env: Env<D>, exec: Code, m: Machine<D>, k: nat, t: Name)
    requires m.frames != [] && k < |m.blocks| && t in m.blocks[k].catchers
    ensures var p := Placed(exec, m);
            && p.frames != [] && k < |p.blocks| && t in p.blocks[k].catchers
            && UnwindTo(PlacedEnv(exec, env), p, k, t) == Placed(exec, UnwindTo(env, m, k, t))
  {
    hide Addr, Behind, PlacedEnv, DropFrames, PlacedFrames, Distance;
    PlacedTop(exec, m);
    var p := Placed(exec, m);
    assert p.blocks[k] == PlacedBlock(exec, m.blocks[k]);
    SimDistance(exec, m.frames, m.blocks[k].frame, |m.frames| - 1);
    var n := Distance(m.frames, m.blocks[k].frame, |m.frames| - 1);
    SimDropFrames(env, exec, m, n);
    BlocksPrefix(exec, m.blocks, k + 1);
  }

  lemma SimDetailed<D>(exec: Code, m: Machine<D>)
    ensures CatchDetailed(Placed(exec, m)) == Placed(exec, CatchDetailed(m))
    ensures CatchDetailed(m).frames == m.frames
  {
    hide Addr, Behind, PlacedFrames, TopmostFor;
    if m.thrown.Some? {
      SimTopmost(exec, m.blocks, m.thrown.value.Detailed());
      TopmostInside(m.blocks, m.thrown.value.Detailed());
    }
  }

  lemma TopmostInside(bs: seq<Block>, t: Name)
    ensures var r := TopmostFor(bs, t); r.Some? ==> r.value < |bs| && t in bs[r.value].catchers
  {
  }

  lemma SimByType<D>(env: Env<D>, exec: Code, m: Machine<D>)
    requires m.frames != []
    ensures Placed(exec, m).frames != []
    ensures CatchByType(PlacedEnv(exec, env), Placed(exec, m)) == Placed(exec, CatchByType(env, m))
  {
    hide Addr, Behind, PlacedEnv, UnwindTo, PlacedFrames, PlacedCatchers, FirstCaught;
    PlacedTop(exec, m);
    SameSemantics(env, exec);
    if m.thrown.Some? {
      var types := TypesOf(env, m.data, m.thrown.value.Type());
      SimCatching(exec, m.blocks, types);
      var c := Catching(m.blocks, types);
      if c.Some? {
        SimFirst(exec, m.blocks[c.value].catchers, types);
        SimUnwind(env, exec, m, c.value, types[FirstCaught(m.blocks[c.value].catchers, types).value]);
      }
    }
  }

  lemma SimSettle<D>(env: Env<D>, exec: Code, m: Machine<D>)
    requires m.frames != []
    ensures Placed(exec, m).frames != []
    ensures Settle(PlacedEnv(exec, env), Placed(exec, m)) == Placed(exec, Settle(env, m))
  {
    hide Addr, Behind, PlacedEnv, CatchByType, CatchDetailed, PlacedFrames, PlacedBlocks;
    PlacedTop(exec, m);
    SimDetailed(exec, m);
    SimByType(env, exec, CatchDetailed(m));
  }

  // ----- ticks in both machines -----

  // What a tick adds when the bytecode machine is not behind.
  lemma SimAfter<D>(env: Env<D>, exec: Code, d: Machine<D>, k: nat)
    requires Runs(env, exec) && k < |env.text.code|
    requires env.text.code[k].Opcode() == LEAVE ==> d.thrown.Some?
    ensures After(PlacedEnv(exec, env), Placed(exec, d), Addr(exec, k)) == Placed(exec, After(env, d, k))
  {
    hide Addr, Behind, PlacedEnv, Settle, PlacedFrames, PlacedBlocks, PlacedFrame, PlacedBlock, EncodeAll, Compiled, Fetch;
    PlacedTop(exec, d);
    SameSemantics(env, exec);
    AddrInjective(exec, d.ip, k);
    Counterpart(env, exec, k);
    assert |exec| == |env.text.code| by {
      IsIndexed(env, exec);
    }
    if d.frames != [] {
      SimSettle(env, exec, d);
    }
  }

  // Every open block returns right behind an `enter`.
  predicate EntersSaved<D>(env: Env<D>, m: Machine<D>)
    requires env.text.Indexed?
  {
    forall k | 0 <= k < |m.blocks| ::
      var r := m.blocks[k].return_;
      0 < r <= |env.text.code| && env.text.code[r - 1].Opcode() == ENTER
  }

  lemma NamedEndsInNul(i: Instr)
    requires i.Named?
    ensures |Encode(i)| >= 2 && Encode(i)[|Encode(i)| - 1] == 0
  {
  }

  lemma LastByte(b: seq<Byte>, from: nat, to: nat, e: seq<Byte>)
    requires from < to <= |b| && b[from..to] == e
    ensures e[|e| - 1] == b[to - 1]
  {
  }

  // The byte in front of what follows an instruction with a name: a NUL inside that instruction.
  lemma NulBehind<D>(env: Env<D>, exec: Code, k: nat)
    requires Runs(env, exec) && k < |env.text.code| && env.text.code[k].Named?
    ensures Addr(exec, k) < Behind(exec, k + 1) < |EncodeAll(exec)| && Behind(exec, k + 1) + 1 == Addr(exec, k + 1)
    ensures EncodeAll(exec)[Behind(exec, k + 1)] == 0
  {
    hide EncodeAll, Encode, Instructions.Start, Fetch;
    Counterpart(env, exec, k);
    Layout(exec, k);
    NamedEndsInNul(exec[k]);
    LastByte(EncodeAll(exec), Addr(exec, k), Addr(exec, k + 1), Encode(exec[k]));
  }

  lemma BehindIsNoStart<D>(env: Env<D>, exec: Code, k: nat, j: nat)
    requires Runs(env, exec) && k < |env.text.code| && env.text.code[k].Named?
    ensures Behind(exec, k + 1) != Addr(exec, j)
  {
    hide Addr, Behind, Runs, EncodeAll;
    NulBehind(env, exec, k);
    if j < k {
      AddrMonotone(exec, j, k);
    } else if j > k + 1 {
      AddrMonotone(exec, k + 1, j);
    }
  }

  lemma FetchNul(b: seq<Byte>, at: nat)
    requires at < |b| && b[at] == 0
    ensures Fetch(Bytecode(b), at) == Some(Fetched(Bare(NOP), at + 1))
  {
  }

  // A machine on the NUL behind instruction k runs a NOP to the next one.
  lemma SimNop<D>(env: Env<D>, exec: Code, d: Machine<D>, k: nat)
    requires Runs(env, exec) && k < |env.text.code| && env.text.code[k].Named? && d.ip == k + 1 && d.Live()
    ensures Tick(PlacedEnv(exec, env), OnNul(exec, d)) ==
            Placed(exec, if d.ip >= |env.text.code| then d.(status := OutOfBounds) else d)
  {
    hide Addr, Behind, PlacedEnv, PlacedFrames, PlacedBlocks, EncodeAll, Compiled, Fetch, PlacedFrame, PlacedBlock,
      CatchByType;
    SameSemantics(env, exec);
    PlacedTop(exec, d);
    NulBehind(env, exec, k);
    FetchNul(EncodeAll(exec), Behind(exec, k + 1));
    AddrInjective(exec, d.ip, 0);
    assert |exec| == |env.text.code| by {
      IsIndexed(env, exec);
    }
    var e, p := PlacedEnv(exec, env), OnNul(exec, d);
    assert Dispatch(e, p) == Placed(exec, d);
    QuietTick(e, p, Placed(exec, d));
  }

  lemma QuietTick<D>(env: Env<D>, m: Machine<D>, d: Machine<D>)
    requires m.Live() && Dispatch(env, m) == d && d.Live() && d.ip != m.ip
    ensures Tick(env, m) == if d.ip >= env.text.End() then d.(status := OutOfBounds) else d
  {
    hide Dispatch;
  }

  // After an instruction that leaves the bytecode machine on a NUL it takes one more tick.
  lemma SimLag<D>(env: Env<D>, exec: Code, m: Machine<D>)
    requires m.Live() && Runs(env, exec) && EntersSaved(env, m) && Lags(env, m)
    ensures Tick(PlacedEnv(exec, env), Placed(exec, m)) == OnNul(exec, Dispatch(env, m))
    ensures Tick(PlacedEnv(exec, env), OnNul(exec, Dispatch(env, m))) == Placed(exec, Tick(env, m))
  {
    hide Addr, Behind, PlacedEnv, PlacedFrames, PlacedBlocks, EncodeAll, Compiled, Fetch, PlacedFrame, PlacedBlock, CatchByType,
      Dispatch, Instr.Valid;
    SameSemantics(env, exec);
    var d, e := Dispatch(env, m), PlacedEnv(exec, env);
    LagTarget(env, exec, m);
    var k := d.ip - 1;
    SimDispatch(env, exec, m);
    PlacedTop(exec, m);
    PlacedTop(exec, d);
    NulBehind(env, exec, k);
    BehindIsNoStart(env, exec, k, m.ip);
    QuietTick(e, Placed(exec, m), OnNul(exec, d));
    SimNop(env, exec, d, k);
    QuietAfter(env, d, m.ip);
    assert Tick(env, m) == After(env, d, m.ip);
  }

  lemma DispatchAt<D>(env: Env<D>, m: Machine<D>)
    requires m.Live() && env.text.Indexed? && m.ip < |env.text.code| && Implemented(env.text.code[m.ip].Opcode())
    ensures Dispatch(env, m) == Handle(env, m, env.text.code[m.ip], m.ip + 1)
  {
    hide Handle;
  }

  lemma NamedGoes<D>(env: Env<D>, m: Machine<D>, i: Instr, next: nat)
    requires m.Live() && i.Named? && i.op != ENTER && Handle(env, m, i, next).Going()
    ensures Handle(env, m, i, next).ip == next && Handle(env, m, i, next).Live()
  {
    hide ViewOf;
  }

  lemma LeaveGoes<D>(env: Env<D>, m: Machine<D>, i: Instr, next: nat)
    requires m.Live() && i == Bare(LEAVE)
    ensures var d := Handle(env, m, i, next);
            && (d.Going() <==> m.blocks != []) && (d.Going() || d.thrown.Some?)
            && (d.Going() ==> d.Live() && d.ip == m.TopBlock().return_)
  {
  }

  lemma ShapeOf(i: Instr)
    requires i.Valid()
    ensures i.Opcode() == LEAVE ==> i == Bare(LEAVE)
    ensures i.Opcode() == ENTER || i.Opcode() == IMPORT || i.Opcode() == LINK ==> i.Named?
  {
  }

  // Where a lagging instruction goes: right behind itself or behind the `enter` of its block.
  lemma LagTarget<D>(env: Env<D>, exec: Code, m: Machine<D>)
    requires m.Live() && Runs(env, exec) && EntersSaved(env, m) && Lags(env, m)
    ensures var d := Dispatch(env, m);
            && d.Live() && 0 < d.ip <= |env.text.code| && env.text.code[d.ip - 1].Named?
            && (d.ip != m.ip || env.text.code[m.ip].Opcode() == LEAVE)
  {
    hide Compiled, EncodeAll, Dispatch, Handle, Instr.Valid;
    var code := env.text.code;
    ShapeOf(code[m.ip]);
    DispatchAt(env, m);
    if code[m.ip].Opcode() == LEAVE {
      LeaveGoes(env, m, code[m.ip], m.ip + 1);
      var r := m.TopBlock().return_;
      assert 0 < r <= |code| && code[r - 1].Opcode() == ENTER;
      ShapeOf(code[r - 1]);
    } else {
      NamedGoes(env, m, code[m.ip], m.ip + 1);
    }
  }

  lemma SimTick<D>(env: Env<D>, exec: Code, m: Machine<D>)
    requires Runs(env, exec) && EntersSaved(env, m) && !Lags(env, m)
    ensures Tick(PlacedEnv(exec, env), Placed(exec, m)) == Placed(exec, Tick(env, m))
  {
    hide PlacedEnv, After, Dispatch, Runs, EntersSaved, Addr, Behind, PlacedFrames, PlacedBlocks, PlacedFrame, PlacedBlock;
    PlacedLive(exec, m);
    IsIndexed(env, exec);
    if m.Live() {
      SimDispatch(env, exec, m);
      if m.ip < |env.text.code| {
        LeaveRaises(env, exec, m);
        SimAfter(env, exec, Dispatch(env, m), m.ip);
      } else {
        BeyondEnd(env, m);
        SameSemantics(env, exec);
        AddrInjective(exec, m.ip, 0);
        BeyondEnd(PlacedEnv(exec, env), Placed(exec, m));
      }
    }
  }

  lemma LeaveRaises<D>(env: Env<D>, exec: Code, m: Machine<D>)
    requires m.Live() && Runs(env, exec) && m.ip < |env.text.code| && !Lags(env, m)
    ensures env.text.code[m.ip].Opcode() == LEAVE ==> Dispatch(env, m).thrown.Some?
  {
    hide Compiled, EncodeAll, Dispatch, Handle, Instr.Valid;
    var i := env.text.code[m.ip];
    ShapeOf(i);
    if i.Opcode() == LEAVE {
      DispatchAt(env, m);
      LeaveGoes(env, m, i, m.ip + 1);
    }
  }

  lemma BeyondEnd<D>(env: Env<D>, m: Machine<D>)
    requires m.Live() && m.ip >= env.text.End()
    ensures After(env, Dispatch(env, m), m.ip) == Dispatch(env, m)
  {
  }

  // ----- runs in both machines -----

  lemma SettleBlocks<D>(env: Env<D>, m: Machine<D>)
    requires m.frames != []
    ensures Settle(env, m).blocks <= m.blocks
  {
    hide DropFrames, TypesOf;
    var d := CatchDetailed(m);
    if d.thrown.Some? {
      var c := Catching(d.blocks, TypesOf(env, d.data, d.thrown.value.Type()));
    }
  }

  lemma EntersDispatched<D>(env: Env<D>, exec: Code, m: Machine<D>)
    requires Runs(env, exec) && EntersSaved(env, m) && m.Live()
    ensures EntersSaved(env, Dispatch(env, m))
  {
    hide Dispatch, Compiled, EncodeAll;
    DispatchShape(env, m);
    var d := Dispatch(env, m);
    if Opened(m, d) && !Same(m, d) {
      assert d.blocks == m.blocks + [d.TopBlock()];
    }
  }

  lemma EntersKept<D>(env: Env<D>, exec: Code, m: Machine<D>)
    requires Runs(env, exec) && EntersSaved(env, m)
    ensures EntersSaved(env, Tick(env, m))
  {
    hide Dispatch, Settle, Runs;
    IsIndexed(env, exec);
    if m.Live() {
      EntersDispatched(env, exec, m);
      var d := Dispatch(env, m);
      if d.frames != [] {
        SettleBlocks(env, d);
      }
    }
  }

  // How often the bytecode machine falls behind in n ticks of the source machine.
  function Delays<D>(env: Env<D>, m: Machine<D>, n: nat): nat
    requires env.text.Indexed?
  {
    if n == 0 then 0
    else Delays(env, m, n - 1) + (if Lags(env, Ticks(env, m, n - 1)) then 1 else 0)
  }

  // Simulation: after n ticks of the source and as many of the bytecode, one more for every NUL
  // passed, the machines correspond.
  lemma {:induction false} Simulates<D>(env: Env<D>, exec: Code, m: Machine<D>, n: nat)
    requires Runs(env, exec) && EntersSaved(env, m)
    ensures EntersSaved(env, Ticks(env, m, n))
    ensures Ticks(PlacedEnv(exec, env), Placed(exec, m), n + Delays(env, m, n)) == Placed(exec, Ticks(env, m, n))
  {
    hide PlacedEnv, Placed, OnNul, Tick, Runs, EntersSaved, Lags;
    IsIndexed(env, exec);
    if n > 0 {
      var s, e := Ticks(env, m, n - 1), PlacedEnv(exec, env);
      Simulates(env, exec, m, n - 1);
      EntersKept(env, exec, s);
      var t := n - 1 + Delays(env, m, n - 1);
      assert Ticks(e, Placed(exec, m), t + 1) == Tick(e, Placed(exec, s));
      if Lags(env, s) {
        LagsIsLive(env, s);
        SimLag(env, exec, s);
        assert Ticks(e, Placed(exec, m), t + 2) == Tick(e, Tick(e, Placed(exec, s)));
      } else {
        SimTick(env, exec, s);
      }
    }
  }

  lemma LagsIsLive<D>(env: Env<D>, m: Machine<D>)
    requires env.text.Indexed? && Lags(env, m)
    ensures m.Live()
  {
  }

  // The bytecode machine does nothing else: after any number of ticks it corresponds to a state of
  // the source run, or stands on the NUL that an instruction of that run has left it on.
  lemma {:induction false} Simulated<D>(env: Env<D>, exec: Code, m: Machine<D>, t: nat) returns (n: nat, behind: bool)
    requires Runs(env, exec) && EntersSaved(env, m)
    ensures t == n + Delays(env, m, n) + (if behind then 1 else 0)
    ensures behind ==> Lags(env, Ticks(env, m, n))
    ensures var p, s := Ticks(PlacedEnv(exec, env), Placed(exec, m), t), Ticks(env, m, n);
            if behind then s.Live() && p == OnNul(exec, Dispatch(env, s)) else p == Placed(exec, s)
  {
    hide PlacedEnv, Placed, OnNul, Tick, Dispatch, Runs, EntersSaved, Lags;
    IsIndexed(env, exec);
    if t == 0 {
      n, behind := 0, false;
    } else {
      n, behind := Simulated(env, exec, m, t - 1);
      if behind {
        n, behind := n + 1, false;
        Simulates(env, exec, m, n);
      } else {
        Simulates(env, exec, m, n);
        var s := Ticks(env, m, n);
        if Lags(env, s) {
          LagsIsLive(env, s);
          SimLag(env, exec, s);
          behind := true;
        } else {
          n := n + 1;
          Simulates(env, exec, m, n);
        }
      }
    }
  }
}
