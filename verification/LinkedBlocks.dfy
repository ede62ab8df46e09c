// Blocks of a linked library.  The source never lists them (src/front/asm/generate.cpp:796, 1092), so
// the loaded program does not know them: when that matters, and when it does not.
module LinkedBlocks {
  import opened Bytes
  import opened Opcodes
  import opened Instructions
  import opened Jumps
  import opened Assembler
  import opened Compiler
  import opened Sections
  import opened Linker
  import opened Files
  import opened Generator
  import opened Building
  import opened Loader
  import opened Machine
  import opened Stacks
  import opened Addresses
  import opened Simulation
  import opened EndToEnd

  // ----- two block tables -----

  // The instruction looks up a block by one of the names.
  predicate LooksUp(i: Instr, names: set<Name>) {
    (i.Catch? && i.block in names) || (i.Named? && i.op == ENTER && i.name in names)
  }

  // full is env with more blocks.
  ghost predicate MoreBlocks<D>(env: Env<D>, full: Env<D>) {
    && env.text.Indexed? && full == env.(blocks := full.blocks)
    && forall t <- env.blocks :: t in full.blocks && full.blocks[t] == env.blocks[t]
  }

  function Extra<D>(env: Env<D>, full: Env<D>): set<Name> {
    full.blocks.Keys - env.blocks.Keys
  }

  lemma SameView<D>(env: Env<D>, full: Env<D>, m: Machine<D>)
    requires MoreBlocks(env, full) && m.frames != []
    ensures ViewOf(full, m) == ViewOf(env, m)
  {
    hide Machine.LiveIds;
  }

  lemma SameEnd<D>(env: Env<D>, full: Env<D>, m: Machine<D>)
    requires MoreBlocks(env, full) && m.frames != []
    ensures End(full, m) == End(env, m)
  {
    hide ViewOf, DropFrame;
    SameView(env, full, m);
    SameDrop(env, full, m);
    if m.Top().result != 0 {
      match env.sem.take(ViewOf(env, m), m.data) {
        case Taken(d, o) =>
          SameDrop(env, full, m.(data := d));
          var dropped := DropFrame(env, m.(data := d));
          if dropped.frames != [] {
            SameView(env, full, dropped);
          }
        case _ =>
      }
    }
  }

  lemma SameDrop<D>(env: Env<D>, full: Env<D>, m: Machine<D>)
    requires MoreBlocks(env, full) && m.frames != []
    ensures DropFrame(full, m) == DropFrame(env, m)
  {
  }

  lemma SameRun<D>(env: Env<D>, full: Env<D>, m: Machine<D>, i: Instr, next: nat)
    requires MoreBlocks(env, full) && m.frames != []
    ensures Run(full, m, i) == Run(env, m, i) && Ordinary(full, m, i, next) == Ordinary(env, m, i, next)
    ensures NewFrame(full, m, i, next) == NewFrame(env, m, i, next)
    ensures ThrowObject(full, m, i, next) == ThrowObject(env, m, i, next)
    ensures Pull(full, m, i, next) == Pull(env, m, i, next)
    ensures forall n: Int32 :: Select(full, m, i, n, next) == Select(env, m, i, n, next)
  {
    hide ViewOf, Machine.LiveIds;
    SameView(env, full, m);
  }

  lemma SameCall<D>(env: Env<D>, full: Env<D>, m: Machine<D>, i: Instr, next: nat)
    requires MoreBlocks(env, full) && m.frames != []
    ensures Call(full, m, i, next) == Call(env, m, i, next)
  {
    hide ViewOf, PushFrame;
    SameView(env, full, m);
  }

  lemma SameJumps<D>(env: Env<D>, full: Env<D>, m: Machine<D>)
    requires MoreBlocks(env, full) && m.frames != []
    ensures forall t: int :: JumpTo(full, m, t) == JumpTo(env, m, t)
    ensures forall c: Operand, yes: int, no: int :: BranchTo(full, m, c, yes, no) == BranchTo(env, m, c, yes, no)
  {
    hide ViewOf;
    SameView(env, full, m);
  }

  lemma BlockLookup<D>(env: Env<D>, full: Env<D>, m: Machine<D>, type_: Name, name: Name, next: nat)
    requires MoreBlocks(env, full) && m.Live()
    ensures EnterBlock(full, m, name, next) == EnterBlock(env, m, name, next) <==> name !in Extra(env, full)
    ensures Register(full, m, type_, name, next) == Register(env, m, type_, name, next) <==> name !in Extra(env, full)
  {
  }

  // The same instruction does the same with both tables exactly when it does not look up a block that
  // only one of them has.
  lemma HandleLooksUp<D>(env: Env<D>, full: Env<D>, m: Machine<D>, i: Instr, next: nat)
    requires MoreBlocks(env, full) && m.Live()
    ensures Handle(full, m, i, next) == Handle(env, m, i, next) <==> !LooksUp(i, Extra(env, full))
  {
    hide HandleBare, Call, EnterBlock, NewFrame, ThrowObject, Pull, Ordinary, Select, Register, JumpTo, BranchTo, Extra,
      MoreBlocks, Machine.Live;
    LiveHasFrames(m);
    SameRun(env, full, m, i, next);
    SameCall(env, full, m, i, next);
    SameJumps(env, full, m);
    if i.Bare? {
      SameBare(env, full, m, i.op, next);
    } else if i.Named? {
      BlockLookup(env, full, m, [], i.name, next);
    } else if i.Catch? {
      BlockLookup(env, full, m, i.type_, i.block, next);
    }
  }

  lemma LiveHasFrames<D>(m: Machine<D>)
    requires m.Live()
    ensures m.frames != []
  {
  }

  lemma SameBare<D>(env: Env<D>, full: Env<D>, m: Machine<D>, op: Byte, next: nat)
    requires MoreBlocks(env, full) && m.frames != []
    ensures HandleBare(full, m, op, next) == HandleBare(env, m, op, next)
  {
    hide End;
    SameEnd(env, full, m);
  }

  lemma DispatchLooksUp<D>(env: Env<D>, full: Env<D>, m: Machine<D>)
    requires MoreBlocks(env, full) && m.Live()
    ensures Dispatch(full, m) == Dispatch(env, m) <==>
            !(m.ip < |env.text.code| && LooksUp(env.text.code[m.ip], Extra(env, full)))
  {
    hide Handle, Extra;
    if m.ip < |env.text.code| {
      HandleLooksUp(env, full, m, env.text.code[m.ip], m.ip + 1);
    }
  }

  lemma {:induction false} SameDropFrames<D>(env: Env<D>, full: Env<D>, m: Machine<D>, n: nat)
    requires MoreBlocks(env, full) && n <= |m.frames|
    ensures DropFrames(full, m, n) == DropFrames(env, m, n)
    decreases n
  {
    if n > 0 {
      SameDropFrames(env, full, DropFrame(env, m), n - 1);
    }
  }

  lemma SameAfter<D>(env: Env<D>, full: Env<D>, m: Machine<D>, previous: nat)
    requires MoreBlocks(env, full)
    ensures After(full, m, previous) == After(env, m, previous)
  {
    hide DropFrames, Distance, TopmostFor, Catching;
    if m.frames != [] {
      var d := CatchDetailed(m);
      if d.thrown.Some? {
        var c := Catching(d.blocks, TypesOf(env, d.data, d.thrown.value.Type()));
        if c.Some? {
          SameDropFrames(env, full, d, Distance(d.frames, d.blocks[c.value].frame, |d.frames| - 1));
        }
      }
    }
  }

  // The code never looks up one of the names.
  predicate NeverLooksUp(code: Code, names: set<Name>) {
    forall k | 0 <= k < |code| :: !LooksUp(code[k], names)
  }

  // The machine is about to look up a block that only full has.
  ghost predicate Misses<D>(env: Env<D>, full: Env<D>, m: Machine<D>) {
    && env.text.Indexed? && m.Live() && m.ip < |env.text.code|
    && LooksUp(env.text.code[m.ip], Extra(env, full))
  }

  // None of the first n ticks does.
  ghost predicate NoneMissed<D>(env: Env<D>, full: Env<D>, m: Machine<D>, n: nat) {
    forall k | 0 <= k < n :: !Misses(env, full, Ticks(env, m, k))
  }

  lemma NeverMissed<D>(env: Env<D>, full: Env<D>, m: Machine<D>, n: nat)
    requires env.text.Indexed? && NeverLooksUp(env.text.code, Extra(env, full))
    ensures NoneMissed(env, full, m, n)
  {
    hide Ticks, LooksUp, Extra;
  }

  lemma {:induction false} SameTicks<D>(env: Env<D>, full: Env<D>, m: Machine<D>, n: nat)
    requires MoreBlocks(env, full) && NoneMissed(env, full, m, n)
    ensures Ticks(full, m, n) == Ticks(env, m, n)
  {
    hide Dispatch, After, Extra, MoreBlocks, LooksUp;
    if n > 0 {
      SameTicks(env, full, m, n - 1);
      var s := Ticks(env, m, n - 1);
      assert !Misses(env, full, s);
      if s.Live() {
        assert env.text.Indexed? by {
          IsIndexed(env, full);
        }
        DispatchLooksUp(env, full, s);
        SameAfter(env, full, Dispatch(env, s), s.ip);
      }
    }
  }

  // The exception is caught or ends the run.
  predicate Reported<D>(m: Machine<D>, cause: Cause) {
    m.status == Unhandled(Raised(cause)) || m.caught == Some(Raised(cause))
  }

  lemma SettleReports<D>(env: Env<D>, m: Machine<D>, cause: Cause)
    requires m.frames != [] && m.thrown == Some(Raised(cause)) && m.status.Running?
    ensures var r := Settle(env, m);
            && Reported(r, cause) && (r.status.Running? || r.status.Unhandled?) && |r.blocks| <= |m.blocks|
  {
    hide DropFrames, Distance, TopmostFor, Catching, FirstCaught, TypesOf;
    var d := CatchDetailed(m);
    if d.thrown.Some? {
      var types := TypesOf(env, d.data, d.thrown.value.Type());
      var c := Catching(d.blocks, types);
      if c.Some? {
        DropFramesKeeps(env, d, Distance(d.frames, d.blocks[c.value].frame, |d.frames| - 1));
      }
    }
  }

  // With fewer blocks, such a tick raises "undefined block"; with more, it does not, and goes on
  // differently.
  lemma MissRaises<D>(env: Env<D>, full: Env<D>, m: Machine<D>)
    requires MoreBlocks(env, full) && Misses(env, full, m)
    ensures Reported(Tick(env, m), UndefinedBlock)
    ensures !Tick(full, m).status.Unhandled? && Tick(full, m).caught == m.caught
    ensures env.text.code[m.ip].Named? ==> Tick(env, m) != Tick(full, m)
  {
    hide Settle, Dispatch, After;
    var i := env.text.code[m.ip];
    DispatchAt(env, m);
    DispatchAt(full, m);
    HandleMissed(env, full, m, i, m.ip + 1);
    var d, f := Dispatch(env, m), Dispatch(full, m);
    AfterThrow(env, d, m.ip);
    SettleReports(env, d, UndefinedBlock);
    AfterNothing(full, f, m.ip);
  }

  lemma HandleMissed<D>(env: Env<D>, full: Env<D>, m: Machine<D>, i: Instr, next: nat)
    requires MoreBlocks(env, full) && m.Live() && LooksUp(i, Extra(env, full))
    ensures Handle(env, m, i, next) == m.(thrown := Some(Raised(UndefinedBlock)))
    ensures var f := Handle(full, m, i, next);
            && (f.status.Running? || f.status.Crashed?) && f.thrown.None? && f.caught == m.caught
            && (i.Named? ==> f.status.Crashed? || |f.blocks| > |m.blocks|)
  {
  }

  lemma AfterThrow<D>(env: Env<D>, m: Machine<D>, previous: nat)
    requires m.frames != [] && m.thrown.Some? && m.status.Running? && m.ip < env.text.End()
    ensures After(env, m, previous) == Settle(env, m)
  {
    hide Settle;
  }

  lemma AfterNothing<D>(env: Env<D>, m: Machine<D>, previous: nat)
    requires m.thrown.None? && (m.status.Running? || m.status.Crashed?)
    ensures var r := After(env, m, previous);
            !r.status.Unhandled? && r.caught == m.caught && r.blocks == m.blocks && (m.status.Crashed? ==> r == m)
  {
  }

  // Two runs from the same state, one with fewer blocks: they are the same up to the first time a block
  // is looked up that only one of them has, and then one raises "undefined block" and the other does
  // not.
  lemma {:induction false} RunsPart<D>(env: Env<D>, full: Env<D>, m: Machine<D>, n: nat)
    requires MoreBlocks(env, full)
    ensures NoneMissed(env, full, m, n) ==> forall k | 0 <= k <= n :: Ticks(full, m, k) == Ticks(env, m, k)
    ensures !NoneMissed(env, full, m, n) ==> exists k | 0 <= k < n :: PartAt(env, full, m, k)
  {
    hide Ticks, Misses, MoreBlocks, PartAt;
    if NoneMissed(env, full, m, n) {
      forall k | 0 <= k <= n
        ensures Ticks(full, m, k) == Ticks(env, m, k)
      {
        SameTicks(env, full, m, k);
      }
    } else {
      FirstMiss(env, full, m, n);
    }
  }

  lemma {:induction false} FirstMiss<D>(env: Env<D>, full: Env<D>, m: Machine<D>, n: nat)
    requires MoreBlocks(env, full) && !NoneMissed(env, full, m, n)
    ensures exists k | 0 <= k < n :: PartAt(env, full, m, k)
  {
    hide Tick, Misses, MoreBlocks;
    if NoneMissed(env, full, m, n - 1) {
      assert Misses(env, full, Ticks(env, m, n - 1));
      SameTicks(env, full, m, n - 1);
      MissRaises(env, full, Ticks(env, m, n - 1));
      assert PartAt(env, full, m, n - 1);
    } else {
      FirstMiss(env, full, m, n - 1);
    }
  }

  // The runs from m are the same for k ticks, and part in the next one.
  ghost predicate PartAt<D>(env: Env<D>, full: Env<D>, m: Machine<D>, k: nat) {
    var s := Ticks(env, m, k);
    && Misses(env, full, s) && Ticks(full, m, k) == s
    && Reported(Ticks(env, m, k + 1), UndefinedBlock)
    && !Ticks(full, m, k + 1).status.Unhandled? && Ticks(full, m, k + 1).caught == s.caught
    && (env.text.code[s.ip].Named? ==> Ticks(full, m, k + 1) != Ticks(env, m, k + 1))
  }

  lemma IsIndexed<D>(env: Env<D>, full: Env<D>)
    requires MoreBlocks(env, full)
    ensures env.text.Indexed?
  {
  }

  // ----- a program linked with a library that has blocks -----

  predicate BlocksInside(dep: Dependency) {
    forall k | 0 <= k < |dep.blocks| :: dep.blocks[k].1 <= |dep.bodies|
  }

  // The source with the blocks of the library; those of the file come first.
  function SourceEnv<D>(job: Job, dep: Dependency, sem: Semantics<D>): Env<D>
    requires Sourced(job, dep) && BlocksInside(dep)
  {
    var bs := AllOf(job, dep);
    FileEnv(job, dep, sem).(blocks := Mapping(ExportIndexes(bs, |LocalBodies(job)|, dep.blocks) +
                                              Indexes(Blocks(job).names, bs, 0)))
  }

  // The names of blocks that only the library defines.
  function Foreign(job: Job, dep: Dependency): set<Name> {
    (set k | 0 <= k < |dep.blocks| :: dep.blocks[k].0) - (set k | 0 <= k < |Blocks(job).names| :: Blocks(job).names[k])
  }

  // Neither the file nor the library enters or catches with a block that only the library defines.
  predicate NoForeignBlocks(job: Job, dep: Dependency)
    requires Sourced(job, dep)
  {
    NeverLooksUp(Meant(AllOf(job, dep)), Foreign(job, dep))
  }

  lemma {:induction false} MappingOverrides(a: seq<(Name, nat)>, b: seq<(Name, nat)>)
    ensures Mapping(a + b) == Mapping(a) + Mapping(b)
  {
    if b == [] {
      assert a + b == a;
    } else {
      var n := |b| - 1;
      MappingOverrides(a, b[..n]);
      assert (a + b)[..|a| + n] == a + b[..n];
    }
  }

  lemma {:induction false} MappingKeys(e: seq<(Name, nat)>)
    ensures Mapping(e).Keys == set k | 0 <= k < |e| :: e[k].0
  {
    if e != [] {
      var n := |e| - 1;
      MappingKeys(e[..n]);
      assert (set k | 0 <= k < |e| :: e[k].0) == (set k | 0 <= k < n :: e[..n][k].0) + {e[n].0};
    }
  }

  lemma NamesListed(e: seq<(Name, nat)>, names: seq<Name>)
    requires |e| == |names| && forall k | 0 <= k < |e| :: e[k].0 == names[k]
    ensures Mapping(e).Keys == set k | 0 <= k < |names| :: names[k]
  {
    hide Mapping;
    MappingKeys(e);
    assert (set k | 0 <= k < |names| :: names[k]) == (set k | 0 <= k < |e| :: e[k].0);
  }

  lemma SourceBlocks<D>(job: Job, dep: Dependency, sem: Semantics<D>)
    requires Sourced(job, dep) && BlocksInside(dep)
    ensures MoreBlocks(FileEnv(job, dep, sem), SourceEnv(job, dep, sem))
    ensures Extra(FileEnv(job, dep, sem), SourceEnv(job, dep, sem)) == Foreign(job, dep)
  {
    hide Mapping, Meant, AllAssemble, IndexOf;
    var bs := AllOf(job, dep);
    var ours, theirs := Indexes(Blocks(job).names, bs, 0), ExportIndexes(bs, |LocalBodies(job)|, dep.blocks);
    MappingOverrides(theirs, ours);
    forall k | 0 <= k < |ours|
      ensures ours[k].0 == Blocks(job).names[k]
    {
      IndexName(bs, Blocks(job).names[k], k);
    }
    var exported := seq(|dep.blocks|, k requires 0 <= k < |dep.blocks| => dep.blocks[k].0);
    forall k | 0 <= k < |theirs|
      ensures theirs[k].0 == exported[k]
    {
      IndexName(bs, dep.blocks[k].0, |LocalBodies(job)| + dep.blocks[k].1);
    }
    NamesListed(ours, Blocks(job).names);
    NamesListed(theirs, exported);
    assert (set k | 0 <= k < |dep.blocks| :: dep.blocks[k].0) == (set k | 0 <= k < |exported| :: exported[k]);
  }

  // Linking keeps the meaning of file and library together as long as a run looks up no block that only
  // the library has: the loaded program simulates the source with the blocks of both.
  lemma LinkingKeepsMeaning<D>(job: Job, dep: Dependency, out: Output, sem: Semantics<D>, name: Name, data: D, n: nat)
    requires Runnable(job, dep, out) && BlocksInside(dep) && name in SourceEnv(job, dep, sem).functions
    requires var file, source := FileEnv(job, dep, sem), SourceEnv(job, dep, sem);
             NoneMissed(file, source, Loaded(source.functions[name], name, data), n)
    ensures var exec, source := Executable(AllOf(job, dep)), SourceEnv(job, dep, sem);
            var loaded := LoadedEnv(job, dep.lib, out.bytecode, sem);
            && name in loaded.functions
            && var m := Loaded(source.functions[name], name, data);
               Ticks(loaded, Loaded(loaded.functions[name], name, data), n + Delays(FileEnv(job, dep, sem), m, n)) ==
               Placed(exec, Ticks(source, m, n))
  {
    hide Sourced, ByteTargetsStart, AllConsistent, Executable, LocalBodies, Complete, Written, Ticks, Delays, Placed, FileEnv, LoadedEnv,
      Fine, MoreBlocks, BlocksInside, NoneMissed, SourceEnv;
    var file, source := FileEnv(job, dep, sem), SourceEnv(job, dep, sem);
    SourceFunctions(job, dep, sem);
    SourceBlocks(job, dep, sem);
    JobSimulates(job, dep, out, sem, name, data, n);
    SameTicks(file, source, Loaded(source.functions[name], name, data), n);
  }

  lemma SourceFunctions<D>(job: Job, dep: Dependency, sem: Semantics<D>)
    requires Sourced(job, dep) && BlocksInside(dep)
    ensures SourceEnv(job, dep, sem).functions == FileEnv(job, dep, sem).functions
  {
    hide FileEnv, Sourced, BlocksInside, Mapping;
  }

  // That holds of every run when no such block is named at all.
  lemma NoForeignMissed<D>(job: Job, dep: Dependency, sem: Semantics<D>, m: Machine<D>, n: nat)
    requires Sourced(job, dep) && BlocksInside(dep) && NoForeignBlocks(job, dep)
    ensures NoneMissed(FileEnv(job, dep, sem), SourceEnv(job, dep, sem), m, n)
  {
    hide FileEnv, SourceEnv, Extra, Foreign, Meant, BlocksInside, Sourced, NeverLooksUp, MoreBlocks, ByIndex, NoneMissed;
    SourceIsIndexed(job, dep, sem);
    SourceBlocks(job, dep, sem);
    FileText(job, dep, sem);
    IndexedLookUp(Meant(AllOf(job, dep)), Foreign(job, dep));
    NeverMissed(FileEnv(job, dep, sem), SourceEnv(job, dep, sem), m, n);
  }

  // Otherwise the run of the linked file parts from that of the source.
  lemma LinkedRunParts<D>(job: Job, dep: Dependency, sem: Semantics<D>, m: Machine<D>, n: nat)
    requires Sourced(job, dep) && BlocksInside(dep)
    ensures var file, source := FileEnv(job, dep, sem), SourceEnv(job, dep, sem);
            && (NoneMissed(file, source, m, n) ==> forall k | 0 <= k <= n :: Ticks(source, m, k) == Ticks(file, m, k))
            && (!NoneMissed(file, source, m, n) ==> exists k | 0 <= k < n :: PartAt(file, source, m, k))
  {
    hide FileEnv, SourceEnv, Extra, Foreign, BlocksInside, Sourced, MoreBlocks, PartAt, NoneMissed, Ticks;
    SourceBlocks(job, dep, sem);
    RunsPart(FileEnv(job, dep, sem), SourceEnv(job, dep, sem), m, n);
  }

  lemma FileText<D>(job: Job, dep: Dependency, sem: Semantics<D>)
    requires Sourced(job, dep)
    ensures FileEnv(job, dep, sem).text == Indexed(ByIndex(Meant(AllOf(job, dep))))
  {
    hide AllAssemble, Meant, Mapping, ByIndex;
  }

  // How targets are written does not matter to blocks.
  lemma IndexedLookUp(code: Code, names: set<Name>)
    ensures forall k | 0 <= k < |code| :: LooksUp(ByIndex(code)[k], names) <==> LooksUp(code[k], names)
    ensures NeverLooksUp(ByIndex(code), names) <==> NeverLooksUp(code, names)
  {
    hide IndexTarget, IndexKind;
  }

  // And only then: wherever such a block is looked up, the loaded program does something else.
  lemma MeaningIsKeptExactly<D>(job: Job, dep: Dependency, sem: Semantics<D>, m: Machine<D>)
    requires Sourced(job, dep) && BlocksInside(dep) && m.Live()
    ensures (forall ip: nat :: SameInstruction(SourceEnv(job, dep, sem), FileEnv(job, dep, sem), m, ip)) <==>
            NoForeignBlocks(job, dep)
  {
    hide Dispatch, MoreBlocks, Extra, Foreign, FileEnv, SourceEnv, Sourced, BlocksInside, Meant, LooksUp, IndexInstr;
    var file, source := FileEnv(job, dep, sem), SourceEnv(job, dep, sem);
    SourceBlocks(job, dep, sem);
    FileText(job, dep, sem);
    SourceIsIndexed(job, dep, sem);
    var code := ByIndex(Meant(AllOf(job, dep)));
    IndexedLookUp(Meant(AllOf(job, dep)), Foreign(job, dep));
    forall ip: nat
      ensures SameInstruction(source, file, m, ip) <==> !(ip < |code| && LooksUp(code[ip], Foreign(job, dep)))
    {
      DispatchLooksUp(file, source, m.(ip := ip));
    }
  }

  // Instruction ip does the same in both environments when m reaches it.
  ghost predicate SameInstruction<D>(env: Env<D>, other: Env<D>, m: Machine<D>, ip: nat)
    requires m.Live()
  {
    Dispatch(env, m.(ip := ip)) == Dispatch(other, m.(ip := ip))
  }

  // ----- a library that is broken by linking -----

  const BLOCK: Name := [98]
  const FUNCTION_NAME: Name := [102]
  const BLOCK_LINES: seq<Line> := [Instruction(LEAVE, [])]
  const FUNCTION_LINES: seq<Line> := [Instruction(TRY, []), Instruction(ENTER, [Word(BLOCK)]), Instruction(END, [])]

  lemma AssembleOne(op: Byte, name: Name, marks: map<Name, nat>, index: nat)
    ensures TakesNothing(op) && Implemented(op) ==> Assemble(op, [], marks, index) == Ok(Bare(op))
    ensures Assemble(ENTER, [Word(name)], marks, index) == Ok(Named(ENTER, name))
  {
  }

  lemma BlockCode()
    ensures Assembled(BLOCK_LINES) == Ok([Bare(LEAVE)])
  {
    hide Marks, Assemble, AssembleAll;
    var marks := Marks(BLOCK_LINES);
    AllInstructions(BLOCK_LINES);
    AssembleNothing(marks);
    AssembleOne(LEAVE, BLOCK, marks, 0);
    AssembleSnoc([], BLOCK_LINES[0], marks);
    assert BLOCK_LINES == [] + [BLOCK_LINES[0]];
    var code: Code := [Bare(LEAVE)];
    assert [] + code == code;
  }

  lemma FunctionCode()
    ensures Assembled(FUNCTION_LINES) == Ok([Bare(TRY), Named(ENTER, BLOCK), Bare(END)])
  {
    hide Marks, Assemble, AssembleAll;
    var marks, l := Marks(FUNCTION_LINES), FUNCTION_LINES;
    AllInstructions(l);
    AssembleNothing(marks);
    AssembleOne(TRY, BLOCK, marks, 0);
    AssembleOne(ENTER, BLOCK, marks, 1);
    AssembleOne(END, BLOCK, marks, 2);
    AssembleSnoc([], l[0], marks);
    AssembleSnoc([] + [l[0]], l[1], marks);
    AssembleSnoc([] + [l[0]] + [l[1]], l[2], marks);
    assert l == [] + [l[0]] + [l[1]] + [l[2]];
    var code: Code := [Bare(TRY), Named(ENTER, BLOCK), Bare(END)];
    assert [] + [code[0]] + [code[1]] + [code[2]] == code;
  }

  lemma {:induction false} NoSlots(code: Code)
    requires forall i <- code :: !i.Jump? && !i.Branch?
    ensures RecordedSlots(code, false) == [] && RecordedSlots(code, true) == []
  {
    if code != [] {
      NoSlots(code[..|code| - 1]);
    }
  }

  // A body without jumps is understood as it is filed.
  lemma StraightBody(lines: seq<Line>, code: Code)
    requires Assembled(lines) == Ok(code) && forall i <- code :: !i.Jump? && !i.Branch?
    ensures Assembles(lines) && CodeOf(lines) == code
  {
    hide Assembled, RecordedSlots;
    NoSlots(code);
    assert Filed(code) == code;
  }

  // A library with one block and one function that enters it.
  const BODIES: Bodies := [BLOCK_LINES, FUNCTION_LINES]

  lemma BodiesAssemble()
    ensures AllAssemble(BODIES)
    ensures Flat(BODIES) == [Bare(LEAVE), Bare(TRY), Named(ENTER, BLOCK), Bare(END)]
    ensures RecordedSlots(Flat(BODIES), false) == [] && RecordedSlots(Flat(BODIES), true) == []
  {
    hide Assembled, RecordedSlots, CodeOf, Assembles, PlacedCode, Flat, FlatPlaced;
    BlockCode();
    FunctionCode();
    StraightBody(BLOCK_LINES, [Bare(LEAVE)]);
    StraightBody(FUNCTION_LINES, [Bare(TRY), Named(ENTER, BLOCK), Bare(END)]);
    NoSlots([Bare(LEAVE), Bare(TRY), Named(ENTER, BLOCK), Bare(END)]);
    assert [] + [BLOCK_LINES] + [FUNCTION_LINES] == BODIES;
    FlatNothing(0);
    FlatSnoc([], BLOCK_LINES, 0);
    FlatSnoc([] + [BLOCK_LINES], FUNCTION_LINES, 0);
  }

  // The library as a file, with its tables.
  function BrokenLibrary(): Dependency
    requires AllAssemble(BODIES)
  {
    Dependency(Some(Library([], [(BLOCK, 0)], [(FUNCTION_NAME, Before(BODIES, 1))], EncodeAll(LibraryCode(BODIES, 0)))),
               BODIES, [(FUNCTION_NAME, 1)], [(BLOCK, 0)])
  }

  lemma LibraryIsProvided()
    ensures AllAssemble(BODIES) && Provided(BrokenLibrary()) && BlocksInside(BrokenLibrary())
  {
    hide Flat, LibraryCode, AllAssemble, EncodeAll, RecordedSlots, Before;
    BodiesAssemble();
    BeforeNothing(BODIES);
  }

  // Where the linked source has the function of the library.
  lemma EnterOfLibrary(local: Bodies)
    requires AllAssemble(local)
    ensures AllAssemble(local + BODIES)
    ensures var code, n := Meant(local + BODIES), |Meant(local)|; n + 2 < |code| && code[n + 2] == Named(ENTER, BLOCK)
  {
    hide Assembled, Assembles, Meant, AllAssemble;
    BodiesAssemble();
    AssembleConcat(local, BODIES);
    BlockCode();
    FunctionCode();
    assert local + [BLOCK_LINES] + [FUNCTION_LINES] == local + BODIES;
    AssembleConcat(local + [BLOCK_LINES], [FUNCTION_LINES]);
    MeantSnoc(local, BLOCK_LINES);
    MeantSnoc(local + [BLOCK_LINES], FUNCTION_LINES);
  }

  lemma MeantSnoc(a: Bodies, x: seq<Line>)
    requires AllAssemble(a + [x])
    ensures AllAssemble(a) && Assembled(x).Ok?
    ensures Meant(a + [x]) == Meant(a) + Lift(Assembled(x).value, |Meant(a)|)
  {
    hide Assembled, LiftInstr;
    AssembleConcat(a, [x]);
    assert (a + [x])[..|a|] == a && (a + [x])[|a|] == x;
    assert Assembles(x);
  }

  lemma BrokenSource(job: Job)
    requires AllAssemble(LocalBodies(job)) && BLOCK !in Blocks(job).names
    ensures AllAssemble(BODIES) && Sourced(job, BrokenLibrary()) && BlocksInside(BrokenLibrary())
    ensures BLOCK in Foreign(job, BrokenLibrary()) && AllOf(job, BrokenLibrary()) == LocalBodies(job) + BODIES
  {
    hide AllAssemble, Flat, FlatPlaced, LocalBodies, Definitions;
    LibraryIsProvided();
    AssembleConcat(LocalBodies(job), BODIES);
    assert BrokenLibrary().blocks[0].0 == BLOCK;
  }

  // Whatever file it is linked into, unless that file has a block of the same name: in the source the
  // function of the library enters its block, in the linked program it raises "undefined block".
  lemma LibraryBreaks<D>(job: Job, sem: Semantics<D>, m: Machine<D>)
    requires AllAssemble(LocalBodies(job)) && BLOCK !in Blocks(job).names
    requires m.Live() && m.pendingBlock.Some? && m.ip == |Meant(LocalBodies(job))| + 2
    ensures AllAssemble(BODIES) && Sourced(job, BrokenLibrary()) && BlocksInside(BrokenLibrary())
    ensures Dispatch(FileEnv(job, BrokenLibrary(), sem), m).thrown == Some(Raised(UndefinedBlock))
    ensures var d := Dispatch(SourceEnv(job, BrokenLibrary(), sem), m);
            d.Going() && d.blocks != [] && d.TopBlock().name == BLOCK
  {
    hide AllAssemble, Meant, Handle, LocalBodies, MoreBlocks, Extra, Foreign, FileEnv, SourceEnv, Sourced, BlocksInside, Dispatch,
      Machine.Live, BrokenLibrary, AllOf, Blocks, IndexTarget;
    BrokenSource(job);
    EnterOfLibrary(LocalBodies(job));
    var dep := BrokenLibrary();
    SourceBlocks(job, dep, sem);
    FileText(job, dep, sem);
    var file, source := FileEnv(job, dep, sem), SourceEnv(job, dep, sem);
    SameText(file, source);
    DispatchAt(file, m);
    DispatchAt(source, m);
    EnterBoth(file, source, m, m.ip + 1);
  }

  lemma SameText<D>(env: Env<D>, full: Env<D>)
    requires MoreBlocks(env, full)
    ensures full.text == env.text
  {
  }

  lemma EnterBoth<D>(env: Env<D>, full: Env<D>, m: Machine<D>, next: nat)
    requires MoreBlocks(env, full) && BLOCK in Extra(env, full) && m.Live() && m.pendingBlock.Some?
    ensures Handle(env, m, Named(ENTER, BLOCK), next).thrown == Some(Raised(UndefinedBlock))
    ensures var d := Handle(full, m, Named(ENTER, BLOCK), next);
            d.Going() && d.blocks != [] && d.TopBlock().name == BLOCK
  {
  }
}
