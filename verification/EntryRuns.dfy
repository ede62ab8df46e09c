// What the entry function of an executable does (src/front/asm/generate.cpp:762-787,
// src/cpu/cpu.cpp:694-705).
module EntryRuns {
  import opened Bytes
  import opened Opcodes
  import opened Instructions
  import opened Assembler
  import opened Targets
  import opened Jumps
  import opened Compiler
  import opened Sections
  import opened Files
  import opened Generator
  import opened Building
  import opened Machine
  import opened Stacks
  import opened Effects
  import opened Brackets
  import opened Addresses
  import opened EndToEnd
  import opened Catchers
  import opened SourceRuns

  function Register(n: Int32): Operand {
    Operand(false, n)
  }

  // ----- its instructions -----

  // What stands behind the instructions of the top level: a frame for one parameter, which is register 1,
  // the call of the main function with its result in register 1, that moved to register 0, and the end.
  function EntryEnd(main: Name): (c: Code)
    ensures |c| == 5
  {
    [Two(FRAME, Register(1), Register(16)), Two(PARAM, Register(0), Register(1)), Instr.Text(CALL, Register(1), main),
     Two(MOVE, Register(0), Register(1)), Bare(HALT)]
  }

  lemma EntryEndLines(marks: map<Name, nat>, k: nat, main: Name)
    ensures Assemble(RESS, [RegisterSet(1)], marks, k) == Ok(SelectRegisters(1))
    ensures forall j | 0 <= j < 5 ::
              var l := Epilogue(main)[j];
              && l.Instruction?
              && (Assemble(l.op, l.operands, marks, k).Ok? ==> Assemble(l.op, l.operands, marks, k) == Ok(EntryEnd(main)[j]))
  {
    hide ResolveJump, AssembleBranch, Literal;
    forall j | 0 <= j < 5
      ensures var l := Epilogue(main)[j];
              && l.Instruction?
              && (Assemble(l.op, l.operands, marks, k).Ok? ==> Assemble(l.op, l.operands, marks, k) == Ok(EntryEnd(main)[j]))
    {
      if j == 0 {
      } else if j == 1 {
      } else if j == 2 {
      } else if j == 3 {
      } else {
        assert j == 4;
      }
    }
  }

  // A line of the epilogue assembles to the instruction above, wherever it stands.
  lemma EndLine(lines: seq<Line>, main: Name, k: nat, j: nat)
    requires Assembled(lines).Ok? && k < |InstructionLines(lines)| && j < 5
    requires InstructionLines(lines)[k] == Epilogue(main)[j]
    ensures k < |Assembled(lines).value| && Assembled(lines).value[k] == EntryEnd(main)[j]
  {
    hide Assemble, InstructionLines, Marks, Assembled, Epilogue, EntryEnd;
    BodyInstruction(lines, k);
    EntryEndLines(Marks(lines), k, main);
  }

  lemma FirstLine(lines: seq<Line>)
    requires Assembled(lines).Ok? && InstructionLines(lines) != []
    requires InstructionLines(lines)[0] == Line.Instruction(RESS, [RegisterSet(1)])
    ensures Assembled(lines).value != [] && Assembled(lines).value[0] == SelectRegisters(1)
  {
    hide Assemble, InstructionLines, Marks, Assembled, Epilogue, EntryEnd;
    BodyInstruction(lines, 0);
    EntryEndLines(Marks(lines), 0, []);
  }

  // The entry function selects local registers, does what the top level says, and closes as above.
  lemma EntryCode(file: seq<Line>, main: Name)
    requires AllClosed(file) && Assembled(EntryLines(file, main)).Ok?
    ensures var code, n := Assembled(EntryLines(file, main)).value, |InstructionLines(file)|;
            && |code| == n + 6 && code[0] == SelectRegisters(1)
            && forall j | 0 <= j < 5 :: code[n + 1 + j] == EntryEnd(main)[j]
  {
    hide Assemble, InstructionLines, Marks, Assembled, EntryLines, AllClosed, Epilogue, EntryEnd;
    var lines, n := EntryLines(file, main), |InstructionLines(file)|;
    EntryMeaning(file, main);
    EpilogueLength(main);
    FirstLine(lines);
    BodyInstruction(lines, 0);
    forall j | 0 <= j < 5
      ensures Assembled(lines).value[n + 1 + j] == EntryEnd(main)[j]
    {
      EndLine(lines, main, n + 1 + j, j);
    }
  }

  lemma EpilogueLength(main: Name)
    ensures |Epilogue(main)| == 5 && |EntryEnd(main)| == 5 && |PROLOGUE| == 1
    ensures PROLOGUE[0] == Line.Instruction(RESS, [RegisterSet(1)])
  {
  }

  // ----- where it stands -----

  // An executable that can be assembled and linked.
  ghost predicate Executable(job: Job, dep: Dependency) {
    Fine(job, dep) && Sourced(job, dep) && !job.asLib
  }

  lemma ExecutableParts(job: Job, dep: Dependency)
    requires Executable(job, dep)
    ensures Sourced(job, dep) && NamesDistinct(job, dep.lib) && Exports(LibraryFunctions(dep.lib), dep.bodies, dep.functions)
    ensures |Functions(job).names| == |FunctionBodies(job)| && MainDefined(job, dep.lib) && AllClosed(job.file)
    ensures LocalBodies(job) != [] && LocalBodies(job)[|LocalBodies(job)| - 1] == EntryLines(job.file, job.main)
    ensures Functions(job).names[|Functions(job).names| - 1] == ENTRY
    ensures |LocalBodies(job)| == |BlockBodies(job)| + |FunctionBodies(job)| && |FunctionBodies(job)| > 0 && !job.asLib
    ensures Assembled(EntryLines(job.file, job.main)).Ok?
  {
    hide Definitions, EntryLines, CountedSize, AllAssemble, AllKnown, AllPlaced, Linkable, AbsoluteReached, AbsoluteInside,
      SameAddresses, Assembled, LibrarySize, AllClosed, LibraryFunctions, Exports, Distinct, BodiesFlat;
    ClosedFile(job.file);
    ElementAssembles(LocalBodies(job), |LocalBodies(job)| - 1);
  }

  // The number of instructions on the top level, and where the entry function starts.
  function OnTop(job: Job): nat {
    |InstructionLines(job.file)|
  }

  function Entry(job: Job, dep: Dependency): nat
    requires Sourced(job, dep)
  {
    if LocalBodies(job) == [] then 0 else First(job, dep, |LocalBodies(job)| - 1)
  }

  // Instructions without targets are the same wherever they stand.
  lemma SameAnywhere(code: Code, i: Instr, first: nat)
    requires !i.Jump? && !i.Branch?
    ensures IndexInstr(code, LiftInstr(i, first)) == i
  {
  }

  lemma EntryEndPlain(main: Name, j: nat)
    requires j < 5
    ensures !EntryEnd(main)[j].Jump? && !EntryEnd(main)[j].Branch?
  {
  }

  // A run from the entry function starts at these instructions.
  lemma EntryInPlace<D>(job: Job, dep: Dependency, sem: Semantics<D>)
    requires Executable(job, dep)
    ensures Sourced(job, dep) && FileEnv(job, dep, sem).text.Indexed?
    ensures var env, a, n := FileEnv(job, dep, sem), Entry(job, dep), OnTop(job);
            && ENTRY in env.functions && env.functions[ENTRY] == a && job.main in env.functions && env.sem == sem
            && a + n + 6 <= |env.text.code| && env.text.code[a] == SelectRegisters(1)
            && forall j | 0 <= j < 5 :: env.text.code[a + n + 1 + j] == EntryEnd(job.main)[j]
  {
    hide Executable, Sourced, NamesDistinct, Exports, FileEnv, First, EntryLines, Assembled, AllClosed, EntryEnd, SourceCode,
      InstructionLines, LocalBodies, FunctionBodies, BlockBodies, Functions, MainDefined, IndexInstr, LiftInstr;
    ExecutableParts(job, dep);
    MainFound(job, dep, sem);
    FunctionStarts(job, dep, sem, |FunctionBodies(job)| - 1);
    EntryCode(job.file, job.main);
    var e, env, n := |LocalBodies(job)| - 1, FileEnv(job, dep, sem), OnTop(job);
    var code := Assembled(EntryLines(job.file, job.main)).value;
    assert AllOf(job, dep)[e] == EntryLines(job.file, job.main);
    SourceAt(job, dep, sem, e, 0);
    SourceAt(job, dep, sem, e, n + 5);
    SameAnywhere(SourceCode(job, dep), SelectRegisters(1), First(job, dep, e));
    forall j | 0 <= j < 5
      ensures env.text.code[Entry(job, dep) + n + 1 + j] == EntryEnd(job.main)[j]
    {
      SourceAt(job, dep, sem, e, n + 1 + j);
      EntryEndPlain(job.main, j);
      SameAnywhere(SourceCode(job, dep), EntryEnd(job.main)[j], First(job, dep, e));
    }
  }

  // ----- running it -----

  lemma EntryOpcodes()
    ensures Implemented(RESS) && Implemented(FRAME) && Implemented(PARAM) && Implemented(CALL) && Implemented(MOVE) && Implemented(HALT)
    ensures IsPlain(Two(PARAM, Register(0), Register(1))) && IsPlain(Two(MOVE, Register(0), Register(1)))
  {
  }

  lemma ExecutesIndexed<D>(env: Env<D>, m: Machine<D>)
    requires m.Live() && env.text.Indexed? && m.ip < |env.text.code| && Implemented(env.text.code[m.ip].Opcode())
    ensures Executes(env, m, env.text.code[m.ip], m.ip + 1)
  {
  }

  // It selects the local registers.
  lemma EntryBegins<D>(job: Job, dep: Dependency, sem: Semantics<D>, m: Machine<D>)
    requires Executable(job, dep) && m.Live() && m.ip == Entry(job, dep)
    ensures Tick(FileEnv(job, dep, sem), m) == m.(selected := Local(m.Top().id), ip := m.ip + 1)
  {
    hide Executable, FileEnv, Entry, OnTop, EntryEnd, Dispatch, Implemented;
    EntryInPlace(job, dep, sem);
    EntryOpcodes();
    var env := FileEnv(job, dep, sem);
    ExecutesIndexed(env, m);
    RessEffect(env, m, 1, m.ip + 1);
    TickGoes(env, m);
  }

  lemma FrameTick<D>(env: Env<D>, m: Machine<D>, i: Instr, framed: D)
    requires m.Live() && m.pending.None? && env.text.Indexed? && m.ip + 1 < |env.text.code| && env.text.code[m.ip] == i
    requires i.Two? && i.op == FRAME && env.sem.run(i, ViewOf(env, m), m.data) == Done(framed)
    ensures var f := Tick(env, m);
            f.pending.Some? && f.Live() && f == m.(data := framed, pending := f.pending, requests := m.requests + 1, ip := m.ip + 1)
  {
    hide Dispatch, Implemented, ViewOf, Tick;
    EntryOpcodes();
    ExecutesIndexed(env, m);
    FrameEffect(env, m, i, m.ip + 1);
    TickGoes(env, m);
  }

  lemma PlainTick<D>(env: Env<D>, m: Machine<D>, i: Instr, data: D)
    requires m.Live() && env.text.Indexed? && m.ip + 1 < |env.text.code| && env.text.code[m.ip] == i
    requires IsPlain(i) && Implemented(i.Opcode()) && env.sem.run(i, ViewOf(env, m), m.data) == Done(data)
    ensures Tick(env, m) == m.(data := data, ip := m.ip + 1) && Tick(env, m).Live()
  {
    hide Dispatch, Implemented, ViewOf, IsPlain, Tick;
    ExecutesIndexed(env, m);
    PlainEffect(env, m, i, m.ip + 1);
    TickGoes(env, m);
  }

  lemma CallStep<D>(env: Env<D>, m: Machine<D>, name: Name)
    requires m.Live() && env.text.Indexed? && m.ip < |env.text.code| && CanPush(m) && name in env.functions
    requires env.text.code[m.ip] == Instr.Text(CALL, Register(1), name)
    ensures Dispatch(env, m) == Called(env, m, m.ip + 1, name, false, 1, Local(m.pending.value.id))
    ensures Pushed(m, Dispatch(env, m))
    ensures Fetch(env.text, m.ip) == Some(Fetched(Instr.Text(CALL, Register(1), name), m.ip + 1))
  {
    hide Dispatch, Implemented, Pushed;
    EntryOpcodes();
    ExecutesIndexed(env, m);
    CallEffect(env, m, Register(1), name, m.ip + 1);
  }

  // Behind the top level it requests one frame, passes register 1 as its parameter 0, and pushes it for
  // the main function, whose result goes to register 1.
  lemma MainCalled<D>(job: Job, dep: Dependency, sem: Semantics<D>, m: Machine<D>, framed: D, passed: D)
    requires Executable(job, dep) && m.Live() && m.pending.None? && m.ip == Entry(job, dep) + OnTop(job) + 1
    requires var env := FileEnv(job, dep, sem);
             && sem.run(Two(FRAME, Register(1), Register(16)), ViewOf(env, m), m.data) == Done(framed)
             && var f := Tick(env, m);
                && f.frames != []
                && sem.run(Two(PARAM, Register(0), Register(1)), ViewOf(env, f), framed) == Done(passed)
                && CanPush(f)
    ensures var env := FileEnv(job, dep, sem); var f, p := Tick(env, m), Ticks(env, m, 2);
            && f == m.(data := framed, pending := f.pending, requests := m.requests + 1, ip := m.ip + 1)
            && p == f.(data := passed, ip := m.ip + 2)
            && job.main in env.functions && p.pending.Some?
            && Dispatch(env, p) == Called(env, p, m.ip + 3, job.main, false, 1, Local(p.pending.value.id))
            && Pushed(p, Dispatch(env, p)) && Fetch(env.text, p.ip) == Some(Fetched(Instr.Text(CALL, Register(1), job.main), p.ip + 1))
  {
    hide Executable, FileEnv, Entry, OnTop, Dispatch, Implemented, ViewOf, IsPlain, Tick, Pushed, CanPush, Fetch;
    EntryInPlace(job, dep, sem);
    EntryOpcodes();
    var env, a, n := FileEnv(job, dep, sem), Entry(job, dep), OnTop(job);
    assert env.text.code[a + n + 1 + 0] == EntryEnd(job.main)[0];
    assert env.text.code[a + n + 1 + 1] == EntryEnd(job.main)[1];
    assert env.text.code[a + n + 1 + 2] == EntryEnd(job.main)[2];
    FrameTick(env, m, Two(FRAME, Register(1), Register(16)), framed);
    var f := Tick(env, m);
    PlainTick(env, f, Two(PARAM, Register(0), Register(1)), passed);
    TwoTicks(env, m);
    PushKept(f, Tick(env, f));
    CallStep(env, Tick(env, f), job.main);
  }

  lemma PushKept<D>(f: Machine<D>, p: Machine<D>)
    requires CanPush(f) && p.frames == f.frames && p.pending == f.pending
    ensures CanPush(p)
  {
  }

  lemma TwoTicks<D>(env: Env<D>, m: Machine<D>)
    ensures Ticks(env, m, 2) == Tick(env, Tick(env, m))
  {
    hide Tick;
    assert Ticks(env, m, 1) == Tick(env, m);
  }

  // When the main function returns, its result is put in register 1, then moved to register 0, and the
  // run halts.
  lemma MainReturns<D>(job: Job, dep: Dependency, sem: Semantics<D>, p: Machine<D>, k: nat, moved: D)
    requires Executable(job, dep) && p.Live() && p.ip == Entry(job, dep) + OnTop(job) + 3
    requires Allocates(FileEnv(job, dep, sem)) && Sound(p) && Pushed(p, Dispatch(FileEnv(job, dep, sem), p))
    requires Within(FileEnv(job, dep, sem), Tick(FileEnv(job, dep, sem), p), k, |p.frames| + 1, 0)
    requires var env := FileEnv(job, dep, sem); var e := Ticks(env, Tick(env, p), k);
             && e.Live() && |e.frames| == |p.frames| + 1 && Dropped(e, Dispatch(env, e)) && Dispatch(env, e).Going()
             && Dispatch(env, e).frames != []
             && sem.run(Two(MOVE, Register(0), Register(1)), ViewOf(env, Dispatch(env, e)), Dispatch(env, e).data) == Done(moved)
    ensures var env := FileEnv(job, dep, sem); var e := Ticks(env, Tick(env, p), k);
            && Tick(env, e) == Dispatch(env, e) && Tick(env, e).frames == p.frames && Returned(env, e, Tick(env, e), false, 1)
            && Ticks(env, Tick(env, e), 2) == Tick(env, e).(data := moved, ip := p.ip + 2, status := Halted)
  {
    hide Executable, FileEnv, Entry, OnTop, Dispatch, Implemented, ViewOf, IsPlain, Tick, Pushed, Within, Dropped, Sound,
      Returned;
    EntryInPlace(job, dep, sem);
    EntryOpcodes();
    var env, a, n := FileEnv(job, dep, sem), Entry(job, dep), OnTop(job);
    assert env.text.code[a + n + 1 + 2] == EntryEnd(job.main)[2];
    assert env.text.code[a + n + 1 + 3] == EntryEnd(job.main)[3];
    assert env.text.code[a + n + 1 + 4] == EntryEnd(job.main)[4];
    CallReturns(env, p, k);
    var e := Ticks(env, Tick(env, p), k);
    var r := Tick(env, e);
    PlainTick(env, r, Two(MOVE, Register(0), Register(1)), moved);
    TwoTicks(env, r);
    var h := Tick(env, r);
    ExecutesIndexed(env, h);
    HaltEffect(env, h, HALT, h.ip + 1);
    TickOutcome(env, h);
    HaltedTick(env, h);
  }

  lemma HaltedTick<D>(env: Env<D>, h: Machine<D>)
    requires h.Live() && Dispatch(env, h).status.Halted?
    ensures Tick(env, h) == Dispatch(env, h).(status := Halted)
  {
    hide Dispatch, Settle;
  }

  // The registers behind the call of the main function in a run from the entry function: a frame is made,
  // and register 1 is passed.
  ghost predicate Passes<D>(env: Env<D>, m: Machine<D>, framed: D, passed: D)
    requires m.frames != []
  {
    && env.sem.run(Two(FRAME, Register(1), Register(16)), ViewOf(env, m), m.data) == Done(framed)
    && var f := Tick(env, m);
       f.frames != [] && env.sem.run(Two(PARAM, Register(0), Register(1)), ViewOf(env, f), framed) == Done(passed)
  }

  // From p, the main function is called and returns k ticks later, and its result is moved.
  ghost predicate Comes<D>(env: Env<D>, p: Machine<D>, k: nat, moved: D) {
    && Within(env, Tick(env, p), k, |p.frames| + 1, 0)
    && var e := Ticks(env, Tick(env, p), k);
       && e.Live() && |e.frames| == |p.frames| + 1
       && var r := Dispatch(env, e);
          && Dropped(e, r) && r.Going() && r.frames != []
          && env.sem.run(Two(MOVE, Register(0), Register(1)), ViewOf(env, r), r.data) == Done(moved)
  }

  // A whole run of an executable without a top level: the main function is called with register 1 of the
  // entry function, and when it returns, what it left in its register 0 goes to register 1 and from there
  // to register 0, where the return code is read, and the machine halts.
  lemma EntryRun<D>(job: Job, dep: Dependency, sem: Semantics<D>, data: D, framed: D, passed: D, k: nat, moved: D)
    requires Executable(job, dep) && OnTop(job) == 0 && Allocates(FileEnv(job, dep, sem))
    requires var env := FileEnv(job, dep, sem); var m := Tick(env, Loaded(Entry(job, dep), ENTRY, data));
             m.frames != [] && Passes(env, m, framed, passed) && Comes(env, Ticks(env, m, 2), k, moved)
    ensures var env := FileEnv(job, dep, sem); var m := Tick(env, Loaded(Entry(job, dep), ENTRY, data));
            var p := Ticks(env, m, 2); var e := Ticks(env, Tick(env, p), k);
            && m.selected == Local(0) && p.data == passed && p.frames == m.frames == Loaded(Entry(job, dep), ENTRY, data).frames
            && p.pending.Some? && job.main in env.functions
            && Dispatch(env, p) == Called(env, p, p.ip + 1, job.main, false, 1, Local(p.pending.value.id))
            && Returned(env, e, Tick(env, e), false, 1)
            && Ticks(env, Tick(env, e), 2) == Tick(env, e).(data := moved, ip := p.ip + 2, status := Halted)
  {
    hide Executable, FileEnv, Entry, OnTop, Dispatch, ViewOf, Tick, Pushed, Within, Dropped, Returned, CanPush, Fetch;
    EntryInPlace(job, dep, sem);
    var env, m0 := FileEnv(job, dep, sem), Loaded(Entry(job, dep), ENTRY, data);
    EntryBegins(job, dep, sem, m0);
    var m := Tick(env, m0);
    FrameTick(env, m, Two(FRAME, Register(1), Register(16)), framed) by {
      assert env.text.code[Entry(job, dep) + OnTop(job) + 1 + 0] == EntryEnd(job.main)[0];
    }
    assert Sound(m0);
    TickSound(env, m0);
    TickSound(env, m);
    FirstPush(Tick(env, m));
    MainCalled(job, dep, sem, m, framed, passed);
    var p := Ticks(env, m, 2);
    RunSound(env, m, 2);
    MainReturns(job, dep, sem, p, k, moved);
  }

  lemma FirstPush<D>(f: Machine<D>)
    requires Sound(f) && |f.frames| == 1 && f.pending.Some?
    ensures CanPush(f)
  {
  }
}
