// A generated program, loaded and run, does what its source does.
module EndToEnd {
  import opened Bytes
  import opened Opcodes
  import opened Instructions
  import opened Assembler
  import opened Jumps
  import opened Compiler
  import opened Sections
  import opened Linker
  import opened Files
  import opened Generator
  import opened Building
  import opened Loader
  import opened Machine
  import opened Stacks
  import opened Addresses
  import opened Simulation

  // ----- targets written as byte addresses -----

  // The number of instructions that start before byte v.
  function IndexAt(code: Code, v: int): (k: nat)
    ensures v >= 0 ==> k <= v
  {
    if code == [] || v <= 0 then 0
    else
      SomeBytes(code[0]);
      1 + IndexAt(code[1..], v - |Encode(code[0])|)
  }

  lemma SomeBytes(i: Instr)
    ensures |Encode(i)| > 0
  {
  }

  // An instruction starts at byte v.
  predicate StartsAt(code: Code, v: int) {
    IndexAt(code, v) < |code| && Start(code, IndexAt(code, v)) == v
  }

  lemma {:induction false} IndexOfStart(code: Code, k: nat)
    requires k < |code|
    ensures StartsAt(code, Start(code, k)) && IndexAt(code, Start(code, k)) == k
  {
    hide Encode, EncodeAll;
    StartZero(code);
    if k > 0 {
      var rest := code[1..];
      IndexOfStart(rest, k - 1);
      SomeBytes(code[0]);
      assert code[..k] == [code[0]] + rest[..k - 1];
      EncodeFirst(code[..k]);
      assert code[..k][1..] == rest[..k - 1];
    }
  }

  // A byte is understood as an instruction if and only if one starts there, and then as that one.
  lemma StartsMeaning(code: Code, v: int)
    ensures StartsAt(code, v) <==> exists k: nat :: k < |code| && Start(code, k) == v
    ensures forall k: nat | k < |code| && Start(code, k) == v :: IndexAt(code, v) == k
  {
    hide Start, IndexAt;
    forall k: nat | k < |code| && Start(code, k) == v
      ensures StartsAt(code, v) && IndexAt(code, v) == k
    {
      IndexOfStart(code, k);
    }
  }

  // A target as the index of an instruction.
  function IndexTarget(code: Code, t: Int32, k: JumpKind): Int32 {
    if k == ToByte && t >= 0 then IndexAt(code, t) else t
  }

  function IndexKind(k: JumpKind): JumpKind {
    if k == ToByte then Absolute else k
  }

  function IndexInstr(code: Code, i: Instr): Instr {
    match i
    case Jump(t, k) => Jump(IndexTarget(code, t, k), IndexKind(k))
    case Branch(c, t, tk, f, fk) => Branch(c, IndexTarget(code, t, tk), IndexKind(tk), IndexTarget(code, f, fk), IndexKind(fk))
    case _ => i
  }

  // The code with every target that is written as a byte address replaced by the index of the
  // instruction that starts at this byte.
  function ByIndex(code: Code): (r: Code)
    ensures |r| == |code| && forall k | 0 <= k < |code| :: r[k] == IndexInstr(code, code[k])
  {
    seq(|code|, k requires 0 <= k < |code| => IndexInstr(code, code[k]))
  }

  // The targets of i that are written as byte addresses are starts of instructions.
  predicate ByteTargetStarts(code: Code, i: Instr) {
    match i
    case Jump(t, k) => k == ToByte ==> StartsAt(code, t)
    case Branch(_, t, tk, f, fk) => (tk == ToByte ==> StartsAt(code, t)) && (fk == ToByte ==> StartsAt(code, f))
    case _ => true
  }

  predicate ByteTargetsStart(code: Code) {
    forall k | 0 <= k < |code| :: ByteTargetStarts(code, code[k])
  }

  // ----- targets of the linked source -----

  // The absolute targets of i are indexes below n.
  predicate AbsoluteBelow(i: Instr, n: nat) {
    match i
    case Jump(t, k) => k == Absolute ==> 0 <= t < n
    case Branch(_, t, tk, f, fk) => (tk == Absolute ==> 0 <= t < n) && (fk == Absolute ==> 0 <= f < n)
    case _ => true
  }

  lemma AbsoluteTargets(bs: Bodies, k: nat)
    requires AllAssemble(bs) && AbsoluteInside(bs) && k < |Flat(bs)|
    ensures AbsoluteBelow(Flat(bs)[k], |Flat(bs)|)
  {
    hide AllAssemble, Flat, RecordedSlots;
    FlatAgrees(bs);
    SlotsNaturalFlat(bs);
    var code := Flat(bs);
    if code[k].Jump? || code[k].Branch? {
      FilingOfSlot(code, Slot(k, false));
      if code[k].Branch? {
        FilingOfSlot(code, Slot(k, true));
      }
    }
  }

  // Linking changes nothing but relative targets.
  predicate LiftedFrom(i: Instr, j: Instr) {
    match i
    case Jump(t, k) => j.Jump? && j.kind == k && (k != Relative ==> j.target == t)
    case Branch(c, t, tk, f, fk) =>
      && j.Branch? && j.condition == c && j.trueKind == tk && j.falseKind == fk
      && (tk != Relative ==> j.ifTrue == t) && (fk != Relative ==> j.ifFalse == f)
    case _ => j == i
  }

  lemma {:induction false} LinkedFromFlat(bs: Bodies)
    requires AllAssemble(bs)
    ensures |Linked(bs)| == |Flat(bs)| && forall k | 0 <= k < |Flat(bs)| :: LiftedFrom(Flat(bs)[k], Linked(bs)[k])
  {
    hide LiftInstr, LiftedFrom, Assembles, CodeOf;
    if bs != [] {
      var init, x := bs[..|bs| - 1], bs[|bs| - 1];
      assert init + [x] == bs;
      AssembleConcat(init, [x]);
      LinkedFromFlat(init);
      forall k | 0 <= k < |CodeOf(x)|
        ensures LiftedFrom(CodeOf(x)[k], LiftInstr(CodeOf(x)[k], |Linked(init)|))
      {
        OneLifted(CodeOf(x)[k], |Linked(init)|);
      }
    }
  }

  lemma OneLifted(i: Instr, first: nat)
    ensures LiftedFrom(i, LiftInstr(i, first))
  {
  }

  lemma LiftedValid(i: Instr, j: Instr)
    requires LiftedFrom(i, j) && i.Valid()
    ensures j.Valid()
  {
  }

  lemma LiftedTargets(i: Instr, j: Instr, code: Code)
    requires LiftedFrom(i, j) && ByteTargetStarts(code, j) && AbsoluteBelow(i, |code|) && RelativeBelow(j, |code|)
    ensures TargetsIn(IndexInstr(code, j), |code|)
    ensures j.Valid() ==> IndexInstr(code, j).Valid()
  {
    hide Start, IndexAt;
    assert forall v | StartsAt(code, v) :: v >= 0;
  }

  lemma SameAfterIndexing(code: Code, exec: Code, i: Instr)
    requires |exec| == |code| && (forall k | 0 <= k < |code| :: SameButTargets(code[k], exec[k]))
    requires ByteTargetStarts(code, i) && |EncodeAll(exec)| < 0x8000_0000
    ensures AtAddresses(exec, IndexInstr(code, i)) == AtAddresses(exec, i)
  {
    hide Start, IndexAt, SameButTargets, EncodeAll, Encode;
    forall k | 0 <= k < |code|
      ensures |Encode(code[k])| == |Encode(exec[k])|
    {
      SameLength(code[k], exec[k]);
    }
    forall v: Int32 | StartsAt(code, v)
      ensures v >= 0 && ByteAddress(exec, IndexAt(code, v), 0) == v
    {
      SameStarts(code, exec, IndexAt(code, v));
    }
  }

  lemma CompiledByIndex(code: Code, exec: Code)
    requires Compiled(code, exec) && ByteTargetsStart(code) && |EncodeAll(exec)| < 0x8000_0000
    ensures Compiled(ByIndex(code), exec)
  {
    hide ByteAddress, IndexInstr, ByteTargetStarts, EncodeAll;
    forall k | 0 <= k < |code|
      ensures SameButTargets(code[k], exec[k])
    {
    }
    forall k | 0 <= k < |code|
      ensures AtAddresses(exec, IndexInstr(code, code[k])) == AtAddresses(exec, code[k])
    {
      SameAfterIndexing(code, exec, code[k]);
    }
  }

  // The linked source of a program that assembles and its executable code satisfy the assumptions
  // of the simulation.
  lemma ProgramRuns<D>(bs: Bodies, env: Env<D>)
    requires AllAssemble(bs) && AbsoluteInside(bs) && ByteTargetsStart(Linked(bs))
    requires Before(bs, |bs|) < 0x8000_0000 && env.text == Indexed(ByIndex(Linked(bs)))
    ensures Runs(env, Executable(bs))
  {
    hide AllAssemble, AbsoluteInside, Flat, Linked, Executable, Compiled, EncodeAll, Before, LiftedFrom, TargetsIn,
      FlatPlaced, Resolve, ByteTargetStarts, AbsoluteBelow, RelativeBelow, Instr.Valid, IndexInstr;
    ExecutableIsCompiled(bs);
    ExecutableLength(bs);
    LinkedFromFlat(bs);
    LinkedPlaced(bs);
    FlatAgrees(bs);
    CompiledByIndex(Linked(bs), Executable(bs));
    var code := Linked(bs);
    forall k | 0 <= k < |code|
      ensures ByIndex(code)[k].Valid() && TargetsIn(ByIndex(code)[k], |code|)
    {
      AbsoluteTargets(bs, k);
      LiftedValid(Flat(bs)[k], code[k]);
      LiftedTargets(Flat(bs)[k], code[k], code);
    }
  }

  lemma ExecutableLength(bs: Bodies)
    requires AllAssemble(bs)
    ensures |EncodeAll(Executable(bs))| == Before(bs, |bs|) && |Executable(bs)| == |Flat(bs)|
    ensures forall k | 0 <= k < |Executable(bs)| :: SameButTargets(FlatPlaced(bs, 0)[k], Executable(bs)[k])
  {
    hide AllAssemble, Flat, FlatPlaced, EncodeAll, Before, SameButTargets;
    FlatLengths(bs, 0);
    ResolvedSame(FlatPlaced(bs, 0), Absolute, 0);
  }

  // ----- where elements start -----

  // Element e starts at the same place counted in instructions and counted in bytes.
  lemma ElementAddress(bs: Bodies, e: nat)
    requires AllAssemble(bs) && e <= |bs|
    ensures AllAssemble(bs[..e])
    ensures Addr(Executable(bs), |Flat(bs[..e])|) == Before(bs, e)
  {
    hide AllAssemble, Flat, FlatPlaced, EncodeAll, Before, SameButTargets, Encode, Resolve;
    var a, b := bs[..e], bs[e..];
    assert bs == a + b;
    AssembleConcat(a, b);
    FlatConcat(a, b, 0);
    FlatLengths(a, 0);
    BeforePrefix(bs, e, e);
    ExecutableLength(bs);
    var exec, placed, n := Executable(bs), FlatPlaced(bs, 0), |Flat(a)|;
    forall j | 0 <= j < |exec|
      ensures |Encode(placed[j])| == |Encode(exec[j])|
    {
      SameLength(placed[j], exec[j]);
    }
    FlatLengths(bs, 0);
    SameStarts(placed, exec, n);
    assert placed[..n] == FlatPlaced(a, 0);
  }

  // Names with the instruction indexes at which the elements from `first` on start.
  function IndexOf(bs: Bodies, name: Name, e: nat): (Name, nat)
    requires AllAssemble(bs) && e <= |bs|
  {
    (name, |Flat(bs[..e])|)
  }

  function Indexes(names: seq<Name>, bs: Bodies, first: nat): (e: seq<(Name, nat)>)
    requires AllAssemble(bs) && first + |names| <= |bs|
    ensures |e| == |names| && forall k | 0 <= k < |e| :: e[k] == IndexOf(bs, names[k], first + k)
  {
    seq(|names|, k requires 0 <= k < |names| => IndexOf(bs, names[k], first + k))
  }

  // The same for names given with the element they stand for, counted from `first`.
  function ExportIndexes(bs: Bodies, first: nat, exports: seq<(Name, nat)>): (e: seq<(Name, nat)>)
    requires AllAssemble(bs) && forall k | 0 <= k < |exports| :: first + exports[k].1 <= |bs|
    ensures |e| == |exports| && forall k | 0 <= k < |e| :: e[k] == IndexOf(bs, exports[k].0, first + exports[k].1)
  {
    seq(|exports|, k requires 0 <= k < |exports| => IndexOf(bs, exports[k].0, first + exports[k].1))
  }

  lemma {:induction false} MappingPlaced(exec: Code, a: seq<(Name, nat)>, b: seq<(Name, nat)>)
    requires |a| == |b| && forall k | 0 <= k < |a| :: b[k] == (a[k].0, Addr(exec, a[k].1))
    ensures PlacedNames(exec, Mapping(a)) == Mapping(b)
  {
    hide Addr;
    if a != [] {
      MappingPlaced(exec, a[..|a| - 1], b[..|b| - 1]);
    }
  }

  // ----- what the lines of a program mean -----

  // All elements behind each other as their lines are understood, every target that is an index one
  // into the whole.
  function Meant(bs: Bodies): Code
    requires AllAssemble(bs)
  {
    if bs == [] then []
    else
      var n := |bs| - 1;
      Meant(bs[..n]) + Lift(Assembled(bs[n]).value, |Meant(bs[..n])|)
  }

  predicate AllConsistent(bs: Bodies) {
    forall k | 0 <= k < |bs| :: Consistent(bs[k])
  }

  lemma {:induction false} MeantIsLinked(bs: Bodies)
    requires AllAssemble(bs) && AllConsistent(bs)
    ensures Meant(bs) == Linked(bs)
  {
    hide Assembled, Assembles, Consistent, CodeOf;
    if bs != [] {
      var n := |bs| - 1;
      MeantIsLinked(bs[..n]);
      ConsistentMeaning(bs[n]);
    }
  }

  // ----- a program and what it is linked with -----

  // A library, the elements it was assembled from, and the elements its two address tables list.
  datatype Dependency = Dependency(lib: Option<Library>, bodies: Bodies, functions: seq<(Name, nat)>, blocks: seq<(Name, nat)>)

  const NONE := Dependency(None, [], [], [])

  // The table lists the exported elements with the bytes where they lie.
  predicate Exports(table: seq<(Name, nat)>, bs: Bodies, exports: seq<(Name, nat)>) {
    && |table| == |exports|
    && forall k | 0 <= k < |exports| :: exports[k].1 <= |bs| && table[k] == (exports[k].0, Before(bs, exports[k].1))
  }

  ghost predicate Provided(dep: Dependency) {
    && AllAssemble(dep.bodies) && Linkable(dep.lib, dep.bodies)
    && Exports(LibraryFunctions(dep.lib), dep.bodies, dep.functions)
    && Exports(if dep.lib.Some? then dep.lib.value.blocks else [], dep.bodies, dep.blocks)
  }

  function AllOf(job: Job, dep: Dependency): Bodies {
    LocalBodies(job) + dep.bodies
  }

  // The file can be assembled and linked, everything counted is placed, and absolute targets of the
  // library are where they were in the library.
  ghost predicate Fine(job: Job, dep: Dependency) {
    && WellFormed(job.file) && AllKnown(job.file) && NamesDistinct(job, dep.lib) && MainDefined(job, dep.lib)
    && AllAssemble(LocalBodies(job)) && AllPlaced(job) && Provided(dep)
    && AbsoluteReached(LocalBodies(job), |Flat(dep.bodies)|)
    && AbsoluteInside(dep.bodies) && SameAddresses(LocalBodies(job), dep.bodies)
    && CountedSize(job) + LibrarySize(dep.lib) < 0x1_0000
  }

  lemma FineParts(job: Job, dep: Dependency)
    requires Fine(job, dep)
    ensures WellFormed(job.file) && AllKnown(job.file) && NamesDistinct(job, dep.lib) && MainDefined(job, dep.lib)
    ensures AllAssemble(LocalBodies(job)) && AllPlaced(job) && AllAssemble(dep.bodies) && Linkable(dep.lib, dep.bodies)
    ensures Exports(LibraryFunctions(dep.lib), dep.bodies, dep.functions)
    ensures AbsoluteReached(LocalBodies(job), |Flat(dep.bodies)|)
    ensures AbsoluteInside(dep.bodies) && SameAddresses(LocalBodies(job), dep.bodies)
    ensures CountedSize(job) + LibrarySize(dep.lib) < 0x1_0000
  {
    hide WellFormed, AllKnown, CountedSize, LocalBodies, AllAssemble, AbsoluteReached, AllPlaced, Flat, Linkable, Exports,
      NamesDistinct, MainDefined, LibrarySize, LibraryFunctions, AbsoluteInside, SameAddresses;
  }

  // What is known of such a program.
  lemma FineMeaning(job: Job, dep: Dependency)
    requires Fine(job, dep)
    ensures Complete(Blocks(job)) && BodiesOf(Blocks(job)) == BlockBodies(job)
    ensures Complete(Functions(job)) && BodiesOf(Functions(job)) == FunctionBodies(job)
    ensures AllAssemble(LocalBodies(job)) && AllAssemble(dep.bodies) && AllAssemble(AllOf(job, dep))
    ensures AbsoluteInside(AllOf(job, dep))
    ensures CountedSize(job) == Before(LocalBodies(job), |LocalBodies(job)|) == |EncodeAll(Flat(LocalBodies(job)))|
    ensures Before(AllOf(job, dep), |AllOf(job, dep)|) == CountedSize(job) + LibrarySize(dep.lib) < 0x1_0000
  {
    hide WellFormed, AllKnown, CountedSize, LocalBodies, AllAssemble, AbsoluteInside, AbsoluteReached, AllPlaced, Flat, Before,
      RecordedSlots, BodiesOf, BlockBodies, FunctionBodies, Simple, EncodeAll, Distinct, Fine, Linkable, LibrarySize,
      NamesDistinct, MainDefined, Exports, Blocks, Functions, SameAddresses;
    FineParts(job, dep);
    JobReady(job, dep.lib);
    SizeIsExact(job);
    LibraryLength(dep.lib, dep.bodies);
    LinkedInside(LocalBodies(job), dep.bodies);
    BeforeConcat(LocalBodies(job), dep.bodies, |dep.bodies|);
    FlatLengths(LocalBodies(job), 0);
  }

  // The exports of the library are elements of it, and everything assembles.
  predicate Sourced(job: Job, dep: Dependency) {
    AllAssemble(AllOf(job, dep)) && forall k | 0 <= k < |dep.functions| :: dep.functions[k].1 <= |dep.bodies|
  }

  // The source: all elements of the file and of the library, with the functions of both and the blocks
  // of the file.
  function FileEnv<D>(job: Job, dep: Dependency, sem: Semantics<D>): Env<D>
    requires Sourced(job, dep)
  {
    var bs := AllOf(job, dep);
    Env(Indexed(ByIndex(Meant(bs))),
        Mapping(Indexes(Functions(job).names, bs, |BlockBodies(job)|) +
                ExportIndexes(bs, |LocalBodies(job)|, dep.functions)),
        Mapping(Indexes(Blocks(job).names, bs, 0)), sem)
  }

  // The environment built from a bytecode and the entries of its two address tables.
  function LoadedEnv<D>(job: Job, lib: Option<Library>, image: seq<Byte>, sem: Semantics<D>): Env<D>
    requires Complete(Blocks(job)) && Complete(Functions(job))
  {
    Env(Bytecode(image), Mapping(FunctionEntries(job, lib)), Mapping(Entries(Blocks(job), 0)), sem)
  }

  lemma LocalAddress(job: Job, dep: Dependency, name: Name, e: nat)
    requires AllAssemble(AllOf(job, dep)) && e <= |LocalBodies(job)|
    ensures Addr(Executable(AllOf(job, dep)), IndexOf(AllOf(job, dep), name, e).1) == Before(LocalBodies(job), e)
  {
    hide AllAssemble, Flat, Executable, Before, Addr, LocalBodies;
    var local := LocalBodies(job);
    ElementAddress(AllOf(job, dep), e);
    BeforePrefix(AllOf(job, dep), |local|, e);
    assert AllOf(job, dep)[..|local|] == local;
  }

  lemma LibraryAddress(job: Job, dep: Dependency, name: Name, e: nat)
    requires AllAssemble(AllOf(job, dep)) && e <= |dep.bodies|
    ensures Addr(Executable(AllOf(job, dep)), IndexOf(AllOf(job, dep), name, |LocalBodies(job)| + e).1) ==
            Before(LocalBodies(job), |LocalBodies(job)|) + Before(dep.bodies, e)
  {
    hide AllAssemble, Flat, Executable, Before, Addr, LocalBodies;
    ElementAddress(AllOf(job, dep), |LocalBodies(job)| + e);
    BeforeConcat(LocalBodies(job), dep.bodies, e);
  }

  // The address tables list the byte addresses of what the source names by instruction indexes.
  lemma BlocksPlaced(job: Job, dep: Dependency)
    requires Complete(Blocks(job)) && BodiesOf(Blocks(job)) == BlockBodies(job) && AllAssemble(AllOf(job, dep))
    ensures PlacedNames(Executable(AllOf(job, dep)), Mapping(Indexes(Blocks(job).names, AllOf(job, dep), 0))) ==
            Mapping(Entries(Blocks(job), 0))
  {
    hide AllAssemble, IndexOf, Executable, Before, Mapping, Addr, PlacedNames, Complete, BodiesOf, Distinct;
    var a, bs := BlockBodies(job), AllOf(job, dep);
    var exec, names := Executable(bs), Blocks(job).names;
    forall k | 0 <= k < |a|
      ensures Entries(Blocks(job), 0)[k] == (IndexOf(bs, names[k], k).0, Addr(exec, IndexOf(bs, names[k], k).1))
    {
      LocalAddress(job, dep, names[k], k);
      IndexName(bs, names[k], k);
      BeforePrefix(LocalBodies(job), |a|, k);
      assert LocalBodies(job)[..|a|] == a;
    }
    MappingPlaced(exec, Indexes(names, bs, 0), Entries(Blocks(job), 0));
  }

  lemma IndexName(bs: Bodies, name: Name, e: nat)
    requires AllAssemble(bs) && e <= |bs|
    ensures IndexOf(bs, name, e).0 == name
  {
  }

  lemma FunctionsPlaced(job: Job, dep: Dependency)
    requires Complete(Functions(job)) && BodiesOf(Functions(job)) == FunctionBodies(job) && AllAssemble(AllOf(job, dep))
    requires CountedSize(job) == Before(LocalBodies(job), |LocalBodies(job)|)
    requires Exports(LibraryFunctions(dep.lib), dep.bodies, dep.functions)
    ensures PlacedNames(Executable(AllOf(job, dep)),
                        Mapping(Indexes(Functions(job).names, AllOf(job, dep), |BlockBodies(job)|) +
                                ExportIndexes(AllOf(job, dep), |LocalBodies(job)|, dep.functions))) ==
            Mapping(FunctionEntries(job, dep.lib))
  {
    hide AllAssemble, IndexOf, Executable, Before, Mapping, Addr, PlacedNames, CountedSize, Complete, BodiesOf, Distinct,
      Definitions;
    var a, b, local, bs := BlockBodies(job), FunctionBodies(job), LocalBodies(job), AllOf(job, dep);
    var exec, names := Executable(bs), Functions(job).names;
    var indexes, entries := Indexes(names, bs, |a|) + ExportIndexes(bs, |local|, dep.functions), FunctionEntries(job, dep.lib);
    assert |indexes| == |entries| == |b| + |dep.functions|;
    forall k | 0 <= k < |indexes|
      ensures entries[k] == (indexes[k].0, Addr(exec, indexes[k].1))
    {
      if k < |b| {
        LocalAddress(job, dep, names[k], |a| + k);
        IndexName(bs, names[k], |a| + k);
        BeforeConcat(a, b, k);
      } else {
        var f := dep.functions[k - |b|];
        LibraryAddress(job, dep, f.0, f.1);
        IndexName(bs, f.0, |local| + f.1);
      }
    }
    MappingPlaced(exec, indexes, entries);
  }

  // ----- runs -----

  // The output of a job whose branches all file their targets correctly, and whose targets are all
  // instructions, also those written as byte addresses.
  ghost predicate Runnable(job: Job, dep: Dependency, out: Output) {
    && Fine(job, dep)
    && Sourced(job, dep) && AllConsistent(AllOf(job, dep)) && ByteTargetsStart(Meant(AllOf(job, dep)))
    && Complete(Blocks(job)) && Complete(Functions(job)) && AllAssemble(LocalBodies(job)) && AllAssemble(dep.bodies)
    && Written(job, dep.lib, dep.bodies, out)
  }

  // The loaded file is the placed source.
  lemma EnvPlaced<D>(job: Job, dep: Dependency, out: Output, sem: Semantics<D>)
    requires Runnable(job, dep, out)
    ensures var exec, source := Executable(AllOf(job, dep)), FileEnv(job, dep, sem);
            && source.text.Indexed?
            && Runs(source, exec) && out.bytecode == EncodeAll(exec)
            && PlacedEnv(exec, source) == LoadedEnv(job, dep.lib, out.bytecode, sem)
  {
    hide AllAssemble, AbsoluteInside, ByteTargetsStart, AllConsistent, Flat, Linked, Meant, Executable, Before, Mapping, Addr,
      PlacedNames, EncodeAll, Runs, CountedSize, LocalBodies, FunctionEntries, Complete, Indexes, ExportIndexes, Written,
      Entries, BodiesOf, Linkable, Exports, Fine, AbsoluteReached, SameAddresses, ByIndex;
    var bs := AllOf(job, dep);
    FineMeaning(job, dep);
    FineParts(job, dep);
    WrittenExecutable(job, dep.lib, dep.bodies, out);
    MeantIsLinked(bs);
    ProgramRuns(bs, FileEnv(job, dep, sem));
    BlocksPlaced(job, dep);
    FunctionsPlaced(job, dep);
  }

  // Run from the start of any function, the bytecode and the address tables written for a file, with
  // or without a library, simulate the source: the lines of file and library as they are understood,
  // whose jumps, calls and blocks name instructions by index.
  lemma JobSimulates<D>(job: Job, dep: Dependency, out: Output, sem: Semantics<D>, name: Name, data: D, n: nat)
    requires Runnable(job, dep, out) && name in FileEnv(job, dep, sem).functions
    ensures var exec, source := Executable(AllOf(job, dep)), FileEnv(job, dep, sem);
            var loaded := LoadedEnv(job, dep.lib, out.bytecode, sem);
            && name in loaded.functions
            && var m := Loaded(source.functions[name], name, data);
               Ticks(loaded, Loaded(loaded.functions[name], name, data), n + Delays(source, m, n)) ==
               Placed(exec, Ticks(source, m, n))
  {
    hide Sourced, ByteTargetsStart, AllConsistent, Executable, Addr, PlacedNames, EncodeAll, Runs, LocalBodies, Complete, Written,
      Ticks, Delays, Placed, FileEnv, LoadedEnv, Fine;
    var exec, source := Executable(AllOf(job, dep)), FileEnv(job, dep, sem);
    EnvPlaced(job, dep, out, sem);
    EntryPlaced(exec, source, name, data);
    Simulates(source, exec, Loaded(source.functions[name], name, data), n);
  }

  lemma EntryPlaced<D>(exec: Code, env: Env<D>, name: Name, data: D)
    requires name in env.functions && env.text.Indexed?
    ensures name in PlacedEnv(exec, env).functions
    ensures var m := Loaded(env.functions[name], name, data);
            && EntersSaved(env, m)
            && Placed(exec, m) == Loaded(PlacedEnv(exec, env).functions[name], name, data)
  {
    hide Addr;
    LoadedPlaced(exec, env.functions[name], name, data);
  }

  lemma LoadedPlaced<D>(exec: Code, entry: nat, name: Name, data: D)
    ensures Placed(exec, Loaded(entry, name, data)) == Loaded(Addr(exec, entry), name, data)
  {
    AddrZero(exec);
    hide Addr;
    assert PlacedFrames(exec, [Frame(0, 0, name, false, 0)]) == [Frame(0, 0, name, false, 0)];
    assert PlacedBlocks(exec, []) == [];
  }

  // Nothing else happens in the bytecode: each of its ticks belongs to one of the source, or is the
  // NOP that an instruction of the source has left it on.
  lemma JobIsSimulated<D>(job: Job, dep: Dependency, out: Output, sem: Semantics<D>, name: Name, data: D, t: nat)
    returns (n: nat, behind: bool)
    requires Runnable(job, dep, out) && name in FileEnv(job, dep, sem).functions
    ensures var exec, source := Executable(AllOf(job, dep)), FileEnv(job, dep, sem);
            var loaded := LoadedEnv(job, dep.lib, out.bytecode, sem);
            && name in loaded.functions
            && var m := Loaded(source.functions[name], name, data);
               var s, p := Ticks(source, m, n), Ticks(loaded, Loaded(loaded.functions[name], name, data), t);
               && t == n + Delays(source, m, n) + (if behind then 1 else 0)
               && (behind ==> Lags(source, s))
               && if behind then s.Live() && p == OnNul(exec, Dispatch(source, s)) else p == Placed(exec, s)
  {
    hide Sourced, ByteTargetsStart, AllConsistent, Executable, Addr, PlacedNames, EncodeAll, Runs, LocalBodies, Complete, Written,
      Ticks, Delays, Placed, OnNul, Dispatch, Lags, FileEnv, LoadedEnv, Fine;
    var exec, source := Executable(AllOf(job, dep)), FileEnv(job, dep, sem);
    EnvPlaced(job, dep, out, sem);
    EntryPlaced(exec, source, name, data);
    n, behind := Simulated(source, exec, Loaded(source.functions[name], name, data), t);
  }

  // ----- the whole chain -----

  lemma ExportSmall(table: seq<(Name, nat)>, bs: Bodies, exports: seq<(Name, nat)>, k: nat)
    requires Exports(table, bs, exports) && k < |table|
    ensures table[k].1 <= Before(bs, |bs|)
  {
    hide Before;
    BeforeMonotone(bs, exports[k].1, |bs|);
  }

  lemma LocalSmall(job: Job, dep: Dependency, k: nat)
    requires Fine(job, dep)
    ensures k <= |BlockBodies(job)| ==> Before(BlockBodies(job), k) < 0x1_0000
    ensures k <= |FunctionBodies(job)| ==>
              Before(BlockBodies(job), |BlockBodies(job)|) + Before(FunctionBodies(job), k) < 0x1_0000
  {
    hide CountedSize, Before, Fine, BlockBodies, FunctionBodies, AbsoluteInside, AllAssemble, Flat, EncodeAll, LibrarySize,
      Complete;
    var a, b := BlockBodies(job), FunctionBodies(job);
    FineMeaning(job, dep);
    BeforeConcat(a, b, |b|);
    if k <= |a| {
      BeforeMonotone(a, k, |a|);
    }
    if k <= |b| {
      BeforeMonotone(b, k, |b|);
    }
  }

  lemma LinkedSmall(job: Job, dep: Dependency, k: nat)
    requires Fine(job, dep) && k < |LibraryFunctions(dep.lib)|
    ensures LibraryFunctions(dep.lib)[k].1 + CountedSize(job) < 0x1_0000
  {
    hide CountedSize, Before, Fine, AllAssemble, Linkable, Exports, LibraryFunctions, LibrarySize, AbsoluteReached, AllPlaced,
      NamesDistinct, MainDefined, RecordedSlots;
    FineParts(job, dep);
    LibraryLength(dep.lib, dep.bodies);
    ExportSmall(LibraryFunctions(dep.lib), dep.bodies, dep.functions, k);
  }

  // Every address in a table fits the 16 bits it is written in.
  lemma TablesSmall(job: Job, dep: Dependency)
    requires Fine(job, dep) && Complete(Blocks(job)) && Complete(Functions(job))
    ensures forall k | 0 <= k < |FunctionEntries(job, dep.lib)| :: FunctionEntries(job, dep.lib)[k].1 < 0x1_0000
    ensures forall k | 0 <= k < |Entries(Blocks(job), 0)| :: Entries(Blocks(job), 0)[k].1 < 0x1_0000
  {
    hide CountedSize, Before, BodiesOf, Complete, Fine, Definitions, LibraryFunctions, AbsoluteInside, AllAssemble, Flat,
      EncodeAll, LibrarySize;
    FineMeaning(job, dep);
    var entries, n := FunctionEntries(job, dep.lib), |Functions(job).names|;
    forall k | 0 <= k < |entries|
      ensures entries[k].1 < 0x1_0000
    {
      if k < n {
        LocalSmall(job, dep, k);
      } else {
        LinkedSmall(job, dep, k - n);
      }
    }
    forall k | 0 <= k < |Entries(Blocks(job), 0)|
      ensures Entries(Blocks(job), 0)[k].1 < 0x1_0000
    {
      LocalSmall(job, dep, k);
    }
  }

  // The function table of a linked file ascends when that of the library does, so the sizes the loader
  // computes partition the bytecode behind the blocks.
  lemma TableAscends(job: Job, dep: Dependency)
    requires Fine(job, dep) && Complete(Functions(job))
    requires Ascending(LibraryFunctions(dep.lib), LibrarySize(dep.lib))
    ensures Ascending(FunctionEntries(job, dep.lib), CountedSize(job) + LibrarySize(dep.lib))
  {
    hide CountedSize, Before, BodiesOf, Complete, Fine, Definitions, LibraryFunctions, AbsoluteInside, AllAssemble, Flat,
      EncodeAll, LibrarySize, BlockBodies, FunctionBodies;
    var a, b, n := BlockBodies(job), FunctionBodies(job), |Functions(job).names|;
    FineMeaning(job, dep);
    assert |b| == n;
    var entries := FunctionEntries(job, dep.lib);
    BeforeConcat(a, b, |b|);
    forall k | 0 <= k < n
      ensures entries[k].1 <= CountedSize(job) && (k < n - 1 ==> entries[k].1 <= entries[k + 1].1)
    {
      BeforeMonotone(b, k, |b|);
      if k < n - 1 {
        BeforeMonotone(b, k, k + 1);
      }
    }
  }

  // Assemble a file, link it, read its tables back: what has been loaded runs as the source does, for
  // any number of steps from the start of any function.
  method BuildAndLoad<D>(job: Job, lib: Option<Library>, ghost dep: Dependency, ghost sem: Semantics<D>, ghost name: Name,
                         ghost data: D)
    returns (out: Output, functions: map<Name, nat>, blocks: map<Name, nat>)
    requires lib == dep.lib && Fine(job, dep) && Sourced(job, dep)
    requires AllConsistent(AllOf(job, dep)) && ByteTargetsStart(Meant(AllOf(job, dep)))
    requires name in FileEnv(job, dep, sem).functions
    ensures var exec, source := Executable(AllOf(job, dep)), FileEnv(job, dep, sem);
            var loaded := Env(Bytecode(out.bytecode), functions, blocks, sem);
            && name in functions
            && var m := Loaded(source.functions[name], name, data);
               forall n: nat :: Ticks(loaded, Loaded(functions[name], name, data), n + Delays(source, m, n)) ==
                                Placed(exec, Ticks(source, m, n))
  {
    hide Sourced, ByteTargetsStart, AllConsistent, Executable, LocalBodies, Complete, Written, Ticks, Delays, Placed, FileEnv, Fine,
      WellFormed, Ended, Nests, AllKnown, CountedSize, AllAssemble, AbsoluteReached, AbsoluteLost, Flat,
      MainDefined, NamesDistinct, Linkable, LibrarySize, Uncovered, FunctionEntries, Entries, Table, Mapping, Loaded, Blocks,
      Functions, Meant, AllOf, Tick, BytesBehind;
    FineIsBuildable(job, dep);
    var built := Build(job, lib, dep.bodies);
    out := built.value;
    TablesSmall(job, dep);
    WrittenTables(job, dep, out);
    var functionOrder, blockOrder;
    functionOrder, functions := LoadMap(out.functionTable, FunctionEntries(job, dep.lib));
    blockOrder, blocks := LoadMap(out.blockTable, Entries(Blocks(job), 0));
    SourceIsIndexed(job, dep, sem);
    AllSimulated(job, dep, out, sem, name, data, functions, blocks);
  }

  lemma AllSimulated<D>(job: Job, dep: Dependency, out: Output, sem: Semantics<D>, name: Name, data: D,
                        functions: map<Name, nat>, blocks: map<Name, nat>)
    requires Runnable(job, dep, out) && name in FileEnv(job, dep, sem).functions
    requires functions == Mapping(FunctionEntries(job, dep.lib)) && blocks == Mapping(Entries(Blocks(job), 0))
    ensures var exec, source := Executable(AllOf(job, dep)), FileEnv(job, dep, sem);
            var loaded := Env(Bytecode(out.bytecode), functions, blocks, sem);
            && source.text.Indexed? && name in functions
            && var m := Loaded(source.functions[name], name, data);
               forall n: nat :: Ticks(loaded, Loaded(functions[name], name, data), n + Delays(source, m, n)) ==
                                Placed(exec, Ticks(source, m, n))
  {
    hide Runnable, Executable, Ticks, Delays, Placed, FileEnv, FunctionEntries, Entries, Mapping;
    RunnableParts(job, dep, out, sem);
    var source := FileEnv(job, dep, sem);
    JobSimulates(job, dep, out, sem, name, data, 0);
    forall n: nat
      ensures Ticks(Env(Bytecode(out.bytecode), functions, blocks, sem), Loaded(functions[name], name, data),
                    n + Delays(source, Loaded(source.functions[name], name, data), n)) ==
              Placed(Executable(AllOf(job, dep)), Ticks(source, Loaded(source.functions[name], name, data), n))
    {
      JobSimulates(job, dep, out, sem, name, data, n);
    }
  }

  lemma RunnableParts<D>(job: Job, dep: Dependency, out: Output, sem: Semantics<D>)
    requires Runnable(job, dep, out)
    ensures Complete(Blocks(job)) && Complete(Functions(job)) && Sourced(job, dep) && AllAssemble(AllOf(job, dep))
    ensures FileEnv(job, dep, sem).text.Indexed?
  {
    hide AllAssemble, Complete, Written, Fine, ByteTargetsStart, AllConsistent;
  }

  lemma SourceIsIndexed<D>(job: Job, dep: Dependency, sem: Semantics<D>)
    requires Sourced(job, dep)
    ensures AllAssemble(AllOf(job, dep)) && FileEnv(job, dep, sem).text.Indexed?
  {
    hide AllAssemble;
  }

  lemma FineIsBuildable(job: Job, dep: Dependency)
    requires Fine(job, dep)
    ensures Ended(job.file) && WellFormed(job.file) && NamesDistinct(job, dep.lib)
    ensures CountedSize(job) + LibrarySize(dep.lib) < 0x1_0000
    ensures AllAssemble(dep.bodies) && Linkable(dep.lib, dep.bodies) && AllKnown(job.file) && MainDefined(job, dep.lib)
    ensures Assemblable(job, dep.lib) && AbsoluteReached(LocalBodies(job), BytesBehind(job, dep.lib))
    ensures Complete(Blocks(job)) && Complete(Functions(job))
  {
    hide WellFormed, Ended, AllKnown, CountedSize, LocalBodies, AllAssemble, AllPlaced, Flat, Before, EncodeAll,
      Holds, NamesDistinct, MainDefined, Complete, BodiesOf, AbsoluteInside, SameAddresses, Linkable, RecordedSlots, LibrarySize,
      Exports, LibraryFunctions, Uncovered, HasSlot, TargetOf;
    WellFormedFile(job.file, FunctionDefinition);
    FineMeaning(job, dep);
    LibraryLength(dep.lib, dep.bodies);
    SomeBehind(Flat(dep.bodies));
  }

  lemma SomeBehind(code: Code)
    ensures code != [] ==> |EncodeAll(code)| > 0
  {
    hide Encode;
    if code != [] {
      SomeBytes(code[0]);
    }
  }

  lemma WrittenTables(job: Job, dep: Dependency, out: Output)
    requires Complete(Blocks(job)) && Complete(Functions(job)) && AllAssemble(LocalBodies(job)) && AllAssemble(dep.bodies)
    requires Written(job, dep.lib, dep.bodies, out)
    ensures out.functionTable == Table(FunctionEntries(job, dep.lib)) && out.blockTable == Table(Entries(Blocks(job), 0))
  {
    hide Complete, AllAssemble, LocalBodies, FunctionEntries, Entries, Table, CountedSize, EncodeAll, Flat, FlatPlaced,
      RecordedSlots;
  }

  // ----- a library assembled before -----

  // A library file as something to link with: its elements are those of the job it was made of.
  function AsDependency(job: Job, out: Output): Dependency
    requires Complete(Blocks(job)) && Complete(Functions(job))
  {
    Dependency(
      Some(Library(out.jumpTable, Entries(Blocks(job), 0), FunctionEntries(job, None), out.bytecode)),
      LocalBodies(job),
      seq(|Functions(job).names|, k requires 0 <= k < |Functions(job).names| =>
        (Functions(job).names[k], |BlockBodies(job)| + k)),
      seq(|Blocks(job).names|, k requires 0 <= k < |Blocks(job).names| => (Blocks(job).names[k], k)))
  }

  // What is assembled as a library can be linked, and has its absolute targets inside.
  lemma LibraryCanBeLinked(job: Job, out: Output)
    requires job.asLib && Fine(job, NONE)
    requires Complete(Blocks(job)) && Complete(Functions(job)) && Written(job, None, [], out)
    ensures Provided(AsDependency(job, out)) && AbsoluteInside(LocalBodies(job))
  {
    hide CountedSize, AllAssemble, Before, BodiesOf, Complete, Definitions, Flat, FlatPlaced, EncodeAll, RecordedSlots,
      Locates, Executable, Table, LocalCode, WellFormed, AllKnown, NamesDistinct, AllPlaced, AbsoluteReached, MainDefined;
    var local := LocalBodies(job);
    FineMeaning(job, NONE);
    FineParts(job, NONE);
    assert local + [] == local;
    WrittenExecutable(job, None, [], out);
    ExecutableIsLibrary(local);
    ExportsOf(job, out);
  }

  lemma ExecutableIsLibrary(bs: Bodies)
    requires AllAssemble(bs)
    ensures Executable(bs) == LibraryCode(bs, 0)
  {
    hide AllAssemble, FlatPlaced, ResolveIn;
  }

  lemma ExportAt(job: Job, k: nat)
    ensures k <= |BlockBodies(job)| ==> Before(LocalBodies(job), k) == Before(BlockBodies(job), k)
    ensures k <= |FunctionBodies(job)| ==>
              Before(LocalBodies(job), |BlockBodies(job)| + k) ==
              Before(BlockBodies(job), |BlockBodies(job)|) + Before(FunctionBodies(job), k)
  {
    hide Before, BlockBodies, FunctionBodies;
    var a, b := BlockBodies(job), FunctionBodies(job);
    if k <= |a| {
      BeforePrefix(LocalBodies(job), |a|, k);
      assert LocalBodies(job)[..|a|] == a;
    }
    if k <= |b| {
      BeforeConcat(a, b, k);
    }
  }

  lemma ExportsOf(job: Job, out: Output)
    requires Complete(Blocks(job)) && BodiesOf(Blocks(job)) == BlockBodies(job)
    requires Complete(Functions(job)) && BodiesOf(Functions(job)) == FunctionBodies(job)
    ensures var dep := AsDependency(job, out);
            && Exports(LibraryFunctions(dep.lib), dep.bodies, dep.functions)
            && Exports(dep.lib.value.blocks, dep.bodies, dep.blocks)
  {
    hide CountedSize, Before, BodiesOf, Complete, Definitions;
    var dep, a, b := AsDependency(job, out), BlockBodies(job), FunctionBodies(job);
    assert |Blocks(job).names| == |a| && |Functions(job).names| == |b|;
    hide BlockBodies, FunctionBodies, Blocks, Functions;
    var entries := LibraryFunctions(dep.lib);
    forall k | 0 <= k < |b|
      ensures entries[k] == (dep.functions[k].0, Before(dep.bodies, dep.functions[k].1))
    {
      ExportAt(job, k);
    }
    forall k | 0 <= k < |a|
      ensures dep.lib.value.blocks[k] == (dep.blocks[k].0, Before(dep.bodies, dep.blocks[k].1))
    {
      ExportAt(job, k);
    }
  }
}
