// A whole file from source lines to the written sections (src/front/asm/gather.cpp:11-67,
// src/front/asm/generate.cpp:747-886, 1064-1279).
module Building {
  import opened Bytes
  import opened Opcodes
  import opened Instructions
  import opened Assembler
  import opened Jumps
  import opened Patching
  import opened Compiler
  import opened Sections
  import opened Linker
  import opened Files
  import opened Generator

  // What the assembler is asked for: the lines of a file, whether they make a library, and the main
  // function otherwise.
  datatype Job = Job(file: seq<Line>, asLib: bool, main: Name)

  // ----- the parts of a file -----

  function BodyList(d: seq<(Name, seq<Line>)>): (bs: Bodies)
    ensures |bs| == |d| && forall k | 0 <= k < |bs| :: bs[k] == d[k].1
  {
    seq(|d|, k requires 0 <= k < |d| => d[k].1)
  }

  function Gathered(d: seq<(Name, seq<Line>)>): Invocables {
    Invocables(NamesOf(d), BodyMap(d))
  }

  function Blocks(job: Job): Invocables {
    Gathered(Definitions(job.file, BlockDefinition))
  }

  // The functions of the file and, unless it is a library, the entry function behind them.
  function Functions(job: Job): Invocables {
    var v := Gathered(Definitions(job.file, FunctionDefinition));
    if job.asLib then v else Invocables(v.names + [ENTRY], v.bodies[ENTRY := EntryLines(job.file, job.main)])
  }

  function BlockBodies(job: Job): Bodies {
    BodyList(Definitions(job.file, BlockDefinition))
  }

  function FunctionBodies(job: Job): Bodies {
    BodyList(Definitions(job.file, FunctionDefinition)) + (if job.asLib then [] else [EntryLines(job.file, job.main)])
  }

  // Everything generated for the file, in order.
  function LocalBodies(job: Job): Bodies {
    BlockBodies(job) + FunctionBodies(job)
  }

  function LibraryFunctions(lib: Option<Library>): seq<(Name, nat)> {
    if lib.Some? then lib.value.functions else []
  }

  function LibrarySize(lib: Option<Library>): nat {
    if lib.Some? then |lib.value.bytecode| else 0
  }

  function AllNames(job: Job, lib: Option<Library>): seq<Name> {
    Functions(job).names + seq(|LibraryFunctions(lib)|, k requires 0 <= k < |LibraryFunctions(lib)| => LibraryFunctions(lib)[k].0)
  }

  // No two functions and no two blocks share a name.
  predicate NamesDistinct(job: Job, lib: Option<Library>) {
    Distinct(Blocks(job).names) && Distinct(AllNames(job, lib))
  }

  lemma {:induction false} MapOfDistinct(d: seq<(Name, seq<Line>)>, k: nat)
    requires k < |d| && Distinct(NamesOf(d))
    ensures d[k].0 in BodyMap(d) && BodyMap(d)[d[k].0] == d[k].1
    decreases |d|
  {
    var n := |d| - 1;
    if k < n {
      assert NamesOf(d)[k] != NamesOf(d)[n];
      DistinctPrefix(NamesOf(d), n);
      assert NamesOf(d[..n]) == NamesOf(d)[..n];
      MapOfDistinct(d[..n], k);
    }
  }

  lemma GatheredComplete(d: seq<(Name, seq<Line>)>)
    requires Distinct(NamesOf(d))
    ensures Complete(Gathered(d))
  {
    hide BodyMap;
    forall k | 0 <= k < |d|
      ensures d[k].0 in BodyMap(d)
    {
      MapOfDistinct(d, k);
    }
  }

  lemma GatheredBodies(d: seq<(Name, seq<Line>)>)
    requires Distinct(NamesOf(d)) && forall k | 0 <= k < |d| :: NoDefinitions(d[k].1)
    ensures Simple(Gathered(d)) && BodiesOf(Gathered(d)) == BodyList(d)
  {
    hide BodyMap, NoDefinitions;
    forall k | 0 <= k < |d|
      ensures d[k].0 in BodyMap(d) && BodyMap(d)[d[k].0] == d[k].1
    {
      MapOfDistinct(d, k);
    }
  }

  // What the sections of a well-formed file consist of.
  lemma JobReady(job: Job, lib: Option<Library>)
    requires WellFormed(job.file) && NamesDistinct(job, lib)
    ensures Simple(Blocks(job)) && Ready(Blocks(job)) && BodiesOf(Blocks(job)) == BlockBodies(job)
    ensures Simple(Gathered(Definitions(job.file, FunctionDefinition)))
    ensures Ready(Functions(job)) && BodiesOf(Functions(job)) == FunctionBodies(job)
    ensures forall k | 0 <= k < |Functions(job).names| - 1 :: NoDefinitions(Functions(job).bodies[Functions(job).names[k]])
    ensures forall k | 0 <= k < |Blocks(job).names| - 1 :: NoDefinitions(Blocks(job).bodies[Blocks(job).names[k]])
  {
    hide BodyMap, NoDefinitions, Definitions, WellFormed, EntryLines, Ended, AllClosed;
    var d := Definitions(job.file, FunctionDefinition);
    WellFormedFile(job.file, BlockDefinition);
    WellFormedFile(job.file, FunctionDefinition);
    GatheredBodies(Definitions(job.file, BlockDefinition));
    SimpleIsReady(Blocks(job));
    LocalNames(job, lib);
    GatheredBodies(d);
    SimpleIsReady(Gathered(d));
    if !job.asLib {
      ClosedFile(job.file);
      EntryMeaning(job.file, job.main);
      WithEntry(Gathered(d), EntryLines(job.file, job.main));
    }
  }

  lemma LocalNames(job: Job, lib: Option<Library>)
    requires NamesDistinct(job, lib)
    ensures Distinct(Functions(job).names) && Distinct(NamesOf(Definitions(job.file, FunctionDefinition)))
  {
    var names, all := Functions(job).names, AllNames(job, lib);
    assert forall k | 0 <= k < |names| :: all[k] == names[k];
    assert forall k | 0 <= k < |Definitions(job.file, FunctionDefinition)| ::
        names[k] == NamesOf(Definitions(job.file, FunctionDefinition))[k];
  }

  lemma WithEntry(v: Invocables, entry: seq<Line>)
    requires Simple(v) && Ready(v) && AllClosed(entry) && Distinct(v.names + [ENTRY])
    ensures var w := Invocables(v.names + [ENTRY], v.bodies[ENTRY := entry]);
            && Ready(w) && BodiesOf(w) == BodiesOf(v) + [entry]
            && forall k | 0 <= k < |v.names| :: NoDefinitions(w.bodies[w.names[k]])
  {
    hide AllClosed, NoDefinitions;
    var names := v.names + [ENTRY];
    forall k | 0 <= k < |v.names|
      ensures v.names[k] != ENTRY
    {
      assert names[k] != names[|v.names|];
    }
  }

  // ----- the size of the image -----

  // The bytes generate counts: all lines of the file, and what the entry function adds.
  function CountedSize(job: Job): nat {
    TotalBytes(job.file) + (if job.asLib then 0 else EntrySize(job.main))
  }

  // Bytes that are counted without being generated: those of instructions in no function and no block,
  // of which an executable has the top level in its entry function.
  function Uncovered(job: Job): nat {
    Elsewhere(job.file, job.asLib)
  }

  lemma {:induction false} ListedBytes(d: seq<(Name, seq<Line>)>)
    requires forall k | 0 <= k < |d| :: NoDefinitions(d[k].1)
    ensures Before(BodyList(d), |d|) == DefinedBytes(d)
  {
    hide NoDefinitions, TotalBytes, BodyBytes;
    if d != [] {
      var n := |d| - 1;
      ListedBytes(d[..n]);
      FilterKeepsBytes(d[n].1);
      BeforePrefix(BodyList(d), n, n);
      assert BodyList(d)[..n] == BodyList(d[..n]);
    }
  }

  // The counted size is the size of what is laid out and of what is left uncovered.
  lemma CountedIsLaidOut(job: Job)
    requires WellFormed(job.file)
    ensures CountedSize(job) == Before(LocalBodies(job), |LocalBodies(job)|) + Uncovered(job)
  {
    hide WellFormed, NoDefinitions, Definitions, TotalBytes, BodyBytes, EntryLines, EntrySize, DefinedBytes, Before, Elsewhere,
      Ended, AllClosed;
    var b, f := Definitions(job.file, BlockDefinition), Definitions(job.file, FunctionDefinition);
    WellFormedFile(job.file, BlockDefinition);
    WellFormedFile(job.file, FunctionDefinition);
    ListedBytes(b);
    ListedBytes(f);
    FlatFile(job.file);
    CountOfParts(job.file);
    BeforeConcat(BlockBodies(job), FunctionBodies(job), |FunctionBodies(job)|);
    if job.asLib {
      assert FunctionBodies(job) == BodyList(f);
    } else {
      ClosedFile(job.file);
      EntryMeaning(job.file, job.main);
      BeforeSnoc(BodyList(f), EntryLines(job.file, job.main));
    }
  }

  lemma FlatFile(file: seq<Line>)
    requires WellFormed(file)
    ensures Ended(file) && BodiesFlat(file, FunctionDefinition) && BodiesFlat(file, BlockDefinition)
  {
  }

  lemma EveryInstruction(op: Byte, t: seq<Token>)
    requires Known(op)
    ensures LineBytes(op, t) > 0
  {
    hide Literal, CatchRest, Lstrip, Chunk;
  }

  lemma {:induction false} DefinedKnown(lines: seq<Line>, kind: Definition)
    requires AllKnown(lines)
    ensures forall k | 0 <= k < |Definitions(lines, kind)| :: AllKnown(Definitions(lines, kind)[k].1)
  {
    hide OpenOf, Known;
    if lines != [] {
      var n := |lines| - 1;
      DefinedKnown(lines[..n], kind);
    }
  }

  // Every instruction of the file ends up in a function or a block, of which the entry function is one.
  predicate AllPlaced(job: Job) {
    forall k | 0 <= k < |job.file| && job.file[k].Instruction? :: !Outside(job.file[..k], job.asLib)
  }

  lemma {:induction false} NothingElsewhere(lines: seq<Line>, top: bool)
    requires AllKnown(lines)
    ensures Elsewhere(lines, top) == 0 <==>
            forall k | 0 <= k < |lines| && lines[k].Instruction? :: !Outside(lines[..k], top)
  {
    hide Outside, LineBytes, Known;
    if lines != [] {
      var n := |lines| - 1;
      assert lines == lines[..n] + [lines[n]];
      KnownSnoc(lines[..n], lines[n]);
      NothingElsewhere(lines[..n], top);
      assert forall k | 0 <= k < n :: lines[..n][..k] == lines[..k];
      if lines[n].Instruction? {
        EveryInstruction(lines[n].op, lines[n].operands);
      }
    }
  }

  // The image has exactly the size of what is generated for the file if and only if no instruction
  // stands outside of functions and blocks, where the entry function counts as one.
  lemma SizeIsExact(job: Job)
    requires WellFormed(job.file) && AllKnown(job.file)
    ensures CountedSize(job) == Before(LocalBodies(job), |LocalBodies(job)|) <==> AllPlaced(job)
  {
    hide WellFormed, AllKnown, Elsewhere, Before, LocalBodies, CountedSize, Outside;
    CountedIsLaidOut(job);
    NothingElsewhere(job.file, job.asLib);
  }

  // ----- the whole file -----

  // What is written: jump table, block table, function table and bytecode.
  datatype Output = Output(jumpTable: seq<nat>, blockTable: seq<Byte>, functionTable: seq<Byte>, bytecode: seq<Byte>)

  // The entries of the function table: local functions behind the blocks, and those of the library.
  function FunctionEntries(job: Job, lib: Option<Library>): seq<(Name, nat)>
    requires Complete(Functions(job))
  {
    Entries(Functions(job), Before(BlockBodies(job), |BlockBodies(job)|)) +
    LinkedEntries(LibraryFunctions(lib), CountedSize(job))
  }

  predicate MainDefined(job: Job, lib: Option<Library>) {
    job.asLib || job.main in AllNames(job, lib)
  }

  // The elements of the library if there is one.
  ghost predicate Linkable(lib: Option<Library>, libBodies: Bodies) {
    if lib.Some? then Holds(lib.value, libBodies) else libBodies == []
  }

  // What the output of a job holds: the local code, the library raised by the counted size behind it,
  // and as many bytes as were counted.
  ghost predicate Written(job: Job, lib: Option<Library>, libBodies: Bodies, out: Output)
    requires Complete(Blocks(job)) && Complete(Functions(job)) && AllAssemble(LocalBodies(job)) && AllAssemble(libBodies)
  {
    var local, placed := LocalBodies(job), LibraryCode(libBodies, CountedSize(job));
    var end := Before(local, |local|) + LibrarySize(lib);
    && |out.bytecode| == CountedSize(job) + LibrarySize(lib) >= end
    && out.bytecode[..end] == EncodeAll(LocalCode(local)) + EncodeAll(placed)
    && out.blockTable == Table(Entries(Blocks(job), 0))
    && out.functionTable == Table(FunctionEntries(job, lib))
    && Locates(Flat(local), RecordedSlots(Flat(local), false), out.jumpTable)
  }

  // When everything counted is placed, the bytecode is that of assembling file and library together if
  // and only if the absolute targets of the library have the same addresses in both.
  lemma WrittenExecutable(job: Job, lib: Option<Library>, libBodies: Bodies, out: Output)
    requires Complete(Blocks(job)) && Complete(Functions(job)) && AllAssemble(LocalBodies(job)) && AllAssemble(libBodies)
    requires Linkable(lib, libBodies) && Written(job, lib, libBodies, out)
    requires CountedSize(job) == Before(LocalBodies(job), |LocalBodies(job)|)
    requires CountedSize(job) + LibrarySize(lib) < 0x1_0000 && AbsoluteReached(LocalBodies(job), |Flat(libBodies)|)
    ensures AllAssemble(LocalBodies(job) + libBodies)
    ensures out.bytecode == EncodeAll(Executable(LocalBodies(job) + libBodies)) <==> SameAddresses(LocalBodies(job), libBodies)
  {
    hide CountedSize, LocalBodies, AllAssemble, Flat, LibraryCode, Before, EncodeAll, Executable, LocalCode, Table,
      Entries, FunctionEntries, Locates, Holds, RecordedSlots, AbsoluteReached, SameAddresses;
    var local := LocalBodies(job);
    LibraryLength(lib, libBodies);
    LinkedExecutable(local, libBodies);
    var placed := LibraryCode(libBodies, Before(local, |local|));
    EncodeConcat(LocalCode(local), placed);
    assert out.bytecode == out.bytecode[..|out.bytecode|];
    ExecutableAlike(local, libBodies);
  }

  lemma ExecutableAlike(local: Bodies, bs: Bodies)
    requires AllAssemble(local) && AllAssemble(bs)
    ensures AllAssemble(local + bs)
    ensures var whole, parts := Executable(local + bs), LocalCode(local) + LibraryCode(bs, Before(local, |local|));
            EncodeAll(whole) == EncodeAll(parts) <==> whole == parts
  {
    hide AllAssemble, FlatPlaced, Before, EncodeAll, ResolveIn, Followed, Executable, SameButTargets;
    var a, b := FlatPlaced(local, 0), FlatPlaced(bs, Before(local, |local|));
    ExecutableParts(local, bs);
    ResolvedKinds(a, a + b, Followed(a));
    ResolvedKinds(b, a + b, FlatPlaced(bs, 0));
    ShapeConcat(ResolveIn(a + b, a, Absolute, 0), LocalCode(local), ResolveIn(a + b, b, Absolute, 0),
                LibraryCode(bs, Before(local, |local|)));
    EncodedAlike(Executable(local + bs), LocalCode(local) + LibraryCode(bs, Before(local, |local|)));
  }

  lemma LibraryLength(lib: Option<Library>, libBodies: Bodies)
    requires Linkable(lib, libBodies)
    ensures AllAssemble(libBodies) && Before(libBodies, |libBodies|) == LibrarySize(lib)
    ensures |EncodeAll(Flat(libBodies))| == LibrarySize(lib)
  {
    hide Flat, LibraryCode, Before, RecordedSlots, EncodeAll, AllAssemble;
    if lib.None? {
      FlatNothing(0);
      BeforeNothing([]);
      EncodeNothing();
    } else {
      LibrarySame(libBodies, 0);
      FlatLengths(libBodies, 0);
    }
  }

  // All blocks, then all functions.
  method GenerateBodies(blocks: Invocables, functions: Invocables, ghost job: Job, ghost lib: Option<Library>)
    returns (ok: bool, blockCode: map<Name, Element>, functionCode: map<Name, Element>, size: nat, jumpTable: seq<nat>,
             jumpPositions: seq<(nat, nat)>)
    requires WellFormed(job.file) && NamesDistinct(job, lib) && CountedSize(job) < 0x1_0000
    requires blocks == Blocks(job) && functions == Functions(job)
    ensures Complete(blocks) && Complete(functions)
    ensures ok <==> AllAssemble(LocalBodies(job))
    ensures ok ==> Generated(LocalBodies(job), size, jumpTable, jumpPositions)
    ensures ok ==> ElementsOf(blocks, 0, |blocks.names|, blockCode)
    ensures ok ==> ElementsOf(functions, Before(BlockBodies(job), |BlockBodies(job)|), |functions.names|, functionCode)
  {
    hide WellFormed, CountedSize, Definitions, BodyMap, AllAssemble, Before, Generated, ElementsOf, NoDefinitions, EntryLines,
      Uncovered;
    JobReady(job, lib);
    CountedIsLaidOut(job);
    BeforeConcat(BlockBodies(job), FunctionBodies(job), |FunctionBodies(job)|);
    NothingGenerated();
    AssembleConcat(BlockBodies(job), FunctionBodies(job));
    blockCode, functionCode := map[], map[];
    ok, blockCode, size, jumpTable, jumpPositions := GenerateSection(blocks, 0, [], [], []);
    if !ok {
      return;
    }
    assert [] + BlockBodies(job) == BlockBodies(job);
    GeneratedSize(BlockBodies(job), size, jumpTable, jumpPositions);
    ok, functionCode, size, jumpTable, jumpPositions :=
      GenerateSection(functions, size, BlockBodies(job), jumpTable, jumpPositions);
  }

  lemma GeneratedSize(done: Bodies, size: nat, jumpTable: seq<nat>, jumpPositions: seq<(nat, nat)>)
    requires Generated(done, size, jumpTable, jumpPositions)
    ensures AllAssemble(done) && size == Before(done, |done|)
  {
  }

  // The image: local code in front, absolute jumps resolved, the library behind.
  method WriteImage(job: Job, lib: Option<Library>, blocks: Invocables, functions: Invocables,
                    blockCode: map<Name, Element>, functionCode: map<Name, Element>, bytes: nat,
                    jumpPositions: seq<(nat, nat)>, ghost size: nat, ghost jumpTable: seq<nat>, ghost libBodies: Bodies)
    returns (ok: bool, bytecode: seq<Byte>)
    requires blocks == Blocks(job) && functions == Functions(job) && Complete(blocks) && Complete(functions)
    requires BodiesOf(blocks) == BlockBodies(job) && BodiesOf(functions) == FunctionBodies(job)
    requires AllAssemble(LocalBodies(job)) && Generated(LocalBodies(job), size, jumpTable, jumpPositions)
    requires ElementsOf(blocks, 0, |blocks.names|, blockCode)
    requires ElementsOf(functions, Before(BlockBodies(job), |BlockBodies(job)|), |functions.names|, functionCode)
    requires AllAssemble(libBodies) && Linkable(lib, libBodies)
    requires bytes == CountedSize(job) >= Before(LocalBodies(job), |LocalBodies(job)|) && bytes + LibrarySize(lib) < 0x1_0000
    ensures var behind := bytes + LibrarySize(lib) - Before(LocalBodies(job), |LocalBodies(job)|);
            && (AbsoluteReached(LocalBodies(job), behind) ==> ok)
            && (AbsoluteLost(LocalBodies(job), behind) ==> !ok)
    ensures ok ==> |bytecode| == bytes + LibrarySize(lib)
    ensures AbsoluteReached(LocalBodies(job), bytes + LibrarySize(lib) - Before(LocalBodies(job), |LocalBodies(job)|)) ==>
              var local, placed := LocalBodies(job), LibraryCode(libBodies, bytes);
              bytecode[..Before(local, |local|) + LibrarySize(lib)] == EncodeAll(LocalCode(local)) + EncodeAll(placed)
  {
    hide CountedSize, Definitions, BodyMap, AllAssemble, Before, Generated, ElementsOf, Flat, LibraryCode, EncodeAll, LocalCode,
      AbsoluteReached, AbsoluteLost, BodiesOf, BlockBodies, FunctionBodies, Holds, RecordedSlots, Blocks, Functions, Complete,
      SameButTargets, FlatPlaced;
    ghost var local, placed := LocalBodies(job), LibraryCode(libBodies, bytes);
    NothingGenerated();
    BeforeConcat(BlockBodies(job), FunctionBodies(job), |FunctionBodies(job)|);
    LibraryLength(lib, libBodies);
    LibrarySame(libBodies, bytes);
    GeneratedSize(local, size, jumpTable, jumpPositions);
    SectionLength(blocks);
    SectionLength(functions);
    var image := new Byte[bytes + LibrarySize(lib)];
    var used := CopySection(blocks, blockCode, image, 0, []);
    assert [] + BlockBodies(job) == BlockBodies(job);
    used := CopySection(functions, functionCode, image, used, BlockBodies(job));
    ok := CalculateAbsoluteJumps(image, jumpPositions, used, local, jumpTable);
    if !ok {
      return false, [];
    }
    if lib.Some? {
      LinkLibrary(image, used, bytes, lib.value, libBodies);
    } else {
      assert placed == [] by {
        FlatNothing(bytes);
      }
      EncodeNothing();
    }
    bytecode := image[..];
  }

  lemma SectionLength(v: Invocables)
    requires Complete(v)
    ensures |BodiesOf(v)| == |v.names|
  {
  }

  lemma EntryCounted(v: Invocables, entry: seq<Line>)
    requires Complete(v) && Distinct(v.names + [ENTRY]) && AllCounted(v, |v.names|) && AllKnown(entry)
    ensures var w := Invocables(v.names + [ENTRY], v.bodies[ENTRY := entry]); Complete(w) && AllCounted(w, |w.names|)
  {
    hide AllKnown;
    var names := v.names + [ENTRY];
    forall k | 0 <= k < |v.names|
      ensures v.names[k] != ENTRY
    {
      assert names[k] != names[|v.names|];
    }
  }

  lemma GatheredCounted(file: seq<Line>, kind: Definition)
    requires AllKnown(file) && Simple(Gathered(Definitions(file, kind)))
    ensures AllCounted(Gathered(Definitions(file, kind)), |Definitions(file, kind)|)
  {
    hide AllKnown, Definitions, BodyMap, NoDefinitions;
    var d := Definitions(file, kind);
    DefinedKnown(file, kind);
    forall k | 0 <= k < |d|
      ensures AllKnown(BodyMap(d)[d[k].0])
    {
      MapOfDistinct(d, k);
      assert Gathered(d).names[k] == d[k].0;
    }
  }

  // When the whole file could be counted, so can be every body.
  lemma JobCounted(job: Job, lib: Option<Library>)
    requires WellFormed(job.file) && NamesDistinct(job, lib) && AllKnown(job.file)
    ensures Complete(Blocks(job)) && AllCounted(Blocks(job), |Blocks(job).names|)
    ensures Complete(Functions(job)) && AllCounted(Functions(job), |Functions(job).names|)
  {
    hide WellFormed, AllKnown, Definitions, BodyMap, NoDefinitions, EntryLines;
    JobReady(job, lib);
    GatheredCounted(job.file, BlockDefinition);
    GatheredCounted(job.file, FunctionDefinition);
    if !job.asLib {
      EntryKnown(job.file, job.main);
      EntryCounted(Gathered(Definitions(job.file, FunctionDefinition)), EntryLines(job.file, job.main));
    }
  }

  lemma EntryKnown(file: seq<Line>, main: Name)
    requires AllKnown(file)
    ensures AllKnown(EntryLines(file, main))
  {
    FrameLines(main);
    assert forall l <- EntryLines(file, main) :: l in PROLOGUE || l in file || l in Epilogue(main);
  }

  // gatherFunctions and gatherBlocks.
  method Gather(file: seq<Line>, kind: Definition) returns (r: Option<Invocables>)
    requires Ended(file)
    ensures r.None? <==> Nests(file, kind)
    ensures r.Some? ==> r.value == Gathered(Definitions(file, kind))
  {
    hide Ended, Nests, Definitions, BodyMap;
    var names := GetNames(file, kind);
    var bodies := GetInvokables(file, kind);
    if bodies.Err? {
      return None;
    }
    r := Some(Invocables(names, bodies.value));
  }

  // The size of the image, and an error exactly when the file contains an unknown instruction; only
  // when there is none it matters that the file is well-formed.
  method Count(job: Job, blocks: Invocables, functions: Invocables, ghost lib: Option<Library>) returns (r: Option<nat>)
    requires (AllKnown(job.file) ==> WellFormed(job.file)) && NamesDistinct(job, lib) && CountedSize(job) < 0x1_0000
    requires blocks == Blocks(job) && functions == Gathered(Definitions(job.file, FunctionDefinition))
    ensures r == if AllKnown(job.file) then Some(CountedSize(job)) else None
  {
    hide WellFormed, AllKnown, Definitions, TotalBytes, EntrySize, BodyMap, Before, NoDefinitions;
    LocalNames(job, lib);
    GatheredComplete(Definitions(job.file, BlockDefinition));
    GatheredComplete(Definitions(job.file, FunctionDefinition));
    if AllKnown(job.file) {
      JobReady(job, lib);
      GatheredCounted(job.file, BlockDefinition);
      GatheredCounted(job.file, FunctionDefinition);
    }
    var ok, next, addresses := MapInvokableAddresses(0, blocks);
    if ok {
      ok, next, addresses := MapInvokableAddresses(next, functions);
    }
    var count := CountBytes(job.file);
    if !ok || count.Err? {
      return None;
    }
    CountedWraps(job);
    r := Some(if job.asLib then count.value else (count.value + EntrySize(job.main)) % 0x1_0000);
  }

  // Both address tables.
  method WriteTables(job: Job, lib: Option<Library>, blocks: Invocables, functions: Invocables, bytes: nat)
    returns (blockTable: seq<Byte>, functionTable: seq<Byte>)
    requires WellFormed(job.file) && NamesDistinct(job, lib) && AllKnown(job.file)
    requires bytes == CountedSize(job) < 0x1_0000 && blocks == Blocks(job) && functions == Functions(job)
    ensures Complete(blocks) && Complete(functions)
    ensures blockTable == Table(Entries(blocks, 0)) && functionTable == Table(FunctionEntries(job, lib))
  {
    hide WellFormed, AllKnown, CountedSize, Definitions, BodyMap, Before, Table, LinkedEntries, NoDefinitions, EntryLines;
    JobReady(job, lib);
    JobCounted(job, lib);
    TablesFit(job);
    var start;
    blockTable, start := WriteTable(blocks, 0);
    ghost var codeStart := start;
    functionTable, start := WriteTable(functions, start);
    functionTable := WriteLinked(Entries(functions, codeStart), LibraryFunctions(lib), bytes, functionTable);
  }

  // Everything but the absolute jumps can be assembled: all instructions are known, every body
  // assembles, and the main function exists.
  predicate Assemblable(job: Job, lib: Option<Library>) {
    WellFormed(job.file) && AllKnown(job.file) && AllAssemble(LocalBodies(job)) && MainDefined(job, lib)
  }

  // The bytes of the image behind the local code.
  function BytesBehind(job: Job, lib: Option<Library>): nat {
    Uncovered(job) + LibrarySize(lib)
  }

  // Assemble a file, with a library if there is one.  It succeeds when every absolute jump goes to a
  // local instruction or right behind them, and then the output is as it should be; it fails when some
  // absolute jump could not be reached; and with at most one byte behind the local code there is
  // nothing else.
  method Build(job: Job, lib: Option<Library>, ghost libBodies: Bodies) returns (r: Option<Output>)
    requires Ended(job.file)
    requires !Nests(job.file, FunctionDefinition) && !Nests(job.file, BlockDefinition) && AllKnown(job.file) ==>
               WellFormed(job.file)
    requires NamesDistinct(job, lib) && CountedSize(job) + LibrarySize(lib) < 0x1_0000
    requires AllAssemble(libBodies) && Linkable(lib, libBodies)
    ensures r.Some? ==> Assemblable(job, lib)
    ensures Assemblable(job, lib) && AbsoluteReached(LocalBodies(job), BytesBehind(job, lib)) ==>
              && r.Some? && Complete(Blocks(job)) && Complete(Functions(job)) && Written(job, lib, libBodies, r.value)
    ensures Assemblable(job, lib) && AbsoluteLost(LocalBodies(job), BytesBehind(job, lib)) ==> r.None?
    ensures BytesBehind(job, lib) <= 1 ==>
              (r.Some? <==> Assemblable(job, lib) && AbsoluteReached(LocalBodies(job), BytesBehind(job, lib)))
  {
    hide Ended, Nests, WellFormed, AllKnown, CountedSize, TotalBytes, Definitions, BodyMap, AllAssemble, Before, Generated,
      ElementsOf, Flat, LibraryCode, EncodeAll, LocalCode, AbsoluteReached, AbsoluteLost, BodiesOf, BlockBodies, FunctionBodies,
      Holds, RecordedSlots, Complete, Distinct, Simple, Table, LinkedEntries, NoDefinitions, EntryLines, EntrySize, Locates,
      Uncovered, FunctionEntries, NamesDistinct, Linkable, LibrarySize;
    WellFormedNotNested(job.file);
    var blocks := Gather(job.file, BlockDefinition);
    var functions := Gather(job.file, FunctionDefinition);
    if blocks.None? || functions.None? {
      return None;
    }
    var bytes := Count(job, blocks.value, functions.value, lib);
    if bytes.None? {
      return None;
    }
    JobReady(job, lib);
    CountedIsLaidOut(job);
    var all := functions.value;
    if !job.asLib {
      all := Invocables(all.names + [ENTRY], all.bodies[ENTRY := EntryLines(job.file, job.main)]);
    }
    var ok, blockCode, functionCode, size, jumpTable, jumpPositions := GenerateBodies(blocks.value, all, job, lib);
    if !ok || (!job.asLib && job.main !in AllNames(job, lib)) {
      return None;
    }
    var blockTable, functionTable := WriteTables(job, lib, blocks.value, all, bytes.value);
    var bytecode;
    ok, bytecode := WriteImage(job, lib, blocks.value, all, blockCode, functionCode, bytes.value, jumpPositions, size, jumpTable,
                               libBodies);
    if BytesBehind(job, lib) <= 1 {
      ReachedOrLost(LocalBodies(job), BytesBehind(job, lib));
    }
    if !ok {
      return None;
    }
    JumpTableOf(LocalBodies(job), size, jumpTable, jumpPositions);
    r := Some(Output(jumpTable, blockTable, functionTable, bytecode));
  }

  lemma WellFormedNotNested(file: seq<Line>)
    ensures WellFormed(file) ==> !Nests(file, FunctionDefinition) && !Nests(file, BlockDefinition)
  {
    if WellFormed(file) {
      WellFormedFile(file, FunctionDefinition);
      WellFormedFile(file, BlockDefinition);
    }
  }

  // Nothing wraps as long as the whole size does not.
  lemma CountedWraps(job: Job)
    requires CountedSize(job) < 0x1_0000
    ensures var count := TotalBytes(job.file) % 0x1_0000;
            (if job.asLib then count else (count + EntrySize(job.main)) % 0x1_0000) == CountedSize(job)
  {
    hide TotalBytes, EntrySize;
  }

  lemma TablesFit(job: Job)
    requires WellFormed(job.file) && CountedSize(job) < 0x1_0000
    ensures Before(BlockBodies(job), |BlockBodies(job)|) + Before(FunctionBodies(job), |FunctionBodies(job)|) < 0x1_0000
  {
    hide WellFormed, CountedSize, BlockBodies, FunctionBodies, Uncovered, Before;
    CountedIsLaidOut(job);
    BeforeConcat(BlockBodies(job), FunctionBodies(job), |FunctionBodies(job)|);
  }

  lemma JumpTableOf(done: Bodies, size: nat, jumpTable: seq<nat>, jumpPositions: seq<(nat, nat)>)
    requires Generated(done, size, jumpTable, jumpPositions)
    ensures AllAssemble(done) && Locates(Flat(done), RecordedSlots(Flat(done), false), jumpTable)
  {
    hide RecordedSlots, Flat, Locates, AllAssemble;
  }

  lemma NopBytes()
    ensures BytesOf(Instruction(NOP, [])) == 1
  {
  }

  lemma NoDefinitionIn(l: Line, kind: Definition)
    requires l.Instruction?
    ensures Definitions([l], kind) == []
  {
    hide Definitions, OpenOf;
    DefinitionStep([l], 0, kind);
    NothingDefined(kind);
    assert [l][..0] == [] && [l][..1] == [l];
  }

  // A library with one instruction on its top level: it is counted, but nothing is generated for it.
  lemma TopLevelInLibrary()
    ensures var job := Job([Instruction(NOP, [])], true, []);
            WellFormed(job.file) && LocalBodies(job) == [] && CountedSize(job) == 1
  {
    hide Definitions, OpenOf, TotalBytes, AllKnown, BytesOf;
    NopBytes();
    var job := Job([Instruction(NOP, [])], true, []);
    NoDefinitionIn(job.file[0], BlockDefinition);
    NoDefinitionIn(job.file[0], FunctionDefinition);
    NothingKnown();
    KnownSnoc([], job.file[0]);
    assert job.file == [] + [job.file[0]];
  }

  // ----- a jump behind the local code -----

  // A library with one function, `jump .2`: one instruction, and a jump two instructions behind it.
  const JUMPS_BEHIND: Job :=
    Job([Opening(FunctionDefinition, []), Line.Instruction(JUMP, [Index(2)]), Closing], true, [])

  lemma JumpsBehindBodies()
    ensures WellFormed(JUMPS_BEHIND.file) && LocalBodies(JUMPS_BEHIND) == JumpAlone(2) && Uncovered(JUMPS_BEHIND) == 0
  {
    hide Definitions, OpenOf, Elsewhere, BytesOf;
    var file := JUMPS_BEHIND.file;
    assert file[..0] == [] && file[..3] == file;
    NothingDefined(FunctionDefinition);
    NothingDefined(BlockDefinition);
    DefinitionStep(file, 0, FunctionDefinition);
    DefinitionStep(file, 1, FunctionDefinition);
    DefinitionStep(file, 2, FunctionDefinition);
    DefinitionStep(file, 0, BlockDefinition);
    DefinitionStep(file, 1, BlockDefinition);
    DefinitionStep(file, 2, BlockDefinition);
    var empty: (Name, seq<Line>) := ([], []);
    assert Definitions(file[..1], FunctionDefinition) == [empty];
    assert [empty][..0] == [] && [] + [file[1]] == [file[1]];
    assert Definitions(file[..2], FunctionDefinition) == [] + [([], [] + [file[1]])];
    assert file[2].Closing?;
    NothingCounted();
    ElsewhereStep(file, 0, true);
    ElsewhereStep(file, 1, true);
    ElsewhereStep(file, 2, true);
    OtherBytes(file[0]);
  }

  lemma OtherBytes(l: Line)
    requires !l.Instruction?
    ensures BytesOf(l) == 0
  {
  }

  // Linked with anything of two or more bytes, it is neither reached nor lost.
  lemma JumpsBehind(n: nat)
    requires n >= 2
    ensures LocalBodies(JUMPS_BEHIND) == JumpAlone(2) && Uncovered(JUMPS_BEHIND) == 0
    ensures AllAssemble(JumpAlone(2)) && FlatPlaced(JumpAlone(2), 0) == [Jump(2, Absolute)]
    ensures !AbsoluteReached(JumpAlone(2), n) && !AbsoluteLost(JumpAlone(2), n)
  {
    hide Flat, FlatPlaced, JumpAlone, AllAssemble, LocalBodies, WellFormed, Uncovered;
    JumpsBehindBodies();
    JumpAloneCode(2, 0);
    JumpRecorded(2);
    var code: Code, s := [Jump(2, Absolute)], Slot(0, false);
    assert Flat(JumpAlone(2)) == code && s in RecordedSlots(code, true) && HasSlot(code, s) && TargetOf(code, s) == 2;
  }

  // It is assembled or not by what the memory for the library holds before the library is there.
  lemma UnwrittenDecides(n: nat, count: nat)
    requires 2 <= n < 0x1_0000
    ensures var b, jumps := EncodeAll([Jump(2, Absolute)]), [(1, 0)];
            && |b| == 5
            && PatchedAll(b + Repeated(NOP, n), jumps, count) == Ok(EncodeAll([Jump(6, ToByte)]) + Repeated(NOP, n))
            && PatchedAll(b + Repeated(0xFF, n), jumps, count).Err?
  {
    hide PatchedAll, ScanTo, Patched, EncodeAll;
    var c: Code, s := [Jump(2, Absolute)], Slot(0, false);
    JumpLength(2, Absolute);
    StartZero(c);
    ScanOverNops(c, n, 2);
    ScanIntoUnknown(c, n, 2);
    forall tail: seq<Byte> | |tail| == n
      ensures PatchedAll(EncodeAll(c) + tail, [(1, 0)], count) == Patched(EncodeAll(c) + tail, (1, 0), count)
      ensures Patched(EncodeAll(c) + tail, (1, 0), count) ==
              match ScanTo(EncodeAll(c) + tail, 2)
              case Err => Err
              case Ok(adjustment) => Ok(EncodeAll(WithTarget(c, s, 0 + adjustment)) + tail)
    {
      PatchInCode(c, tail, s, 0, count);
      OnlyOne(EncodeAll(c) + tail, (1, 0), count);
    }
    assert WithTarget(c, s, 6) == [Jump(6, ToByte)];
  }

  lemma OnlyOne(b: seq<Byte>, jump: (nat, nat), count: nat)
    requires Patchable(b, jump)
    ensures PatchedAll(b, [jump], count) == Patched(b, jump, count)
  {
    hide Patched;
    assert [jump][..0] == [];
  }

  lemma JumpRecorded(t: Int32)
    ensures RecordedSlots([Jump(t, Absolute)], true) == [Slot(0, false)]
  {
    assert [Jump(t, Absolute)] == [] + [Jump(t, Absolute)];
    RecordedSnoc([], Jump(t, Absolute), true);
  }

  lemma JumpLength(t: Int32, k: JumpKind)
    ensures |EncodeAll([Jump(t, k)])| == 5
  {
    EncodeNothing();
    assert [Jump(t, k)][1..] == [];
  }
}
