// Running the source: where functions and blocks stand, where the jumps of their lines lead, and what the
// entry function does (src/front/asm/generate.cpp:472-540, 762-787, src/cpu/instr/general.cpp:39-81).
module SourceRuns {
  import opened Bytes
  import opened Opcodes
  import opened Instructions
  import opened Assembler
  import opened Targets
  import opened Jumps
  import opened Compiler
  import opened Sections
  import opened Linker
  import opened Files
  import opened Generator
  import opened Building
  import opened Loader
  import opened Machine
  import opened Stacks
  import opened Effects
  import opened Brackets
  import opened Addresses
  import opened EndToEnd

  // ----- where bodies stand -----

  lemma {:induction false} MeantLength(bs: Bodies)
    requires AllAssemble(bs)
    ensures |Meant(bs)| == |Flat(bs)|
  {
    hide Assembles, Assembled;
    if bs != [] {
      var n := |bs| - 1;
      MeantLength(bs[..n]);
      CodeLength(bs[n]);
    }
  }

  lemma CodeLength(lines: seq<Line>)
    requires Assembles(lines)
    ensures |CodeOf(lines)| == |Assembled(lines).value| == |InstructionLines(lines)|
  {
    hide InstructionLines, Marks, AssembleAll;
  }

  // Instruction k of element e, with the targets counted in the element counted from where it starts.
  lemma {:induction false} BodyInPlace(bs: Bodies, e: nat, k: nat)
    requires AllAssemble(bs) && e < |bs| && Assembled(bs[e]).Ok? && k < |Assembled(bs[e]).value|
    ensures AllAssemble(bs[..e]) && |Flat(bs[..e])| + k < |Meant(bs)|
    ensures Meant(bs)[|Flat(bs[..e])| + k] == LiftInstr(Assembled(bs[e]).value[k], |Flat(bs[..e])|)
    decreases |bs|
  {
    hide Assembles, Assembled, LiftInstr, CodeOf;
    var n := |bs| - 1;
    MeantLength(bs[..n]);
    if e < n {
      assert bs[..n][..e] == bs[..e];
      BodyInPlace(bs[..n], e, k);
    }
  }

  // The instructions of a file and its library, as the source environment has them.
  function SourceCode(job: Job, dep: Dependency): Code
    requires Sourced(job, dep)
  {
    Meant(AllOf(job, dep))
  }

  function First(job: Job, dep: Dependency, e: nat): nat
    requires Sourced(job, dep) && e <= |AllOf(job, dep)|
  {
    |Flat(AllOf(job, dep)[..e])|
  }

  lemma SourceAt<D>(job: Job, dep: Dependency, sem: Semantics<D>, e: nat, k: nat)
    requires Sourced(job, dep) && e < |AllOf(job, dep)|
    requires var x := AllOf(job, dep)[e]; Assembled(x).Ok? && k < |Assembled(x).value|
    ensures var env, i := FileEnv(job, dep, sem), Assembled(AllOf(job, dep)[e]).value[k];
            && env.text.Indexed? && env.sem == sem && First(job, dep, e) + k < |env.text.code|
            && env.text.code[First(job, dep, e) + k] == IndexInstr(SourceCode(job, dep), LiftInstr(i, First(job, dep, e)))
  {
    hide Assembled, LiftInstr, IndexInstr, Meant, Flat, Mapping;
    BodyInPlace(AllOf(job, dep), e, k);
  }

  lemma EntriesDistinct(job: Job, dep: Dependency)
    requires Sourced(job, dep) && NamesDistinct(job, dep.lib) && Exports(LibraryFunctions(dep.lib), dep.bodies, dep.functions)
    requires |Functions(job).names| == |FunctionBodies(job)|
    ensures var es := Indexes(Functions(job).names, AllOf(job, dep), |BlockBodies(job)|) +
                      ExportIndexes(AllOf(job, dep), |LocalBodies(job)|, dep.functions);
            Names(es) == AllNames(job, dep.lib) && Distinct(Names(es))
  {
    hide AllAssemble, Flat, Before, Definitions, FunctionBodies, BlockBodies;
    var es := Indexes(Functions(job).names, AllOf(job, dep), |BlockBodies(job)|) +
              ExportIndexes(AllOf(job, dep), |LocalBodies(job)|, dep.functions);
    var names := AllNames(job, dep.lib);
    forall k | 0 <= k < |es|
      ensures es[k].0 == names[k]
    {
    }
  }

  // The k-th function of a file, the entry function being the last one, starts where its body stands.
  lemma FunctionStarts<D>(job: Job, dep: Dependency, sem: Semantics<D>, k: nat)
    requires Sourced(job, dep) && NamesDistinct(job, dep.lib) && Exports(LibraryFunctions(dep.lib), dep.bodies, dep.functions)
    requires k < |Functions(job).names| == |FunctionBodies(job)|
    ensures Functions(job).names[k] in FileEnv(job, dep, sem).functions
    ensures FileEnv(job, dep, sem).functions[Functions(job).names[k]] == First(job, dep, |BlockBodies(job)| + k)
  {
    hide AllAssemble, Flat, Mapping, Meant, Definitions, FunctionBodies, BlockBodies, AllNames, Distinct;
    EntriesDistinct(job, dep);
    var es := Indexes(Functions(job).names, AllOf(job, dep), |BlockBodies(job)|) +
              ExportIndexes(AllOf(job, dep), |LocalBodies(job)|, dep.functions);
    MappingOfDistinct(es, k);
  }

  // So does the k-th block.
  lemma BlockStarts<D>(job: Job, dep: Dependency, sem: Semantics<D>, k: nat)
    requires Sourced(job, dep) && NamesDistinct(job, dep.lib) && k < |Blocks(job).names| == |BlockBodies(job)|
    ensures Blocks(job).names[k] in FileEnv(job, dep, sem).blocks
    ensures FileEnv(job, dep, sem).blocks[Blocks(job).names[k]] == First(job, dep, k)
  {
    hide AllAssemble, Flat, Mapping, Meant, Definitions, FunctionBodies, BlockBodies, AllNames;
    var es := Indexes(Blocks(job).names, AllOf(job, dep), 0);
    assert Names(es) == Blocks(job).names;
    MappingOfDistinct(es, k);
  }

  // A function defined in the file is found under its name, and its instructions are those of the lines
  // between its opening and its end.
  lemma FunctionMeans<D>(job: Job, dep: Dependency, sem: Semantics<D>, k: nat, i: nat)
    requires Sourced(job, dep) && NamesDistinct(job, dep.lib) && Exports(LibraryFunctions(dep.lib), dep.bodies, dep.functions)
    requires k < |Definitions(job.file, FunctionDefinition)|
    requires var body := Definitions(job.file, FunctionDefinition)[k].1; Assembled(body).Ok? && i < |Assembled(body).value|
    ensures var env, d := FileEnv(job, dep, sem), Definitions(job.file, FunctionDefinition)[k];
            && d.0 in env.functions && env.text.Indexed? && env.functions[d.0] + i < |env.text.code|
            && env.text.code[env.functions[d.0] + i] ==
               IndexInstr(SourceCode(job, dep), LiftInstr(Assembled(d.1).value[i], env.functions[d.0]))
  {
    hide AllAssemble, Flat, Mapping, Meant, Definitions, Assembled, IndexInstr, LiftInstr, FileEnv, SourceCode, Distinct, Exports;
    var ds := Definitions(job.file, FunctionDefinition);
    assert Functions(job).names[k] == ds[k].0 && FunctionBodies(job)[k] == ds[k].1;
    FunctionStarts(job, dep, sem, k);
    assert AllOf(job, dep)[|BlockBodies(job)| + k] == ds[k].1;
    SourceAt(job, dep, sem, |BlockBodies(job)| + k, i);
  }

  // The main function of an executable exists, in the file or in the library.
  lemma MainFound<D>(job: Job, dep: Dependency, sem: Semantics<D>)
    requires Sourced(job, dep) && NamesDistinct(job, dep.lib) && Exports(LibraryFunctions(dep.lib), dep.bodies, dep.functions)
    requires |Functions(job).names| == |FunctionBodies(job)| && MainDefined(job, dep.lib) && !job.asLib
    ensures job.main in FileEnv(job, dep, sem).functions
  {
    hide AllAssemble, Flat, Mapping, Meant, Definitions, FunctionBodies, BlockBodies, AllNames;
    EntriesDistinct(job, dep);
    var es := Indexes(Functions(job).names, AllOf(job, dep), |BlockBodies(job)|) +
              ExportIndexes(AllOf(job, dep), |LocalBodies(job)|, dep.functions);
    var k :| 0 <= k < |AllNames(job, dep.lib)| && AllNames(job, dep.lib)[k] == job.main;
    MappingOfDistinct(es, k);
  }

  // ----- jumps and branches -----

  // The instruction a target of element e is.
  function PlaceOf(job: Job, dep: Dependency, e: nat, target: Int32, kind: JumpKind): int
    requires Sourced(job, dep) && e <= |AllOf(job, dep)|
  {
    match kind
    case Relative => First(job, dep, e) + target
    case Absolute => target
    case ToByte => IndexAt(SourceCode(job, dep), target)
  }

  // One tick takes m to place p; a jump to the own place is reported instead.
  ghost predicate StandsAt<D>(env: Env<D>, m: Machine<D>, p: int)
    requires m.frames != []
  {
    && 0 <= p && Dispatch(env, m) == m.(ip := p)
    && (p < env.text.End() && p != m.ip ==> Tick(env, m) == m.(ip := p))
    && (p == m.ip ==> Tick(env, m).status.Unchanged?)
  }

  // m goes to what operand t of instruction k of element e stands for.
  ghost predicate GoesTo<D>(job: Job, dep: Dependency, env: Env<D>, m: Machine<D>, e: nat, k: nat, t: Token)
    requires Sourced(job, dep) && e < |AllOf(job, dep)| && m.frames != []
  {
    exists x: Int32, kind :: Denotes(AllOf(job, dep)[e], k, t, x, kind) && StandsAt(env, m, PlaceOf(job, dep, e, x, kind))
  }

  lemma OpcodesOfJumps()
    ensures Implemented(JUMP) && Implemented(BRANCH) && JUMP != END && JUMP != LEAVE && BRANCH != END && BRANCH != LEAVE
  {
  }

  lemma Arrives<D>(env: Env<D>, m: Machine<D>, i: Instr, p: nat)
    requires Executes(env, m, i, m.ip + 1) && (i.Jump? || i.Branch?) && Dispatch(env, m) == m.(ip := p)
    ensures StandsAt(env, m, p)
  {
    hide Dispatch, Fetch, Settle, Implemented, OpcodeOf;
    OpcodesOfJumps();
    Handled(env, m, i, m.ip + 1);
    TickOutcome(env, m);
  }

  // A relative target of a consistent body is in range wherever the body stands.
  lemma RelativeInRange(job: Job, dep: Dependency, e: nat, k: nat)
    requires Sourced(job, dep) && e < |AllOf(job, dep)| && Consistent(AllOf(job, dep)[e])
    requires Before(AllOf(job, dep), |AllOf(job, dep)|) < 0x8000_0000
    requires var x := AllOf(job, dep)[e]; Assembled(x).Ok? && k < |Assembled(x).value|
    ensures var i, n := Assembled(AllOf(job, dep)[e]).value[k], First(job, dep, e);
            && (i.Jump? && i.kind == Relative ==> i.target + n < 0x8000_0000)
            && (i.Branch? && i.trueKind == Relative ==> i.ifTrue + n < 0x8000_0000)
            && (i.Branch? && i.falseKind == Relative ==> i.ifFalse + n < 0x8000_0000)
  {
    hide Assembled, Flat, Before, CodeOf, EncodeAll, AllAssemble;
    var bs := AllOf(job, dep);
    var lines := bs[e];
    assert Assembles(lines) by {
      ElementAssembles(bs, e);
    }
    ConsistentMeaning(lines);
    BodyTargets(lines);
    assert RelativeBelow(CodeOf(lines)[k], |CodeOf(lines)|);
    assert bs == bs[..e] + bs[e..];
    AssembleConcat(bs[..e], bs[e..]);
    FlatConcat(bs[..e], bs[e..], 0);
    var rest := bs[e..];
    assert rest == [lines] + rest[1..];
    AssembleConcat([lines], rest[1..]);
    FlatConcat([lines], rest[1..], 0);
    FlatOne(lines);
    FlatLengths(bs, 0);
    CodeNotLonger(Flat(bs));
  }

  lemma ElementAssembles(bs: Bodies, e: nat)
    requires AllAssemble(bs) && e < |bs|
    ensures Assembles(bs[e])
  {
    hide Assembles;
  }

  lemma FlatOne(lines: seq<Line>)
    requires AllAssemble([lines])
    ensures Assembles(lines) && Flat([lines]) == CodeOf(lines)
  {
    hide Assembles, CodeOf, PlacedCode;
    assert [] + [lines] == [lines];
    FlatNothing(0);
    FlatSnoc([], lines, 0);
    assert [] + CodeOf(lines) == CodeOf(lines);
  }

  // m stands at instruction k of element e.
  predicate StandsIn<D>(job: Job, dep: Dependency, m: Machine<D>, e: nat, k: nat)
    requires Sourced(job, dep)
  {
    && m.Live() && e < |AllOf(job, dep)| && Assembled(AllOf(job, dep)[e]).Ok?
    && k < |InstructionLines(AllOf(job, dep)[e])| && m.ip == First(job, dep, e) + k
  }

  // A `jump` line takes a run to the instruction its operand stands for.
  lemma JumpRuns<D>(job: Job, dep: Dependency, sem: Semantics<D>, m: Machine<D>, e: nat, k: nat, t: Token)
    requires Sourced(job, dep) && StandsIn(job, dep, m, e, k) && Consistent(AllOf(job, dep)[e])
    requires Before(AllOf(job, dep), |AllOf(job, dep)|) < 0x8000_0000
    requires InstructionLines(AllOf(job, dep)[e])[k] == Line.Instruction(JUMP, [t])
    ensures GoesTo(job, dep, FileEnv(job, dep, sem), m, e, k, t)
  {
    hide Assembled, InstructionLines, Denotes, FileEnv, SourceCode, First, Before, Consistent, Sourced, StandsAt, Dispatch, Implemented;
    var lines, env := AllOf(job, dep)[e], FileEnv(job, dep, sem);
    JumpLine(lines, k, t);
    var i := Assembled(lines).value[k];
    SourceAt(job, dep, sem, e, k);
    RelativeInRange(job, dep, e, k);
    OpcodesOfJumps();
    var j := env.text.code[m.ip];
    assert Executes(env, m, j, m.ip + 1);
    JumpEffect(env, m, j.target, j.kind, m.ip + 1);
    Arrives(env, m, j, j.target);
    assert j.target == PlaceOf(job, dep, e, i.target, i.kind);
  }

  // A `branch` line takes a run to what its second operand stands for when the first one tests true, and
  // otherwise to what the third one stands for, or behind itself when there is none.
  lemma BranchRuns<D>(job: Job, dep: Dependency, sem: Semantics<D>, m: Machine<D>, e: nat, k: nat, c: Operand, yes: Token,
                      no: Option<Token>, v: bool)
    requires Sourced(job, dep) && StandsIn(job, dep, m, e, k) && Consistent(AllOf(job, dep)[e])
    requires Before(AllOf(job, dep), |AllOf(job, dep)|) < 0x8000_0000
    requires InstructionLines(AllOf(job, dep)[e])[k] ==
             Line.Instruction(BRANCH, [Number(c), yes] + if no.Some? then [no.value] else [])
    requires sem.test(c, ViewOf(FileEnv(job, dep, sem), m), m.data) == Verdict(v)
    ensures v ==> GoesTo(job, dep, FileEnv(job, dep, sem), m, e, k, yes)
    ensures !v && no.Some? ==> GoesTo(job, dep, FileEnv(job, dep, sem), m, e, k, no.value)
    ensures !v && no.None? ==> StandsAt(FileEnv(job, dep, sem), m, m.ip + 1)
  {
    hide Assembled, InstructionLines, Denotes, FileEnv, SourceCode, First, Before, Consistent, Sourced, StandsAt, Dispatch, Implemented,
      ViewOf, PlaceOf, IndexInstr, LiftInstr, Fetch;
    var lines, env := AllOf(job, dep)[e], FileEnv(job, dep, sem);
    BranchLine(lines, k, c, yes, no);
    var i := Assembled(lines).value[k];
    SourceAt(job, dep, sem, e, k);
    RelativeInRange(job, dep, e, k);
    PlacedBranch(job, dep, e, i);
    var j := env.text.code[m.ip];
    BranchExecutes(env, m);
    BranchEffect(env, m, j.condition, j.ifTrue, j.trueKind, j.ifFalse, j.falseKind, m.ip + 1);
    Arrives(env, m, j, if v then j.ifTrue else j.ifFalse);
  }

  lemma BranchExecutes<D>(env: Env<D>, m: Machine<D>)
    requires m.Live() && env.text.Indexed? && m.ip < |env.text.code| && env.text.code[m.ip].Branch?
    ensures Executes(env, m, env.text.code[m.ip], m.ip + 1)
  {
    OpcodesOfJumps();
  }

  // A branch of a body as it stands in the whole.
  lemma PlacedBranch(job: Job, dep: Dependency, e: nat, i: Instr)
    requires Sourced(job, dep) && e < |AllOf(job, dep)| && i.Branch? && i.ifTrue >= 0 && i.ifFalse >= 0
    requires i.trueKind == Relative ==> i.ifTrue + First(job, dep, e) < 0x8000_0000
    requires i.falseKind == Relative ==> i.ifFalse + First(job, dep, e) < 0x8000_0000
    ensures var j := IndexInstr(SourceCode(job, dep), LiftInstr(i, First(job, dep, e)));
            && j.Branch? && j.condition == i.condition
            && j.ifTrue == PlaceOf(job, dep, e, i.ifTrue, i.trueKind) && j.ifTrue >= 0
            && j.ifFalse == PlaceOf(job, dep, e, i.ifFalse, i.falseKind) && j.ifFalse >= 0
            && (i.falseKind == Relative ==> j.ifFalse == First(job, dep, e) + i.ifFalse)
  {
    hide SourceCode, First, Sourced;
  }

  // A jump to a mark takes a run to the first instruction behind the mark, when only instructions, marks,
  // names, links and functions stand in front of it.
  lemma MarkRuns<D>(job: Job, dep: Dependency, sem: Semantics<D>, m: Machine<D>, e: nat, k: nat, name: Name, p: nat)
    requires Sourced(job, dep) && StandsIn(job, dep, m, e, k) && Consistent(AllOf(job, dep)[e])
    requires Before(AllOf(job, dep), |AllOf(job, dep)|) < 0x8000_0000
    requires InstructionLines(AllOf(job, dep)[e])[k] == Line.Instruction(JUMP, [Word(name)])
    requires var lines := AllOf(job, dep)[e];
             LastMark(lines, name, p) && forall q | 0 <= q < p :: CountsRight(lines[..q], lines[q])
    ensures StandsAt(FileEnv(job, dep, sem), m, First(job, dep, e) + |InstructionLines(AllOf(job, dep)[e][..p])|)
  {
    hide Assembled, InstructionLines, FileEnv, First, Before, Consistent, Sourced, StandsAt, CountsRight, Surplus;
    var lines := AllOf(job, dep)[e];
    JumpRuns(job, dep, sem, m, e, k, Word(name));
    assert forall q :: LastMark(lines, name, q) ==> q == p;
    SurplusExactly(lines[..p]);
    assert forall q | 0 <= q < p :: lines[..p][..q] == lines[..q];
  }
}
