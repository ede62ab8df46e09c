// A source file as lines: cutting it into functions and blocks, and counting it as a whole
// (src/cg/assembler/codeextract.cpp:117-213, src/front/asm/gather.cpp:11-67,
// src/front/asm/generate.cpp:747-787).
module Files {
  import opened Bytes
  import opened Opcodes
  import opened Instructions
  import opened Assembler
  import opened Compiler
  import opened Sections

  // The definitions of one kind, in order, with the lines up to the next `.end`.
  function Definitions(lines: seq<Line>, kind: Definition): (d: seq<(Name, seq<Line>)>)
    ensures OpenOf(lines, kind) ==> d != []
  {
    if lines == [] then []
    else
      var init, last := lines[..|lines| - 1], lines[|lines| - 1];
      var d := Definitions(init, kind);
      if !OpenOf(init, kind) then if Opens(last, kind) then d + [(last.name, [])] else d
      else if last.Closing? then d
      else d[..|d| - 1] + [(d[|d| - 1].0, d[|d| - 1].1 + [last])]
  }

  function NamesOf(d: seq<(Name, seq<Line>)>): (names: seq<Name>)
    ensures |names| == |d| && forall k | 0 <= k < |d| :: names[k] == d[k].0
  {
    seq(|d|, k requires 0 <= k < |d| => d[k].0)
  }

  // A later definition of a name replaces an earlier one.
  function BodyMap(d: seq<(Name, seq<Line>)>): map<Name, seq<Line>> {
    if d == [] then map[] else BodyMap(d[..|d| - 1])[d[|d| - 1].0 := d[|d| - 1].1]
  }

  // Behind every opening line there is a closing one.
  predicate Ended(lines: seq<Line>) {
    forall i | 0 <= i < |lines| && lines[i].Opening? :: exists j :: i < j < |lines| && lines[j].Closing?
  }

  // A definition of this kind is opened inside another of the same kind.
  predicate Nests(lines: seq<Line>, kind: Definition) {
    exists i :: 0 <= i < |lines| && OpenOf(lines[..i], kind) && Opens(lines[i], kind)
  }

  lemma DefinitionStep(lines: seq<Line>, i: nat, kind: Definition)
    requires i < |lines|
    ensures var init, next, l := lines[..i], lines[..i + 1], lines[i]; var d := Definitions(init, kind);
            && OpenOf(next, kind) == (if OpenOf(init, kind) then !l.Closing? else Opens(l, kind))
            && (!OpenOf(init, kind) ==> Definitions(next, kind) == if Opens(l, kind) then d + [(l.name, [])] else d)
            && (OpenOf(init, kind) && l.Closing? ==> Definitions(next, kind) == d)
            && (OpenOf(init, kind) && !l.Closing? ==>
                  Definitions(next, kind) == d[..|d| - 1] + [(d[|d| - 1].0, d[|d| - 1].1 + [l])])
  {
    assert lines[..i + 1][..i] == lines[..i];
  }

  lemma NothingDefined(kind: Definition)
    ensures !OpenOf([], kind) && Definitions([], kind) == [] && BodyMap([]) == map[]
  {
  }

  lemma BodyMapSnoc(d: seq<(Name, seq<Line>)>, x: (Name, seq<Line>))
    ensures BodyMap(d + [x]) == BodyMap(d)[x.0 := x.1]
  {
    assert (d + [x])[..|d|] == d;
  }

  // getFunctionNames and getBlockNames.
  method GetNames(lines: seq<Line>, kind: Definition) returns (names: seq<Name>)
    requires Ended(lines)
    ensures names == NamesOf(Definitions(lines, kind))
  {
    hide OpenOf, Definitions;
    names := [];
    var i := 0;
    NothingDefined(kind);
    assert lines[..0] == [];
    while i < |lines|
      invariant i <= |lines| && !OpenOf(lines[..i], kind)
      invariant names == NamesOf(Definitions(lines[..i], kind))
    {
      DefinitionStep(lines, i, kind);
      if Opens(lines[i], kind) {
        var start := i;
        i := i + 1;
        while !lines[i].Closing?
          invariant start < i <= |lines| && OpenOf(lines[..i], kind)
          invariant forall j | start < j < i :: !lines[j].Closing?
          invariant NamesOf(Definitions(lines[..i], kind)) == names + [lines[start].name]
          decreases |lines| - i
        {
          DefinitionStep(lines, i, kind);
          i := i + 1;
        }
        DefinitionStep(lines, i, kind);
        names := names + [lines[start].name];
      }
      i := i + 1;
    }
    assert lines[..|lines|] == lines;
  }

  // The lines of the definition that line start opens, and where it ends; an error when another one of
  // the same kind is opened before that.
  method Collect(lines: seq<Line>, kind: Definition, start: nat) returns (ok: bool, flines: seq<Line>, i: nat)
    requires Ended(lines) && start < |lines| && Opens(lines[start], kind) && !OpenOf(lines[..start], kind)
    ensures start < i < |lines|
    ensures !ok ==> Nests(lines, kind)
    ensures ok ==>
              && lines[i].Closing? && OpenOf(lines[..i], kind)
              && (forall k | start <= k <= i :: !(OpenOf(lines[..k], kind) && Opens(lines[k], kind)))
              && Definitions(lines[..i], kind) == Definitions(lines[..start], kind) + [(lines[start].name, flines)]
  {
    hide OpenOf, Definitions, Opens, Ended;
    ghost var before := Definitions(lines[..start], kind);
    DefinitionStep(lines, start, kind);
    OpensOnly(lines[start], kind);
    ghost var end := EndAhead(lines, start);
    flines, i := [], start + 1;
    while !lines[i].Closing?
      invariant start < i <= end && OpenOf(lines[..i], kind)
      invariant forall j | start < j < i :: !lines[j].Closing?
      invariant forall k | start <= k < i :: !(OpenOf(lines[..k], kind) && Opens(lines[k], kind))
      invariant Definitions(lines[..i], kind) == before + [(lines[start].name, flines)]
      decreases |lines| - i
    {
      if lines[i].Opening? && lines[i].kind == kind {
        OpensOnly(lines[i], kind);
        return false, flines, i;
      }
      OpensOnly(lines[i], kind);
      DefinitionStep(lines, i, kind);
      flines := flines + [lines[i]];
      i := i + 1;
    }
    OpensOnly(lines[i], kind);
    ok := true;
  }

  lemma EndAhead(lines: seq<Line>, start: nat) returns (end: nat)
    requires Ended(lines) && start < |lines| && lines[start].Opening?
    ensures start < end < |lines| && lines[end].Closing?
  {
    end :| start < end < |lines| && lines[end].Closing?;
  }

  lemma OpensOnly(l: Line, kind: Definition)
    ensures Opens(l, kind) <==> l.Opening? && l.kind == kind
  {
  }

  // getInvokables: the lines of every definition, or an error when one of the same kind is opened
  // before it ends.
  method GetInvokables(lines: seq<Line>, kind: Definition) returns (r: Result<map<Name, seq<Line>>>)
    requires Ended(lines)
    ensures r.Err? <==> Nests(lines, kind)
    ensures r.Ok? ==> r.value == BodyMap(Definitions(lines, kind))
  {
    hide OpenOf, Definitions, BodyMap, Ended;
    var invokables: map<Name, seq<Line>> := map[];
    var i := 0;
    NothingDefined(kind);
    assert lines[..0] == [];
    while i < |lines|
      invariant i <= |lines| && !OpenOf(lines[..i], kind)
      invariant forall k | 0 <= k < i :: !(OpenOf(lines[..k], kind) && Opens(lines[k], kind))
      invariant invokables == BodyMap(Definitions(lines[..i], kind))
    {
      if Opens(lines[i], kind) {
        var ok, flines, end := Collect(lines, kind, i);
        if !ok {
          return Err;
        }
        DefinitionStep(lines, end, kind);
        BodyMapSnoc(Definitions(lines[..i], kind), (lines[i].name, flines));
        invokables := invokables[lines[i].name := flines];
        i := end + 1;
      } else {
        DefinitionStep(lines, i, kind);
        i := i + 1;
      }
    }
    assert lines[..|lines|] == lines;
    r := Ok(invokables);
  }

  // ----- well-formed files -----

  // Definitions of this kind contain no other definitions.
  predicate BodiesFlat(lines: seq<Line>, kind: Definition) {
    forall k | 0 <= k < |Definitions(lines, kind)| :: NoDefinitions(Definitions(lines, kind)[k].1)
  }

  // Every definition ends, and no function and no block contains another definition.
  predicate WellFormed(lines: seq<Line>) {
    Ended(lines) && BodiesFlat(lines, FunctionDefinition) && BodiesFlat(lines, BlockDefinition)
  }

  lemma FlatStep(lines: seq<Line>, i: nat, kind: Definition)
    requires i < |lines| && BodiesFlat(lines[..i + 1], kind)
    ensures BodiesFlat(lines[..i], kind)
    ensures OpenOf(lines[..i], kind) ==> !lines[i].Opening?
  {
    hide OpenOf, Definitions;
    DefinitionStep(lines, i, kind);
    var d, next := Definitions(lines[..i], kind), Definitions(lines[..i + 1], kind);
    forall k | 0 <= k < |d|
      ensures NoDefinitions(d[k].1)
    {
      assert NoDefinitions(next[k].1);
      assert forall l <- d[k].1 :: l in next[k].1;
    }
    if OpenOf(lines[..i], kind) && !lines[i].Closing? {
      assert NoDefinitions(next[|d| - 1].1) && lines[i] in next[|d| - 1].1;
    }
  }

  lemma {:induction false} FlatPrefix(lines: seq<Line>, i: nat, kind: Definition)
    requires i <= |lines| && BodiesFlat(lines, kind)
    ensures BodiesFlat(lines[..i], kind)
    decreases |lines| - i
  {
    hide BodiesFlat;
    if i == |lines| {
      assert lines[..i] == lines;
    } else {
      FlatPrefix(lines, i + 1, kind);
      FlatStep(lines, i, kind);
    }
  }

  // In a well-formed file the source finds nothing to object to, and bodies hold no definitions.
  lemma WellFormedFile(lines: seq<Line>, kind: Definition)
    requires WellFormed(lines) && kind != ClassDefinition
    ensures Ended(lines) && !Nests(lines, kind)
    ensures forall k | 0 <= k < |Definitions(lines, kind)| :: NoDefinitions(Definitions(lines, kind)[k].1)
  {
    hide OpenOf, Definitions;
    match kind {
      case FunctionDefinition =>
      case BlockDefinition =>
    }
    forall i | 0 <= i < |lines|
      ensures !(OpenOf(lines[..i], kind) && Opens(lines[i], kind))
    {
      FlatPrefix(lines, i + 1, kind);
      FlatStep(lines, i, kind);
    }
  }

  // What is open was opened by a line that nothing closes.
  lemma {:induction false} OpenSince(lines: seq<Line>) returns (i: nat)
    requires StillOpen(lines).Some?
    ensures i < |lines| && lines[i].Opening? && forall j | i < j < |lines| :: !lines[j].Closing?
  {
    var n := |lines| - 1;
    if StillOpen(lines[..n]).Some? {
      i := OpenSince(lines[..n]);
      forall j | i < j < |lines|
        ensures !lines[j].Closing?
      {
        assert j < n ==> !lines[..n][j].Closing?;
      }
    } else {
      i := n;
    }
  }

  lemma ClosedFile(lines: seq<Line>)
    requires Ended(lines)
    ensures AllClosed(lines)
  {
    if StillOpen(lines).Some? {
      var i := OpenSince(lines);
    }
  }

  // ----- files as they are written -----

  // What a file consists of: definitions, and lines between them.
  datatype Part = Defined(kind: Definition, name: Name, body: seq<Line>) | Single(line: Line)

  predicate Proper(p: Part) {
    match p
    case Defined(_, _, body) => NoDefinitions(body)
    case Single(l) => !l.Opening? && !l.Closing?
  }

  function PartLines(p: Part): seq<Line> {
    match p
    case Defined(kind, name, body) => [Opening(kind, name)] + body + [Closing]
    case Single(l) => [l]
  }

  function FileOf(ps: seq<Part>): seq<Line> {
    if ps == [] then [] else FileOf(ps[..|ps| - 1]) + PartLines(ps[|ps| - 1])
  }

  // The definitions of one kind, and the instructions between all definitions.
  function DefinedIn(ps: seq<Part>, kind: Definition): seq<(Name, seq<Line>)> {
    if ps == [] then []
    else
      var last := ps[|ps| - 1];
      DefinedIn(ps[..|ps| - 1], kind) + (if last.Defined? && last.kind == kind then [(last.name, last.body)] else [])
  }

  function Between(ps: seq<Part>): seq<Line> {
    if ps == [] then []
    else
      var last := ps[|ps| - 1];
      Between(ps[..|ps| - 1]) + (if last.Single? && last.line.Instruction? then [last.line] else [])
  }

  // After the first k lines of a body, behind lines where nothing is open.
  lemma {:induction false} InsideBody(a: seq<Line>, open: Definition, name: Name, body: seq<Line>, k: nat, kind: Definition)
    requires k <= |body| && NoDefinitions(body) && AllClosed(a) && !OpenOf(a, kind)
    ensures var s := a + [Opening(open, name)] + body[..k];
            && StillOpen(s).Some? && InstructionLines(s) == InstructionLines(a)
            && (OpenOf(s, kind) <==> open == kind)
            && Definitions(s, kind) == Definitions(a, kind) + (if open == kind then [(name, body[..k])] else [])
  {
    hide OpenOf, Definitions, StillOpen, InstructionLines, Counted, Marks;
    var s := a + [Opening(open, name)] + body[..k];
    var n := |s| - 1;
    assert s[..n + 1] == s;
    NextLine(s, n);
    DefinitionStep(s, n, kind);
    if k == 0 {
      assert s[..n] == a;
    } else {
      InsideBody(a, open, name, body, k - 1, kind);
      assert s[..n] == a + [Opening(open, name)] + body[..k - 1];
      assert s[n] == body[k - 1] && body[k - 1] in body;
      assert body[..k] == body[..k - 1] + [body[k - 1]];
      var d := Definitions(a, kind);
      assert (d + [(name, body[..k - 1])])[..|d|] == d;
    }
  }

  lemma OnePart(a: seq<Line>, p: Part, kind: Definition)
    requires AllClosed(a) && !OpenOf(a, kind) && Proper(p)
    ensures var s := a + PartLines(p);
            && AllClosed(s) && !OpenOf(s, kind)
            && Definitions(s, kind) == Definitions(a, kind) + DefinedIn([p], kind)
            && InstructionLines(s) == InstructionLines(a) + Between([p])
  {
    hide OpenOf, Definitions, StillOpen, InstructionLines, Counted, Marks;
    PartAlone(p, kind);
    var s := a + PartLines(p);
    var n := |s| - 1;
    assert s[..n + 1] == s;
    NextLine(s, n);
    DefinitionStep(s, n, kind);
    if p.Defined? {
      InsideBody(a, p.kind, p.name, p.body, |p.body|, kind);
      assert p.body[..|p.body|] == p.body && s[..n] == a + [Opening(p.kind, p.name)] + p.body;
    } else {
      assert s[..n] == a;
    }
  }

  lemma PartAlone(p: Part, kind: Definition)
    ensures DefinedIn([p], kind) == if p.Defined? && p.kind == kind then [(p.name, p.body)] else []
    ensures Between([p]) == if p.Single? && p.line.Instruction? then [p.line] else []
  {
    assert [p][..0] == [];
    assert DefinedIn([], kind) == [] && Between([]) == [];
  }

  // A file is cut into what it was written of: the definitions of each kind with their names and bodies
  // in order, and the instructions between them.
  lemma {:induction false} CutAsWritten(ps: seq<Part>, kind: Definition)
    requires forall p <- ps :: Proper(p)
    ensures AllClosed(FileOf(ps)) && !OpenOf(FileOf(ps), kind)
    ensures Definitions(FileOf(ps), kind) == DefinedIn(ps, kind)
    ensures InstructionLines(FileOf(ps)) == Between(ps)
  {
    hide OpenOf, Definitions, InstructionLines, StillOpen, PartLines;
    if ps == [] {
      NothingDefined(kind);
      NothingAtAll();
    } else {
      var n := |ps| - 1;
      CutAsWritten(ps[..n], kind);
      OnePart(FileOf(ps[..n]), ps[n], kind);
      PartAlone(ps[n], kind);
    }
  }

  // ----- counting a file -----

  // The bytes of all definitions of one kind.
  function DefinedBytes(d: seq<(Name, seq<Line>)>): nat {
    if d == [] then 0 else DefinedBytes(d[..|d| - 1]) + TotalBytes(d[|d| - 1].1)
  }

  lemma DefinedStep(lines: seq<Line>, i: nat, kind: Definition)
    requires i < |lines|
    ensures DefinedBytes(Definitions(lines[..i + 1], kind)) ==
            DefinedBytes(Definitions(lines[..i], kind)) +
            (if OpenOf(lines[..i], kind) && !lines[i].Closing? then BytesOf(lines[i]) else 0)
  {
    hide OpenOf, Definitions, TotalBytes, LineBytes, Known;
    DefinitionStep(lines, i, kind);
    var d := Definitions(lines[..i], kind);
    if OpenOf(lines[..i], kind) && !lines[i].Closing? {
      var body := d[|d| - 1].1;
      KnownSnoc(body, lines[i]);
      DefinedSnoc(d[..|d| - 1], (d[|d| - 1].0, body + [lines[i]]));
      DefinedSnoc(d[..|d| - 1], d[|d| - 1]);
      assert d == d[..|d| - 1] + [d[|d| - 1]];
    } else if !OpenOf(lines[..i], kind) && Opens(lines[i], kind) {
      DefinedSnoc(d, (lines[i].name, []));
      NothingKnown();
    }
  }

  lemma DefinedSnoc(d: seq<(Name, seq<Line>)>, x: (Name, seq<Line>))
    ensures DefinedBytes(d + [x]) == DefinedBytes(d) + TotalBytes(x.1)
  {
    hide TotalBytes;
    assert (d + [x])[..|d|] == d;
  }

  // What follows these lines stands in no function and no block, and in a class unless the top level
  // is asked for as well.
  predicate Outside(init: seq<Line>, top: bool) {
    !OpenOf(init, FunctionDefinition) && !OpenOf(init, BlockDefinition) && (top || StillOpen(init).Some?)
  }

  // The bytes counted for such lines.
  function Elsewhere(lines: seq<Line>, top: bool): nat {
    if lines == [] then 0
    else
      var init, last := lines[..|lines| - 1], lines[|lines| - 1];
      Elsewhere(init, top) + (if Outside(init, top) then BytesOf(last) else 0)
  }

  lemma ElsewhereStep(lines: seq<Line>, i: nat, top: bool)
    requires i < |lines|
    ensures Elsewhere(lines[..i + 1], top) ==
            Elsewhere(lines[..i], top) + (if Outside(lines[..i], top) then BytesOf(lines[i]) else 0)
  {
    assert lines[..i + 1][..i] == lines[..i];
  }

  // Functions and blocks do not overlap.
  lemma {:induction false} OneOpen(lines: seq<Line>)
    requires BodiesFlat(lines, FunctionDefinition) && BodiesFlat(lines, BlockDefinition)
    ensures !(OpenOf(lines, FunctionDefinition) && OpenOf(lines, BlockDefinition))
  {
    hide BodiesFlat;
    if lines != [] {
      var n := |lines| - 1;
      assert lines[..n + 1] == lines;
      FlatStep(lines, n, FunctionDefinition);
      FlatStep(lines, n, BlockDefinition);
      OneOpen(lines[..n]);
    }
  }

  // A file is its functions, its blocks, what else its classes contain, and its top level; one count
  // over all lines counts each of them once.
  lemma {:induction false} CountOfParts(lines: seq<Line>)
    requires BodiesFlat(lines, FunctionDefinition) && BodiesFlat(lines, BlockDefinition)
    ensures TotalBytes(lines) == DefinedBytes(Definitions(lines, FunctionDefinition)) +
                                 DefinedBytes(Definitions(lines, BlockDefinition)) + Elsewhere(lines, true)
    ensures Elsewhere(lines, true) == Elsewhere(lines, false) + BodyBytes(lines)
  {
    hide OpenOf, Definitions, StillOpen, DefinedBytes, LineBytes, Known, InstructionLines, TotalBytes, BodiesFlat, Elsewhere;
    if lines == [] {
      NothingCounted();
    } else {
      var n := |lines| - 1;
      assert lines[..n + 1] == lines && lines[..n] + [lines[n]] == lines;
      FlatStep(lines, n, FunctionDefinition);
      FlatStep(lines, n, BlockDefinition);
      CountOfParts(lines[..n]);
      OneOpen(lines[..n]);
      KnownSnoc(lines[..n], lines[n]);
      KnownSnoc(InstructionLines(lines[..n]), lines[n]);
      NextLine(lines, n);
      DefinedStep(lines, n, FunctionDefinition);
      DefinedStep(lines, n, BlockDefinition);
      ElsewhereStep(lines, n, true);
      ElsewhereStep(lines, n, false);
      OpenSome(lines[..n]);
      assert InstructionLines(lines[..n]) + [] == InstructionLines(lines[..n]);
    }
  }

  lemma OpenSome(lines: seq<Line>)
    ensures OpenOf(lines, FunctionDefinition) || OpenOf(lines, BlockDefinition) ==> StillOpen(lines).Some?
  {
    hide StillOpen;
    if OpenOf(lines, FunctionDefinition) {
      OpenIsOpen(lines, FunctionDefinition);
    } else if OpenOf(lines, BlockDefinition) {
      OpenIsOpen(lines, BlockDefinition);
    }
  }

  lemma NothingCounted()
    ensures TotalBytes([]) == 0 && BodyBytes([]) == 0 && Elsewhere([], true) == 0 && Elsewhere([], false) == 0
    ensures DefinedBytes([]) == 0
    ensures Definitions([], FunctionDefinition) == [] && Definitions([], BlockDefinition) == []
  {
  }

  // ----- the entry function -----

  // "__entry"
  const ENTRY: Name := [95, 95, 101, 110, 116, 114, 121]

  function InRegister(n: Int32): Token {
    Number(Operand(false, n))
  }

  // The lines the entry function puts before and behind those of the file.
  const PROLOGUE: seq<Line> := [Instruction(RESS, [RegisterSet(1)])]

  function Epilogue(main: Name): seq<Line> {
    [Instruction(FRAME, [InRegister(1)]), Instruction(PARAM, [InRegister(0), InRegister(1)]),
     Instruction(CALL, [InRegister(1), Word(main)]), Instruction(MOVE, [InRegister(0), InRegister(1)]), Instruction(HALT, [])]
  }

  // The body of the entry function: the whole file, definitions included, between the two.
  function EntryLines(file: seq<Line>, main: Name): seq<Line> {
    PROLOGUE + file + Epilogue(main)
  }

  // What generate adds to the count of the file for it.
  function EntrySize(main: Name): nat {
    OpSize(RESS) + OpSize(FRAME) + OpSize(PARAM) + OpSize(CALL) + |main| + 1 + OpSize(MOVE) + OpSize(HALT)
  }

  lemma {:induction false} StillOpenConcat(a: seq<Line>, b: seq<Line>)
    requires StillOpen(a).None?
    ensures StillOpen(a + b) == StillOpen(b)
    ensures InstructionLines(a + b) == InstructionLines(a) + InstructionLines(b)
  {
    hide StillOpen, InstructionLines, Counted, Marks;
    if b == [] {
      assert a + b == a;
      NothingAtAll();
    } else {
      var n := |b| - 1;
      StillOpenConcat(a, b[..n]);
      assert (a + b)[..|a| + n] == a + b[..n] && (a + b)[..|a| + n + 1] == a + b && b[..n + 1] == b;
      NextLine(a + b, |a| + n);
      NextLine(b, n);
    }
  }

  lemma NothingAtAll()
    ensures StillOpen([]).None? && InstructionLines([]) == []
  {
  }

  // The entry function holds the instructions of the top level between the two parts, and what is
  // added to the count is what it adds to the code.
  lemma EntryMeaning(file: seq<Line>, main: Name)
    requires AllClosed(file)
    ensures AllClosed(EntryLines(file, main))
    ensures InstructionLines(EntryLines(file, main)) == PROLOGUE + InstructionLines(file) + Epilogue(main)
    ensures BodyBytes(EntryLines(file, main)) == BodyBytes(file) + EntrySize(main)
    ensures TotalBytes(EntryLines(file, main)) == TotalBytes(file) + EntrySize(main)
  {
    hide StillOpen, InstructionLines, TotalBytes, OpSize, Known;
    FrameLines(main);
    BodyIsClosed(PROLOGUE);
    BodyIsClosed(Epilogue(main));
    StillOpenConcat(PROLOGUE, file);
    StillOpenConcat(PROLOGUE + file, Epilogue(main));
    ConcatBytes(PROLOGUE, InstructionLines(file));
    ConcatBytes(PROLOGUE + InstructionLines(file), Epilogue(main));
    ConcatBytes(PROLOGUE, file);
    ConcatBytes(PROLOGUE + file, Epilogue(main));
  }

  lemma {:induction false} ConcatBytes(a: seq<Line>, b: seq<Line>)
    ensures TotalBytes(a + b) == TotalBytes(a) + TotalBytes(b)
  {
    hide LineBytes, Known;
    if b == [] {
      assert a + b == a;
    } else {
      var n := |b| - 1;
      ConcatBytes(a, b[..n]);
      assert (a + b)[..|a| + n] == a + b[..n];
    }
  }

  lemma FrameLines(main: Name)
    ensures NoDefinitions(PROLOGUE) && NoDefinitions(Epilogue(main))
    ensures InstructionLines(PROLOGUE) == PROLOGUE && InstructionLines(Epilogue(main)) == Epilogue(main)
    ensures TotalBytes(PROLOGUE) + TotalBytes(Epilogue(main)) == EntrySize(main)
    ensures AllKnown(PROLOGUE) && AllKnown(Epilogue(main))
  {
    hide TotalBytes, InstructionLines, Epilogue;
    EpilogueLines(main);
    AllInstructions(PROLOGUE);
    AllInstructions(Epilogue(main));
    PrologueBytes();
    EpilogueBytes(main);
  }

  lemma EpilogueLines(main: Name)
    ensures (forall l <- PROLOGUE :: l.Instruction?) && forall l <- Epilogue(main) :: l.Instruction?
    ensures AllKnown(PROLOGUE) && AllKnown(Epilogue(main))
  {
  }

  lemma PrologueBytes()
    ensures TotalBytes(PROLOGUE) == OpSize(RESS)
  {
    NothingKnown();
    KnownSnoc([], PROLOGUE[0]);
    assert PROLOGUE == [] + [PROLOGUE[0]];
  }

  lemma EpilogueBytes(main: Name)
    ensures TotalBytes(Epilogue(main)) == EntrySize(main) - OpSize(RESS)
  {
    hide TotalBytes;
    var e := Epilogue(main);
    NothingKnown();
    assert e == [] + [e[0]] + [e[1]] + [e[2]] + [e[3]] + [e[4]];
    KnownSnoc([], e[0]);
    KnownSnoc([] + [e[0]], e[1]);
    KnownSnoc([] + [e[0]] + [e[1]], e[2]);
    KnownSnoc([] + [e[0]] + [e[1]] + [e[2]], e[3]);
    KnownSnoc([] + [e[0]] + [e[1]] + [e[2]] + [e[3]], e[4]);
  }
}
