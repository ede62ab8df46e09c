// Generating sections of functions and blocks, their address tables, and the jumps that are
// absolute (src/front/asm/generate.cpp:633-644, 886-1039, 1074-1238).
module Generator {
  import opened Bytes
  import opened Opcodes
  import opened Instructions
  import opened Assembler
  import opened Jumps
  import opened Patching
  import opened Programs
  import opened Compiler
  import opened Sections
  import opened Linker
  import opened Files

  // Names in source order and the body of each (invocables_t).
  datatype Invocables = Invocables(names: seq<Name>, bodies: map<Name, seq<Line>>)

  predicate Distinct(names: seq<Name>) {
    forall j, k | 0 <= j < k < |names| :: names[j] != names[k]
  }

  lemma DistinctPrefix(names: seq<Name>, n: nat)
    requires Distinct(names) && n <= |names|
    ensures Distinct(names[..n])
  {
  }

  predicate Complete(v: Invocables) {
    Distinct(v.names) && forall k | 0 <= k < |v.names| :: v.names[k] in v.bodies
  }

  function BodiesOf(v: Invocables): (bs: Bodies)
    requires Complete(v)
    ensures |bs| == |v.names| && forall k | 0 <= k < |bs| :: bs[k] == v.bodies[v.names[k]]
  {
    seq(|v.names|, k requires 0 <= k < |v.names| => v.bodies[v.names[k]])
  }

  // Bodies as they are cut out of a file: only the entry function contains definitions.
  predicate Ready(v: Invocables) {
    && Complete(v)
    && forall k | 0 <= k < |v.names| ::
         if v.names[k] == ENTRY then AllClosed(v.bodies[v.names[k]]) else NoDefinitions(v.bodies[v.names[k]])
  }

  predicate Simple(v: Invocables) {
    Complete(v) && forall k | 0 <= k < |v.names| :: NoDefinitions(v.bodies[v.names[k]])
  }

  lemma SimpleIsReady(v: Invocables)
    requires Simple(v)
    ensures Ready(v)
  {
    hide NoDefinitions, AllClosed;
    forall k | 0 <= k < |v.names|
      ensures AllClosed(v.bodies[v.names[k]])
    {
      BodyIsClosed(v.bodies[v.names[k]]);
    }
  }

  // Adding a wrapped size to a wrapped address wraps the sum.
  lemma NextAddress(starting: nat, bs: Bodies, i: nat, next: nat)
    requires i < |bs| && next == (starting + Before(bs, i)) % 0x1_0000 && NoDefinitions(bs[i])
    ensures (next + TotalBytes(bs[i]) % 0x1_0000) % 0x1_0000 == (starting + Before(bs, i + 1)) % 0x1_0000
  {
    hide BodyBytes, TotalBytes;
    FilterKeepsBytes(bs[i]);
  }

  predicate AllCounted(v: Invocables, n: nat)
    requires Complete(v) && n <= |v.names|
  {
    forall k | 0 <= k < n :: AllKnown(v.bodies[v.names[k]])
  }

  // Addresses before anything is generated, in 16-bit arithmetic; an error exactly when an unknown
  // instruction is met.  Bodies are counted as they are, with what definitions inside them contain.
  method MapInvokableAddresses(starting: nat, v: Invocables) returns (ok: bool, next: nat, addresses: map<Name, nat>)
    requires Complete(v) && starting < 0x1_0000
    ensures ok <==> AllCounted(v, |v.names|)
    ensures next < 0x1_0000
    ensures ok && Simple(v) ==>
              && next == (starting + Before(BodiesOf(v), |v.names|)) % 0x1_0000
              && forall k | 0 <= k < |v.names| ::
                   && v.names[k] in addresses
                   && addresses[v.names[k]] == (starting + Before(BodiesOf(v), k)) % 0x1_0000
  {
    hide TotalBytes, BodyBytes, AllKnown, Before, NoDefinitions;
    next, addresses := starting, map[];
    ghost var bs := BodiesOf(v);
    assert Before(bs, 0) == 0 by {
      BeforeNothing(bs);
    }
    for i := 0 to |v.names|
      invariant AllCounted(v, i) && next < 0x1_0000
      invariant Simple(v) ==> next == (starting + Before(bs, i)) % 0x1_0000
      invariant Simple(v) ==> forall k | 0 <= k < i ::
                  v.names[k] in addresses && addresses[v.names[k]] == (starting + Before(bs, k)) % 0x1_0000
    {
      if Simple(v) {
        NextAddress(starting, bs, i, next);
      }
      addresses := addresses[v.names[i] := next];
      var count := CountBytes(v.bodies[v.names[i]]);
      if count.Err? {
        return false, 0, map[];
      }
      next := (next + count.value) % 0x1_0000;
    }
    ok := true;
  }

  // What is known about the elements generated so far.
  ghost predicate Generated(done: Bodies, size: nat, jumpTable: seq<nat>, jumpPositions: seq<(nat, nat)>) {
    && AllAssemble(done)
    && size == Before(done, |done|)
    && Locates(Flat(done), RecordedSlots(Flat(done), false), jumpTable)
    && Locates(Flat(done), RecordedSlots(Flat(done), true), Firsts(jumpPositions))
    && forall j | 0 <= j < |jumpPositions| :: jumpPositions[j].1 == 0
  }

  function Firsts(p: seq<(nat, nat)>): seq<nat> {
    seq(|p|, j requires 0 <= j < |p| => p[j].0)
  }

  // Positions of absolute targets of an element at byte size, each to be counted from byte 0.
  function FromStart(positions: seq<nat>, size: nat): seq<(nat, nat)> {
    seq(|positions|, i requires 0 <= i < |positions| => (positions[i] + size, 0))
  }

  lemma FirstsConcat(p: seq<(nat, nat)>, positions: seq<nat>, size: nat)
    ensures Firsts(p + FromStart(positions, size)) == Firsts(p) + Shifted(positions, size)
  {
  }

  lemma TableSnocs(done: Bodies, size: nat, p: seq<nat>, x: seq<Line>, q: seq<nat>, absolute: bool)
    requires AllAssemble(done) && size == Before(done, |done|)
    requires AllAssemble(done + [x]) && Assembles(x)
    requires Locates(Flat(done), RecordedSlots(Flat(done), absolute), p)
    requires Locates(CodeOf(x), RecordedSlots(CodeOf(x), absolute), q)
    ensures Locates(Flat(done + [x]), RecordedSlots(Flat(done + [x]), absolute), p + Shifted(q, size))
  {
    hide AllAssemble, Flat, Before, RecordedSlots, CodeOf, PlacedCode, Assembles, Locates, EncodeAll, Shifted, FlatPlaced;
    FlatSnoc(done, x, 0);
    FlatLengths(done, 0);
    LocatesConcat(Flat(done), CodeOf(x), absolute, p, q);
  }

  // One more element behind those generated before.
  lemma GeneratedSnoc(done: Bodies, size: nat, jumpTable: seq<nat>, jumpPositions: seq<(nat, nat)>,
                      x: seq<Line>, e: Element)
    requires Generated(done, size, jumpTable, jumpPositions)
    requires Assembles(x) && IsElement(x, size, e)
    ensures Generated(done + [x], size + |e.bytes|, jumpTable + Shifted(e.jumps, size),
                      jumpPositions + FromStart(e.absolute, size))
  {
    hide AllAssemble, Flat, Before, RecordedSlots, CodeOf, PlacedCode, Assembles, Locates, EncodeAll, Firsts, Shifted,
      BodyBytes;
    ElementSize(x, size, e);
    One(x);
    AssembleConcat(done, [x]);
    BeforeSnoc(done, x);
    TableSnocs(done, size, jumpTable, x, e.jumps, false);
    TableSnocs(done, size, Firsts(jumpPositions), x, e.absolute, true);
    FirstsConcat(jumpPositions, e.absolute, size);
  }

  lemma One(x: seq<Line>)
    requires Assembles(x)
    ensures AllAssemble([x])
  {
  }

  // The elements of v, the first of them at byte start.
  ghost predicate ElementsOf(v: Invocables, start: nat, n: nat, code: map<Name, Element>)
    requires Complete(v) && n <= |v.names|
  {
    forall k | 0 <= k < n ::
      && v.names[k] in code
      && Assembles(v.bodies[v.names[k]])
      && IsElement(v.bodies[v.names[k]], start + Before(BodiesOf(v), k), code[v.names[k]])
  }

  lemma BodyOfSection(bs: Bodies, k: nat)
    requires k < |bs|
    ensures Before(bs, k + 1) == Before(bs, k) + BodyBytes(bs[k]) <= Before(bs, |bs|)
  {
    hide BodyBytes;
    BeforeMonotone(bs, k + 1, |bs|);
  }

  lemma SectionGrows(done: Bodies, bs: Bodies, k: nat)
    requires k < |bs|
    ensures done + bs[..k + 1] == done + bs[..k] + [bs[k]]
  {
    assert bs[..k + 1] == bs[..k] + [bs[k]];
  }

  // Generate every body of v behind the elements that are already done.
  method GenerateSection(v: Invocables, start: nat, ghost done: Bodies,
                         oldTable: seq<nat>, oldPositions: seq<(nat, nat)>)
    returns (ok: bool, code: map<Name, Element>, size: nat, jumpTable: seq<nat>, jumpPositions: seq<(nat, nat)>)
    requires Ready(v) && Generated(done, start, oldTable, oldPositions)
    requires start + Before(BodiesOf(v), |v.names|) < 0x1_0000
    ensures ok <==> AllAssemble(BodiesOf(v))
    ensures ok ==> ElementsOf(v, start, |v.names|, code)
    ensures ok ==> Generated(done + BodiesOf(v), size, jumpTable, jumpPositions)
  {
    hide BodyBytes, Assembles, Before, IsElement, Generated, AllClosed, NoDefinitions;
    ghost var bs := BodiesOf(v);
    code, size, jumpTable, jumpPositions := map[], start, oldTable, oldPositions;
    assert done + bs[..0] == done;
    assert Before(bs, 0) == 0 by {
      BeforeNothing(bs);
    }
    for i := 0 to |v.names|
      invariant size == start + Before(bs, i)
      invariant forall k | 0 <= k < i :: Assembles(bs[k])
      invariant ElementsOf(v, start, i, code)
      invariant Generated(done + bs[..i], size, jumpTable, jumpPositions)
    {
      BodyOfSection(bs, i);
      var e := GenerateElement(v.bodies[v.names[i]], v.names[i] == ENTRY, size);
      if e.None? {
        assert !Assembles(bs[i]);
        return false, map[], 0, [], [];
      }
      GeneratedSnoc(done + bs[..i], size, jumpTable, jumpPositions, bs[i], e.value);
      SectionGrows(done, bs, i);
      ElementSize(bs[i], size, e.value);
      code := code[v.names[i] := e.value];
      jumpTable := jumpTable + Shifted(e.value.jumps, size);
      jumpPositions := jumpPositions + FromStart(e.value.absolute, size);
      size := size + |e.value.bytes|;
    }
    assert done + bs[..|v.names|] == done + bs;
    ok := true;
  }

  lemma ElementSize(lines: seq<Line>, base: nat, e: Element)
    requires Assembles(lines) && IsElement(lines, base, e)
    ensures |e.bytes| == BodyBytes(lines)
  {
    hide EncodeAll, CodeOf;
    CodeMeaning(lines);
  }

  // ----- the final byte array -----

  // Copy the generated elements of v behind those already copied.
  method CopySection(v: Invocables, code: map<Name, Element>, image: array<Byte>, start: nat, ghost done: Bodies)
    returns (used: nat)
    requires Complete(v) && AllAssemble(done) && start == Before(done, |done|)
    requires ElementsOf(v, start, |v.names|, code)
    requires start + Before(BodiesOf(v), |v.names|) <= image.Length
    requires image[..start] == EncodeAll(FlatPlaced(done, 0))
    modifies image
    ensures used == start + Before(BodiesOf(v), |v.names|)
    ensures AllAssemble(done + BodiesOf(v))
    ensures image[..used] == EncodeAll(FlatPlaced(done + BodiesOf(v), 0))
  {
    hide BodyBytes, AllAssemble, Assembles, Before, IsElement, EncodeAll, FlatPlaced;
    ghost var bs := BodiesOf(v);
    used := start;
    BeforeMonotone(bs, 0, |bs|);
    assert done + bs[..0] == done;
    assert Before(bs, 0) == 0 by {
      BeforeNothing(bs);
    }
    for i := 0 to |v.names|
      invariant used == start + Before(bs, i) <= image.Length
      invariant AllAssemble(done + bs[..i])
      invariant image[..used] == EncodeAll(FlatPlaced(done + bs[..i], 0))
    {
      var e := code[v.names[i]];
      BodyOfSection(bs, i);
      ElementSize(bs[i], used, e);
      PlacedNext(done, bs, i, used, e);
      ghost var before := image[..used];
      for j := 0 to |e.bytes|
        invariant image[..used] == before && image[used..used + j] == e.bytes[..j]
      {
        image[used + j] := e.bytes[j];
        assert image[used..used + j + 1] == image[used..used + j] + [e.bytes[j]];
      }
      assert e.bytes[..|e.bytes|] == e.bytes;
      assert image[..used + |e.bytes|] == image[..used] + image[used..used + |e.bytes|];
      used := used + |e.bytes|;
    }
    assert done + bs[..|v.names|] == done + bs;
  }

  lemma PlacedNext(done: Bodies, bs: Bodies, i: nat, at: nat, e: Element)
    requires i < |bs| && AllAssemble(done + bs[..i])
    requires at == Before(done, |done|) + Before(bs, i)
    requires Assembles(bs[i]) && IsElement(bs[i], at, e)
    ensures AllAssemble(done + bs[..i + 1])
    ensures EncodeAll(FlatPlaced(done + bs[..i + 1], 0)) == EncodeAll(FlatPlaced(done + bs[..i], 0)) + e.bytes
  {
    hide BodyBytes, AllAssemble, Before, EncodeAll, FlatPlaced, PlacedCode, CodeOf, Assembles, IsElement, Flat;
    One(bs[i]);
    SectionGrows(done, bs, i);
    AssembleConcat(done + bs[..i], [bs[i]]);
    BeforePrefix(bs, i, i);
    BeforeConcat(done, bs[..i], i);
    FlatSnoc(done + bs[..i], bs[i], 0);
    EncodeConcat(FlatPlaced(done + bs[..i], 0), PlacedCode(bs[i], at));
    ElementBytes(bs[i], at, e);
  }

  lemma ElementBytes(lines: seq<Line>, base: nat, e: Element)
    requires Assembles(lines) && IsElement(lines, base, e)
    ensures e.bytes == EncodeAll(PlacedCode(lines, base))
  {
    hide EncodeAll, PlacedCode, CodeOf, RecordedSlots, Locates;
  }

  // ----- address tables -----

  // A name, its NUL and its 16-bit address.
  function Entry(name: Name, address: nat): seq<Byte> {
    name + [0] + [address % 0x100, address / 0x100 % 0x100]
  }

  function Table(entries: seq<(Name, nat)>): seq<Byte> {
    if entries == [] then []
    else Table(entries[..|entries| - 1]) + Entry(entries[|entries| - 1].0, entries[|entries| - 1].1)
  }

  // Name k of v with the byte where its element lies.
  function EntryOf(v: Invocables, start: nat, k: nat): (Name, nat)
    requires Complete(v) && k < |v.names|
  {
    (v.names[k], start + Before(BodiesOf(v), k))
  }

  function Entries(v: Invocables, start: nat): (e: seq<(Name, nat)>)
    requires Complete(v)
    ensures |e| == |v.names| && forall k | 0 <= k < |e| :: e[k] == EntryOf(v, start, k)
  {
    seq(|v.names|, k requires 0 <= k < |v.names| => EntryOf(v, start, k))
  }

  lemma TableSnoc(entries: seq<(Name, nat)>, k: nat)
    requires k < |entries|
    ensures Table(entries[..k + 1]) == Table(entries[..k]) + Entry(entries[k].0, entries[k].1)
  {
    assert entries[..k + 1][..k] == entries[..k];
  }

  // Write the address table of the elements of v; the sizes are counted once more from the source.
  // The entry function, which is counted with all definitions in it, comes last.
  method WriteTable(v: Invocables, start: nat) returns (out: seq<Byte>, sizeSoFar: nat)
    requires Complete(v) && AllCounted(v, |v.names|) && start + Before(BodiesOf(v), |v.names|) < 0x1_0000
    requires forall k | 0 <= k < |v.names| - 1 :: NoDefinitions(v.bodies[v.names[k]])
    ensures out == Table(Entries(v, start))
    ensures Simple(v) ==> sizeSoFar == start + Before(BodiesOf(v), |v.names|)
  {
    hide BodyBytes, TotalBytes, Before, Entry, AllKnown, NoDefinitions;
    ghost var bs, entries := BodiesOf(v), Entries(v, start);
    BeforeNothing(bs);
    out, sizeSoFar := [], start;
    for i := 0 to |v.names|
      invariant i < |v.names| || Simple(v) ==> sizeSoFar == start + Before(bs, i)
      invariant out == Table(entries[..i])
    {
      BodyOfSection(bs, i);
      out := out + Entry(v.names[i], sizeSoFar);
      var count := CountBytes(v.bodies[v.names[i]]);
      if NoDefinitions(bs[i]) {
        FilterKeepsBytes(bs[i]);
      }
      sizeSoFar := (sizeSoFar + count.value) % 0x1_0000;
      TableSnoc(entries, i);
    }
    assert entries[..|v.names|] == entries;
  }

  // ----- absolute jumps -----

  // Every absolute target is the index of an instruction of the whole program.
  predicate AbsoluteInside(bs: Bodies)
    requires AllAssemble(bs)
  {
    forall s <- RecordedSlots(Flat(bs), true) :: HasSlot(Flat(bs), s) ==> TargetOf(Flat(bs), s) < |Flat(bs)|
  }

  // The instructions of the program as they are executed: targets are byte addresses.
  function Executable(bs: Bodies): Code
    requires AllAssemble(bs)
  {
    Resolve(FlatPlaced(bs, 0), Absolute, 0)
  }

  lemma SlotsNaturalFlat(bs: Bodies)
    requires AllAssemble(bs)
    ensures forall s <- RecordedSlots(Flat(bs), true) :: HasSlot(Flat(bs), s) && TargetOf(Flat(bs), s) >= 0
  {
    hide RecordedSlots, AllAssemble, Flat;
    RecordedAreSlots(Flat(bs), true);
    FlatAgrees(bs);
    forall s | s in RecordedSlots(Flat(bs), true)
      ensures TargetOf(Flat(bs), s) >= 0
    {
      FilingOfSlot(Flat(bs), s);
      FlatNatural(bs, s.at);
    }
  }

  lemma {:induction false} FlatNatural(bs: Bodies, k: nat)
    requires AllAssemble(bs) && k < |Flat(bs)|
    ensures IndexesNatural(Flat(bs)[k])
  {
    hide CodeOf, Assembles, IndexesNatural;
    var n := |bs| - 1;
    if k < |Flat(bs[..n])| {
      FlatNatural(bs[..n], k);
    } else {
      CodeMeaning(bs[n]);
    }
  }

  // The recorded absolute targets of a program, as found in its placed bytecode.
  lemma AbsoluteInPlace(bs: Bodies, positions: seq<nat>)
    requires AllAssemble(bs)
    requires Locates(Flat(bs), RecordedSlots(Flat(bs), true), positions)
    ensures var p := FlatPlaced(bs, 0); var slots := RecordedSlots(p, true);
            && ValidCode(p) && AllKindsAgree(p) && slots == RecordedSlots(Flat(bs), true)
            && Locates(p, slots, positions)
            && (forall j | 0 <= j < |slots| :: HasSlot(p, slots[j]) && TargetOf(p, slots[j]) >= 0
                                              && TargetOf(p, slots[j]) == TargetOf(Flat(bs), slots[j]))
  {
    hide RecordedSlots, AllAssemble, Flat, FlatPlaced, Before, KindOf, TargetOf;
    PlacedAbsolute(bs, 0);
    FlatSame(bs, 0);
    LocatesSame(Flat(bs), FlatPlaced(bs, 0), RecordedSlots(Flat(bs), true), positions);
    SlotsNaturalFlat(bs);
    FlatAgrees(bs);
    forall s | s in RecordedSlots(Flat(bs), true)
      ensures HasSlot(FlatPlaced(bs, 0), s) && TargetOf(FlatPlaced(bs, 0), s) == TargetOf(Flat(bs), s)
    {
      FilingOfSlot(Flat(bs), s);
      AbsoluteKept(bs, s);
    }
  }

  // A target of code that is not relative is found unchanged in p.
  predicate Kept(code: Code, p: Code, s: Slot) {
    HasSlot(code, s) && KindOf(code, s) != Relative ==> HasSlot(p, s) && TargetOf(p, s) == TargetOf(code, s)
  }

  lemma KeptConcat(a: Code, p: Code, b: Code, q: Code, s: Slot)
    requires |a| == |p|
    requires s.at < |a| ==> Kept(a, p, s)
    requires s.at >= |a| ==> Kept(b, q, Slot(s.at - |a|, s.second))
    ensures Kept(a + b, p + q, s)
  {
    hide HasSlot, TargetOf, KindOf;
    if s.at < |a| {
      TargetLeft(a, b, s);
      TargetLeft(p, q, s);
    } else {
      TargetRight(a, b, s);
      TargetRight(p, q, s);
    }
  }

  lemma KeptSnoc(init: Bodies, x: seq<Line>, s: Slot)
    requires AllAssemble(init + [x])
    requires AllAssemble(init) && Kept(Flat(init), FlatPlaced(init, 0), s)
    ensures Kept(Flat(init + [x]), FlatPlaced(init + [x], 0), s)
  {
    hide AllAssemble, Flat, FlatPlaced, Before, PlacedCode, CodeOf, Kept, Assembles;
    FlatSnoc(init, x, 0);
    FlatLengths(init, 0);
    var at := Before(init, |init|);
    if s.at >= |Flat(init)| {
      OwnAbsoluteKept(x, at, Slot(s.at - |Flat(init)|, s.second));
    }
    KeptConcat(Flat(init), FlatPlaced(init, 0), CodeOf(x), PlacedCode(x, at), s);
  }

  lemma {:induction false} AbsoluteKept(bs: Bodies, s: Slot)
    requires AllAssemble(bs)
    ensures Kept(Flat(bs), FlatPlaced(bs, 0), s)
  {
    hide AllAssemble, Flat, FlatPlaced, Kept;
    if bs == [] {
      FlatNothing(0);
      NoSlotIn(s);
    } else {
      var init, x := bs[..|bs| - 1], bs[|bs| - 1];
      assert init + [x] == bs;
      AssembleConcat(init, [x]);
      AbsoluteKept(init, s);
      KeptSnoc(init, x, s);
    }
  }

  lemma NoSlotIn(s: Slot)
    ensures Kept([], [], s)
  {
  }

  lemma OwnAbsoluteKept(lines: seq<Line>, base: nat, s: Slot)
    requires Assembles(lines)
    ensures Kept(CodeOf(lines), PlacedCode(lines, base), s)
  {
    hide Assembled;
  }

  // Every absolute target is the index of a local instruction, or of what lies right behind them if
  // anything does.
  predicate AbsoluteReached(bs: Bodies, behind: nat)
    requires AllAssemble(bs)
  {
    forall s <- RecordedSlots(Flat(bs), true) :: HasSlot(Flat(bs), s) ==> Reaches(Flat(bs), behind, TargetOf(Flat(bs), s))
  }

  // Some absolute target could not be reached even if all bytes behind the local code were
  // instructions.
  predicate AbsoluteLost(bs: Bodies, tail: nat)
    requires AllAssemble(bs)
  {
    exists s <- RecordedSlots(Flat(bs), true) :: HasSlot(Flat(bs), s) && TargetOf(Flat(bs), s) >= |Flat(bs)| + tail
  }

  // With at most one byte behind the local code it is one or the other.
  lemma ReachedOrLost(bs: Bodies, tail: nat)
    requires AllAssemble(bs) && tail <= 1
    ensures AbsoluteLost(bs, tail) <==> !AbsoluteReached(bs, tail)
  {
    hide AllAssemble, Flat, RecordedSlots;
    SlotsNaturalFlat(bs);
  }

  // Any code with something behind it, so that its end has an address too.
  function Followed(code: Code): Code {
    code + [Bare(NOP)]
  }

  // The code of the local elements with their absolute targets resolved, that right behind it included.
  function LocalCode(bs: Bodies): Code
    requires AllAssemble(bs)
  {
    ResolveIn(Followed(FlatPlaced(bs, 0)), FlatPlaced(bs, 0), Absolute, 0)
  }

  // What patching the absolute targets does to local code at the head of an image.
  lemma AbsoluteJumps(bs: Bodies, tail: seq<Byte>, jumps: seq<(nat, nat)>, jumpTable: seq<nat>, count: nat)
    requires AllAssemble(bs) && Generated(bs, |EncodeAll(FlatPlaced(bs, 0))|, jumpTable, jumps)
    requires |EncodeAll(FlatPlaced(bs, 0))| + |tail| < 0x1_0000
    ensures forall j <- jumps :: Patchable(EncodeAll(FlatPlaced(bs, 0)) + tail, j)
    ensures var patched := PatchedAll(EncodeAll(FlatPlaced(bs, 0)) + tail, jumps, count);
            && (AbsoluteReached(bs, |tail|) ==> patched == Ok(EncodeAll(LocalCode(bs)) + tail))
            && (AbsoluteLost(bs, |tail|) ==> patched.Err?)
  {
    hide RecordedSlots, AllAssemble, Flat, FlatPlaced, Before, TargetOf, HasSlot, EncodeAll, Rewritten, ResolveIn, Position,
      PatchedAll, Followed;
    var p := FlatPlaced(bs, 0);
    var slots, whole := RecordedSlots(p, true), Followed(p);
    var offsets := seq(|slots|, _ => 0);
    AbsoluteInPlace(bs, Firsts(jumps));
    RecordedAreSlots(p, true);
    FlatLengths(bs, 0);
    assert Lists(p, |tail|, slots, offsets, jumps);
    ListedPatchable(p, tail, slots, offsets, jumps);
    if AbsoluteReached(bs, |tail|) {
      ReachedHead(bs, |tail|, slots);
      PatchesCode(whole, p, tail, slots, offsets, jumps, count, |slots|);
      RewrittenIsResolved(whole, p, true, 0);
      var values := Addresses(whole, p, slots, offsets);
      assert slots[..|slots|] == slots && values[..|slots|] == values && jumps[..|slots|] == jumps;
    }
    if AbsoluteLost(bs, |tail|) {
      var s :| s in RecordedSlots(Flat(bs), true) && HasSlot(Flat(bs), s) && TargetOf(Flat(bs), s) >= |Flat(bs)| + |tail|;
      var k :| 0 <= k < |slots| && slots[k] == s;
      PatchingFails(p, tail, slots, offsets, jumps, count, k);
    }
  }

  lemma ReachedHead(bs: Bodies, behind: nat, slots: seq<Slot>)
    requires AllAssemble(bs) && AbsoluteReached(bs, behind)
    requires var p := FlatPlaced(bs, 0);
             && |p| == |Flat(bs)| && slots == RecordedSlots(Flat(bs), true)
             && forall j | 0 <= j < |slots| ::
                  HasSlot(Flat(bs), slots[j]) && HasSlot(p, slots[j]) && TargetOf(p, slots[j]) == TargetOf(Flat(bs), slots[j])
    ensures var p := FlatPlaced(bs, 0);
            && (forall s <- slots :: HasSlot(p, s)) && HeadOf(p, Followed(p), slots)
            && forall s <- slots :: Reaches(p, behind, TargetOf(p, s))
  {
    hide RecordedSlots, AllAssemble, Flat, FlatPlaced, TargetOf, HasSlot, EncodeAll;
    var p := FlatPlaced(bs, 0);
    forall s | s in slots
      ensures HasSlot(p, s) && Reaches(p, behind, TargetOf(p, s))
      ensures Start(Followed(p), TargetOf(p, s)) == Start(p, TargetOf(p, s))
    {
      var j :| 0 <= j < |slots| && slots[j] == s;
      assert slots[j] in RecordedSlots(Flat(bs), true);
      assert Followed(p)[..TargetOf(p, s)] == p[..TargetOf(p, s)];
    }
  }

  // The absolute jumps of a finished image (the `calculator` of generate): the local code lies at
  // its head, and what lies behind it has not been written yet.
  method CalculateAbsoluteJumps(image: array<Byte>, jumpPositions: seq<(nat, nat)>, used: nat, ghost bs: Bodies,
                                ghost jumpTable: seq<nat>)
    returns (ok: bool)
    requires Generated(bs, used, jumpTable, jumpPositions)
    requires used <= image.Length < 0x1_0000 && image[..used] == EncodeAll(FlatPlaced(bs, 0))
    modifies image
    ensures AbsoluteReached(bs, image.Length - used) ==> ok && image[..used] == EncodeAll(LocalCode(bs))
    ensures AbsoluteReached(bs, image.Length - used) ==> image[used..] == old(image[used..])
    ensures AbsoluteLost(bs, image.Length - used) ==> !ok
  {
    hide RecordedSlots, Flat, FlatPlaced, Before, EncodeAll, AbsoluteReached, AbsoluteLost, LocalCode, PatchedAll, AllAssemble,
      StaleCount;
    ghost var tail := image[used..];
    assert image[..] == image[..used] + tail;
    AbsoluteJumps(bs, tail, jumpPositions, jumpTable, StaleCount(image[..], 0));
    var calculator := new Program(image.Length);
    calculator.Fill(image);
    ok := calculator.CalculateJumps(jumpPositions);
    if AbsoluteReached(bs, |tail|) {
      LocalLength(bs);
      assert image[..] == EncodeAll(LocalCode(bs)) + tail;
      assert image[..used] == EncodeAll(LocalCode(bs));
    }
  }

  lemma LocalLength(bs: Bodies)
    requires AllAssemble(bs)
    ensures |EncodeAll(LocalCode(bs))| == |EncodeAll(FlatPlaced(bs, 0))| == Before(bs, |bs|)
    ensures |LocalCode(bs)| == |FlatPlaced(bs, 0)| == |Flat(bs)|
  {
    hide AllAssemble, Flat, FlatPlaced, EncodeAll, Before, ByteAddress, Encode, Followed;
    FlatLengths(bs, 0);
    ResolveLength(FlatPlaced(bs, 0), LocalCode(bs));
  }

  // ----- local code and library together -----

  // The absolute target of slot s of code has the same address in both.
  predicate SameAddress(code: Code, s: Slot, whole: Code, other: Code) {
    HasSlot(code, s) && KindOf(code, s) == Absolute ==>
      ByteAddress(whole, TargetOf(code, s), 0) == ByteAddress(other, TargetOf(code, s), 0)
  }

  ghost predicate AllSame(code: Code, whole: Code, other: Code) {
    forall s :: SameAddress(code, s, whole, other)
  }

  lemma ResolvedAlike(code: Code, whole: Code, other: Code)
    ensures ResolveIn(whole, code, Absolute, 0) == ResolveIn(other, code, Absolute, 0) <==> AllSame(code, whole, other)
  {
    hide ByteAddress;
    var p, q := ResolveIn(whole, code, Absolute, 0), ResolveIn(other, code, Absolute, 0);
    if p == q {
      forall s | HasSlot(code, s) && KindOf(code, s) == Absolute
        ensures SameAddress(code, s, whole, other)
      {
        assert p[s.at] == q[s.at];
      }
    }
    if AllSame(code, whole, other) {
      forall k | 0 <= k < |code|
        ensures p[k] == q[k]
      {
        assert SameAddress(code, Slot(k, false), whole, other) && SameAddress(code, Slot(k, true), whole, other);
      }
    }
  }

  lemma ResolvedConcat(whole: Code, a: Code, b: Code)
    ensures ResolveIn(whole, a + b, Absolute, 0) == ResolveIn(whole, a, Absolute, 0) + ResolveIn(whole, b, Absolute, 0)
  {
    hide ResolveInstr;
  }

  // Addresses do not depend on targets.
  lemma ResolvedAddress(code: Code, other: Code, t: Int32)
    requires |code| == |other| && forall k | 0 <= k < |code| :: SameButTargets(code[k], other[k])
    ensures ByteAddress(other, t, 0) == ByteAddress(code, t, 0)
  {
    hide Start, SameButTargets;
    forall j | 0 <= j < |code|
      ensures |Encode(code[j])| == |Encode(other[j])|
    {
      SameLength(code[j], other[j]);
    }
    if 0 <= t < |code| {
      SameStarts(code, other, t);
    }
  }

  // Every absolute target of the library is at the same byte counted in the library and in the whole
  // program.
  predicate SameAddresses(local: Bodies, bs: Bodies)
    requires AllAssemble(local) && AllAssemble(bs)
  {
    forall s <- RecordedSlots(Flat(bs), true) :: SameAddress(Flat(bs), s, Flat(bs), Flat(local) + Flat(bs))
  }

  lemma AbsoluteIsRecorded(bs: Bodies, s: Slot)
    requires AllAssemble(bs) && HasSlot(Flat(bs), s)
    ensures s in RecordedSlots(Flat(bs), true) <==> KindOf(Flat(bs), s) == Absolute
  {
    hide RecordedSlots, AllAssemble, Flat;
    FlatAgrees(bs);
    FilingOfSlot(Flat(bs), s);
    AgreeAt(Flat(bs), s);
  }

  // The absolute targets of elements do not depend on where they are placed.
  lemma AbsoluteAnywhere(bs: Bodies, base: nat, s: Slot)
    requires AllAssemble(bs) && base + Before(bs, |bs|) < 0x8000_0000
    ensures HasSlot(FlatPlaced(bs, base), s) <==> HasSlot(Flat(bs), s)
    ensures HasSlot(Flat(bs), s) ==> (KindOf(FlatPlaced(bs, base), s) == Absolute <==> KindOf(Flat(bs), s) == Absolute)
    ensures HasSlot(Flat(bs), s) && KindOf(Flat(bs), s) == Absolute ==>
              TargetOf(FlatPlaced(bs, base), s) == TargetOf(Flat(bs), s)
  {
    hide RecordedSlots, AllAssemble, Flat, FlatPlaced, Before, KindOf, TargetOf, HasSlot;
    FlatSame(bs, base);
    SlotsSame(Flat(bs), FlatPlaced(bs, base));
    if HasSlot(Flat(bs), s) {
      PlacedAbsolute(bs, base);
      FlatAgrees(bs);
      FilingOfSlot(Flat(bs), s);
      FilingOfSlot(FlatPlaced(bs, base), s);
      AgreeAt(Flat(bs), s);
      AgreeAt(FlatPlaced(bs, base), s);
      SectionTwice(bs, base, s);
      AbsoluteKept(bs, s);
    }
  }

  lemma AgreeAt(code: Code, s: Slot)
    requires AllKindsAgree(code) && HasSlot(code, s)
    ensures KindsAgree(code[s.at])
  {
    hide KindsAgree;
  }

  // Within the local code and right behind it addresses do not depend on what follows.
  lemma AddressesInFront(local: Bodies, behind: Code)
    requires AllAssemble(local) && AbsoluteReached(local, |behind|) && Before(local, |local|) < 0x8000_0000
    ensures var a := FlatPlaced(local, 0); AllSame(a, Followed(a), a + behind)
  {
    hide RecordedSlots, AllAssemble, Flat, FlatPlaced, Before, KindOf, TargetOf, HasSlot, EncodeAll, ByteAddress;
    var a := FlatPlaced(local, 0);
    FlatLengths(local, 0);
    forall s | HasSlot(a, s) && KindOf(a, s) == Absolute
      ensures SameAddress(a, s, Followed(a), a + behind)
    {
      AbsoluteAnywhere(local, 0, s);
      AbsoluteIsRecorded(local, s);
      assert Reaches(Flat(local), |behind|, TargetOf(Flat(local), s));
      InFront(a, behind, TargetOf(a, s));
    }
  }

  lemma InFront(a: Code, behind: Code, t: Int32)
    requires Reaches(a, |behind|, t)
    ensures ByteAddress(Followed(a), t, 0) == ByteAddress(a + behind, t, 0)
  {
    assert Followed(a)[..t] == a[..t] == (a + behind)[..t];
  }

  lemma AddressesBehind(local: Bodies, bs: Bodies, used: nat)
    requires AllAssemble(local) && AllAssemble(bs) && used == Before(local, |local|)
    requires used + Before(bs, |bs|) < 0x8000_0000
    ensures var a, b := FlatPlaced(local, 0), FlatPlaced(bs, used);
            AllSame(b, FlatPlaced(bs, 0), a + b) <==> SameAddresses(local, bs)
  {
    hide RecordedSlots, AllAssemble, Flat, FlatPlaced, Before, KindOf, TargetOf, HasSlot, EncodeAll, ByteAddress, SameButTargets;
    var a, b := FlatPlaced(local, 0), FlatPlaced(bs, used);
    FlatSame(local, 0);
    FlatSame(bs, used);
    FlatSame(bs, 0);
    ConcatSame(Flat(local), a, Flat(bs), b);
    forall s
      ensures SameAddress(b, s, FlatPlaced(bs, 0), a + b) <==> SameAddress(Flat(bs), s, Flat(bs), Flat(local) + Flat(bs))
      ensures SameAddress(Flat(bs), s, Flat(bs), Flat(local) + Flat(bs)) || s in RecordedSlots(Flat(bs), true)
    {
      AbsoluteAnywhere(bs, used, s);
      if HasSlot(Flat(bs), s) {
        AbsoluteIsRecorded(bs, s);
      }
      if HasSlot(Flat(bs), s) && KindOf(Flat(bs), s) == Absolute {
        ResolvedAddress(Flat(bs), FlatPlaced(bs, 0), TargetOf(Flat(bs), s));
        ResolvedAddress(Flat(local) + Flat(bs), a + b, TargetOf(Flat(bs), s));
      }
    }
  }

  lemma ExecutableParts(local: Bodies, bs: Bodies)
    requires AllAssemble(local) && AllAssemble(bs)
    ensures AllAssemble(local + bs)
    ensures var a, b := FlatPlaced(local, 0), FlatPlaced(bs, Before(local, |local|));
            Executable(local + bs) == ResolveIn(a + b, a, Absolute, 0) + ResolveIn(a + b, b, Absolute, 0)
  {
    hide AllAssemble, Flat, FlatPlaced, ResolveIn, Before;
    FlatConcat(local, bs, 0);
    var a, b := FlatPlaced(local, 0), FlatPlaced(bs, Before(local, |local|));
    ResolvedConcat(a + b, a, b);
  }

  // Local code with its absolute targets resolved before the library is there, followed by the moved
  // library, is the executable code of both together exactly when the absolute targets of the library
  // have the same addresses in both.
  lemma LinkedExecutable(local: Bodies, bs: Bodies)
    requires AllAssemble(local) && AllAssemble(bs) && AbsoluteReached(local, |Flat(bs)|)
    requires Before(local, |local|) + Before(bs, |bs|) < 0x8000_0000
    ensures AllAssemble(local + bs)
    ensures Executable(local + bs) == LocalCode(local) + LibraryCode(bs, Before(local, |local|)) <==> SameAddresses(local, bs)
  {
    hide AllAssemble, Flat, FlatPlaced, ResolveIn, Before, AbsoluteReached, SameAddresses, Followed, AllSame, EncodeAll,
      Executable;
    var used := Before(local, |local|);
    var a, b := FlatPlaced(local, 0), FlatPlaced(bs, used);
    ExecutableParts(local, bs);
    FlatLengths(bs, used);
    AddressesInFront(local, b);
    ResolvedAlike(a, Followed(a), a + b);
    AddressesBehind(local, bs, used);
    ResolvedAlike(b, FlatPlaced(bs, 0), a + b);
    SameTail(LocalCode(local), ResolveIn(a + b, b, Absolute, 0), LibraryCode(bs, used));
  }

  lemma SameTail(a: Code, b: Code, c: Code)
    ensures a + b == a + c <==> b == c
  {
    if a + b == a + c {
      assert b == (a + b)[|a|..] && c == (a + c)[|a|..];
    }
  }

  // Then all absolute targets are inside both together.
  lemma LinkedInside(local: Bodies, bs: Bodies)
    requires AllAssemble(local) && AllAssemble(bs) && AbsoluteInside(bs)
    requires AbsoluteReached(local, |Flat(bs)|)
    ensures AllAssemble(local + bs) && AbsoluteInside(local + bs)
  {
    hide AllAssemble, Flat, FlatPlaced, RecordedSlots, Before, HasSlot, TargetOf;
    FlatConcat(local, bs, 0);
    var a, b := Flat(local), Flat(bs);
    RecordedConcat(a, b, true);
    RecordedAreSlots(a, true);
    RecordedAreSlots(b, true);
    forall s | s in RecordedSlots(a + b, true) && HasSlot(a + b, s)
      ensures TargetOf(a + b, s) < |a + b|
    {
      if s in RecordedSlots(a, true) {
        InsideLeft(a, s);
        TargetLeft(a, b, s);
      } else {
        var t :| t in RecordedSlots(b, true) && s == Slot(t.at + |a|, t.second);
        TargetRight(a, b, s);
      }
    }
  }

  lemma InsideLeft(a: Code, s: Slot)
    requires HasSlot(a, s)
    ensures s.at < |a|
  {
  }

  // The function table entries of a library copied to byte offset.
  function LinkedEntries(functions: seq<(Name, nat)>, offset: nat): (e: seq<(Name, nat)>)
    ensures |e| == |functions|
    ensures forall k | 0 <= k < |e| :: e[k] == (functions[k].0, functions[k].1 + offset)
  {
    seq(|functions|, k requires 0 <= k < |functions| => (functions[k].0, functions[k].1 + offset))
  }

  method WriteLinked(ghost local: seq<(Name, nat)>, functions: seq<(Name, nat)>, offset: nat, written: seq<Byte>)
    returns (out: seq<Byte>)
    requires written == Table(local)
    ensures out == Table(local + LinkedEntries(functions, offset))
  {
    hide Entry, Table;
    ghost var all := local + LinkedEntries(functions, offset);
    out := written;
    assert all[..|local|] == local;
    for i := 0 to |functions|
      invariant out == Table(all[..|local| + i])
    {
      out := out + Entry(functions[i].0, functions[i].1 + offset);
      assert all[|local| + i] == (functions[i].0, functions[i].1 + offset);
      TableSnoc(all, |local| + i);
    }
    assert all[..|all|] == all;
  }

  lemma NothingGenerated()
    ensures Generated([], 0, [], []) && AllAssemble([]) && Before([], 0) == 0
    ensures FlatPlaced([], 0) == [] && EncodeAll([]) == []
  {
  }
}
