// The simple store that registers and references refine: registers name locations, and locations
// have contents.
module Locations {
  import opened Bytes
  import opened References
  import opened Losses
  import opened Registers

  datatype Names<V> = Names(location: map<Holder, nat>, content: map<nat, Content<V>>, next: nat)

  // What happens to registers, whatever instruction does it.
  datatype Op<V> =
    | Write(x: Holder, v: Content<V>)   // place, copy and isnull
    | Point(x: Holder, y: Holder)       // ref
    | Forget(x: Holder)                 // free and empty
    | Exchange(x: Holder, y: Holder)    // swap
    | Box(y: Holder)                    // a ref that fails behind its source
    | Nothing                           // any other operation that fails

  function Moved(location: map<Holder, nat>, x: Holder, from: map<Holder, nat>, y: Holder): map<Holder, nat> {
    if y in from then location[x := from[y]] else location - {x}
  }

  function Apply<V>(n: Names<V>, op: Op<V>): Names<V> {
    match op
    case Write(x, v) =>
      if x in n.location then n.(content := n.content[n.location[x] := v])
      else n.(location := n.location[x := n.next], content := n.content[n.next := v], next := n.next + 1)
    case Point(x, y) =>
      if y in n.location then n.(location := n.location[x := n.location[y]])
      else n.(location := n.location[x := n.next][y := n.next], next := n.next + 1)
    case Forget(x) => n.(location := n.location - {x})
    case Exchange(x, y) => n.(location := Moved(Moved(n.location, x, n.location, y), y, n.location, x))
    case Box(y) => if y in n.location then n else n.(location := n.location[y := n.next], next := n.next + 1)
    case Nothing => n
  }

  function ApplyAll<V>(n: Names<V>, ops: seq<Op<V>>): Names<V> {
    if ops == [] then n else Apply(ApplyAll(n, ops[..|ops| - 1]), ops[|ops| - 1])
  }

  function ContentOf<V>(n: Names<V>, x: Holder): Option<Content<V>>
    requires x in n.location
  {
    if n.location[x] in n.content then Some(n.content[n.location[x]]) else None
  }

  // A register is used in the store exactly when it is in memory, with the same content.
  ghost predicate SameUse<V>(n: Names<V>, h: Heap<V>, x: Holder) {
    && (x in n.location <==> LocationOf(h, x).Some?)
    && (x in n.location ==> ContentOf(n, x) == ContentAt(h, x) && n.location[x] < n.next)
  }

  // Two registers share a location in the store exactly when they do in memory.
  ghost predicate SameSharing<V>(n: Names<V>, h: Heap<V>, x: Holder, y: Holder) {
    x in n.location && y in n.location ==> (n.location[x] == n.location[y] <==> LocationOf(h, x) == LocationOf(h, y))
  }

  ghost predicate Models<V>(n: Names<V>, h: Heap<V>) {
    && (forall x <- n.location :: x.Slot?)
    && (forall l <- n.content :: l < n.next)
    && (forall s, i :: SameUse(n, h, Slot(s, i)))
    && (forall s, i, t, j :: SameSharing(n, h, Slot(s, i), Slot(t, j)))
  }

  // What the register operations promise.
  ghost predicate Does<V>(op: Op<V>, h: Heap<V>, r: Heap<V>) {
    match op
    case Write(x, v) => x.Slot? && Wrote(h, r, x, v)
    case Point(x, y) => x.Slot? && y.Slot? && x != y && Joined(h, r, x, y)
    case Forget(x) => x.Slot? && Cleared(h, r, x)
    case Exchange(x, y) => x.Slot? && y.Slot? && Exchanged(h, r, x, y)
    case Box(y) => y.Slot? && Boxed(h, r, y)
    case Nothing => SameAll(h, r)
  }

  // What Models says about three registers.
  ghost predicate Known<V>(n: Names<V>, h: Heap<V>, x: Holder, y: Holder, z: Holder) {
    && SameUse(n, h, x) && SameUse(n, h, y) && SameUse(n, h, z)
    && SameSharing(n, h, x, y) && SameSharing(n, h, x, z) && SameSharing(n, h, y, z)
    && (forall l <- n.content :: l < n.next)
  }

  lemma ModelsKnown<V>(n: Names<V>, h: Heap<V>, x: Holder, y: Holder, z: Holder)
    requires Models(n, h) && x.Slot? && y.Slot? && z.Slot?
    ensures Known(n, h, x, y, z)
  {
    assert x == Slot(x.set_, x.index) && y == Slot(y.set_, y.index) && z == Slot(z.set_, z.index);
    assert SameUse(n, h, x) && SameUse(n, h, y) && SameUse(n, h, z);
    assert SameSharing(n, h, Slot(x.set_, x.index), Slot(y.set_, y.index));
    assert SameSharing(n, h, Slot(x.set_, x.index), Slot(z.set_, z.index));
    assert SameSharing(n, h, Slot(y.set_, y.index), Slot(z.set_, z.index));
  }

  // ----- writing -----

  lemma WroteAt<V>(h: Heap<V>, r: Heap<V>, x: Holder, v: Content<V>, y: Holder)
    requires Valid(h) && Wrote(h, r, x, v) && x.Slot? && y.Slot?
    ensures LocationOf(r, x).Some? && (y != x ==> LocationOf(r, y) == LocationOf(h, y))
    ensures y != x && LocationOf(h, y).Some? ==> (LocationOf(r, y) == LocationOf(r, x) <==> Alias(h, y, x))
    ensures ContentAt(r, y) == if y == x || Alias(h, y, x) then Some(v) else ContentAt(h, y)
  {
    assert y == Slot(y.set_, y.index);
    if y != x && !(LocationOf(h, x).Some? && LocationOf(h, x).value.Shared?) {
      OwnIsOwn(h, y, x);
    }
  }

  lemma WritePair<V>(n: Names<V>, h: Heap<V>, r: Heap<V>, x: Holder, v: Content<V>, y: Holder, z: Holder)
    requires Valid(h) && Wrote(h, r, x, v) && Known(n, h, x, y, z) && x.Slot? && y.Slot? && z.Slot?
    ensures SameUse(Apply(n, Write(x, v)), r, y) && SameSharing(Apply(n, Write(x, v)), r, y, z)
  {
    WroteAt(h, r, x, v, y);
    WroteAt(h, r, x, v, z);
    hide Valid, Wrote, LocationOf, ContentAt;
  }

  // ----- pointing -----

  lemma JoinedAt<V>(h: Heap<V>, r: Heap<V>, x: Holder, y: Holder, z: Holder)
    requires Valid(h) && Joined(h, r, x, y) && x.Slot? && y.Slot? && z.Slot?
    ensures LocationOf(r, x).Some? && LocationOf(r, x) == LocationOf(r, y)
    ensures ContentAt(r, x) == ContentAt(h, y) && ContentAt(r, y) == ContentAt(h, y)
    ensures LocationOf(h, y).None? ==> ContentAt(h, y) == None
    ensures z != x && z != y ==> LocationOf(r, z) == LocationOf(h, z) && ContentAt(r, z) == ContentAt(h, z)
    ensures z != x && z != y && LocationOf(h, z).Some? ==> (LocationOf(r, z) == LocationOf(r, y) <==> Alias(h, z, y))
  {
    assert z == Slot(z.set_, z.index);
    if z != x && z != y {
      assert SameAt(h, r, Slot(z.set_, z.index));
      if !(LocationOf(h, y).Some? && LocationOf(h, y).value.Shared?) {
        OwnIsOwn(h, z, y);
      }
    }
  }

  lemma PointPair<V>(n: Names<V>, h: Heap<V>, r: Heap<V>, x: Holder, y: Holder, z: Holder, w: Holder)
    requires Valid(h) && Joined(h, r, x, y) && x != y && Known(n, h, y, z, w)
    requires x.Slot? && y.Slot? && z.Slot? && w.Slot?
    ensures SameUse(Apply(n, Point(x, y)), r, z) && SameSharing(Apply(n, Point(x, y)), r, z, w)
  {
    hide Valid, Joined, LocationOf, ContentAt, SameSharing;
    JoinedAt(h, r, x, y, z);
    PointShared(n, h, r, x, y, z, w);
  }

  lemma PointShared<V>(n: Names<V>, h: Heap<V>, r: Heap<V>, x: Holder, y: Holder, z: Holder, w: Holder)
    requires Valid(h) && Joined(h, r, x, y) && x != y && Known(n, h, y, z, w)
    requires x.Slot? && y.Slot? && z.Slot? && w.Slot?
    ensures SameSharing(Apply(n, Point(x, y)), r, z, w)
  {
    hide Valid, Joined, LocationOf, ContentAt, ContentOf;
    JoinedAt(h, r, x, y, z);
    JoinedAt(h, r, x, y, w);
  }

  // ----- forgetting and exchanging -----

  lemma ForgetPair<V>(n: Names<V>, h: Heap<V>, r: Heap<V>, x: Holder, y: Holder, z: Holder)
    requires Cleared(h, r, x) && Known(n, h, x, y, z) && x.Slot? && y.Slot? && z.Slot?
    ensures SameUse(Apply(n, Forget(x)), r, y) && SameSharing(Apply(n, Forget(x)), r, y, z)
  {
    assert y == Slot(y.set_, y.index) && z == Slot(z.set_, z.index);
    assert y != x ==> SameAt(h, r, Slot(y.set_, y.index));
    assert z != x ==> SameAt(h, r, Slot(z.set_, z.index));
    hide Cleared, LocationOf, ContentAt;
  }

  lemma ExchangedAt<V>(h: Heap<V>, r: Heap<V>, x: Holder, y: Holder, z: Holder)
    requires Exchanged(h, r, x, y) && z.Slot?
    ensures var o := if z == x then y else if z == y then x else z;
            LocationOf(r, z) == LocationOf(h, o) && ContentAt(r, z) == ContentAt(h, o)
  {
    assert z == Slot(z.set_, z.index);
    assert z != x && z != y ==> SameAt(h, r, Slot(z.set_, z.index));
  }

  lemma ExchangePair<V>(n: Names<V>, h: Heap<V>, r: Heap<V>, x: Holder, y: Holder, z: Holder, w: Holder)
    requires Exchanged(h, r, x, y) && Known(n, h, x, y, z) && Known(n, h, x, y, w) && SameSharing(n, h, z, w) && SameSharing(n, h, y, x)
    requires SameSharing(n, h, z, x) && SameSharing(n, h, z, y)
    requires x.Slot? && y.Slot? && z.Slot? && w.Slot?
    ensures SameUse(Apply(n, Exchange(x, y)), r, z) && SameSharing(Apply(n, Exchange(x, y)), r, z, w)
  {
    ExchangedAt(h, r, x, y, z);
    ExchangedAt(h, r, x, y, w);
    hide Exchanged, LocationOf, ContentAt;
  }

  // ----- failing -----

  lemma BoxedAt<V>(h: Heap<V>, r: Heap<V>, y: Holder, z: Holder)
    requires Valid(h) && Boxed(h, r, y) && y.Slot? && z.Slot?
    ensures LocationOf(r, y).Some? && ContentAt(r, z) == ContentAt(h, z)
    ensures LocationOf(h, y).None? ==> ContentAt(h, y) == None
    ensures z != y ==> LocationOf(r, z) == LocationOf(h, z)
    ensures z != y && LocationOf(h, z).Some? ==> (LocationOf(r, z) == LocationOf(r, y) <==> Alias(h, z, y))
  {
    assert z == Slot(z.set_, z.index);
    if z != y && !(LocationOf(h, y).Some? && LocationOf(h, y).value.Shared?) {
      OwnIsOwn(h, z, y);
    }
  }

  lemma BoxPair<V>(n: Names<V>, h: Heap<V>, r: Heap<V>, y: Holder, z: Holder, w: Holder)
    requires Valid(h) && Boxed(h, r, y) && Known(n, h, y, z, w) && y.Slot? && z.Slot? && w.Slot?
    ensures SameUse(Apply(n, Box(y)), r, z) && SameSharing(Apply(n, Box(y)), r, z, w)
  {
    BoxedAt(h, r, y, z);
    BoxedAt(h, r, y, w);
    hide Valid, Boxed, LocationOf, ContentAt;
  }

  lemma SamePair<V>(n: Names<V>, h: Heap<V>, r: Heap<V>, z: Holder, w: Holder)
    requires SameAll(h, r) && Known(n, h, z, w, w) && z.Slot? && w.Slot?
    ensures SameUse(n, r, z) && SameSharing(n, r, z, w)
  {
    assert SameAt(h, r, Slot(z.set_, z.index)) && SameAt(h, r, Slot(w.set_, w.index));
    hide SameAll, LocationOf, ContentAt;
  }

  // What Apply does to one register, by what is known of the pair.
  lemma StepPair<V>(n: Names<V>, h: Heap<V>, r: Heap<V>, op: Op<V>, z: Holder, w: Holder)
    requires Valid(h) && Models(n, h) && Does(op, h, r) && z.Slot? && w.Slot?
    ensures SameUse(Apply(n, op), r, z) && SameSharing(Apply(n, op), r, z, w)
  {
    hide Valid, Models, SameUse, SameSharing, Apply, Wrote, Joined, Cleared, Exchanged, Boxed, SameAll;
    match op {
      case Write(x, v) =>
        ModelsKnown(n, h, x, z, w);
        WritePair(n, h, r, x, v, z, w);
      case Point(x, y) =>
        ModelsKnown(n, h, y, z, w);
        PointPair(n, h, r, x, y, z, w);
      case Forget(x) =>
        ModelsKnown(n, h, x, z, w);
        ForgetPair(n, h, r, x, z, w);
      case Exchange(x, y) =>
        ModelsKnown(n, h, x, y, z);
        ModelsKnown(n, h, x, y, w);
        ModelsKnown(n, h, z, w, x);
        ModelsKnown(n, h, y, x, x);
        ModelsKnown(n, h, z, y, y);
        ExchangePair(n, h, r, x, y, z, w);
      case Box(y) =>
        ModelsKnown(n, h, y, z, w);
        BoxPair(n, h, r, y, z, w);
      case Nothing =>
        ModelsKnown(n, h, z, w, w);
        SamePair(n, h, r, z, w);
        ApplyNothing(n);
    }
  }

  lemma ApplyNothing<V>(n: Names<V>)
    ensures Apply(n, Nothing) == n
  {
  }

  lemma ApplyShape<V>(n: Names<V>, h: Heap<V>, op: Op<V>)
    requires Models(n, h)
    requires match op case Write(x, _) => x.Slot? case Forget(x) => x.Slot? case Point(x, y) => x.Slot? && y.Slot?
                      case Exchange(x, y) => x.Slot? && y.Slot? case Box(y) => y.Slot? case Nothing => true
    ensures forall x <- Apply(n, op).location :: x.Slot?
    ensures forall l <- Apply(n, op).content :: l < Apply(n, op).next
  {
    hide LocationOf, ContentAt;
    forall x | x in n.location
      ensures n.location[x] < n.next
    {
      assert SameUse(n, h, Slot(x.set_, x.index));
    }
  }

  // Each register operation does to the registers what the operation on locations says.
  lemma StepRefines<V>(n: Names<V>, h: Heap<V>, r: Heap<V>, op: Op<V>)
    requires Valid(h) && Models(n, h) && Does(op, h, r)
    ensures Models(Apply(n, op), r)
  {
    ApplyShape(n, h, op);
    hide Valid, SameUse, SameSharing, Apply, Does;
    forall s, i
      ensures SameUse(Apply(n, op), r, Slot(s, i))
    {
      StepPair(n, h, r, op, Slot(s, i), Slot(s, i));
    }
    forall s, i, t, j
      ensures SameSharing(Apply(n, op), r, Slot(s, i), Slot(t, j))
    {
      StepPair(n, h, r, op, Slot(s, i), Slot(t, j));
    }
  }

  // Memory after memory, each reached from the one before by the operation between them.
  ghost predicate Trace<V>(hs: seq<Heap<V>>, ops: seq<Op<V>>) {
    && |hs| == |ops| + 1
    && (forall k | 0 <= k < |hs| :: Valid(hs[k]))
    && forall k | 0 <= k < |ops| :: Does(ops[k], hs[k], hs[k + 1])
  }

  // Every run of register operations refines the run of the simple store.
  lemma {:induction false} RunRefines<V>(n: Names<V>, hs: seq<Heap<V>>, ops: seq<Op<V>>)
    requires Trace(hs, ops) && Models(n, hs[0])
    ensures Models(ApplyAll(n, ops), hs[|ops|])
  {
    hide Valid, Models, Does;
    if ops != [] {
      var k := |ops| - 1;
      RunRefines(n, hs[..|hs| - 1], ops[..k]);
      StepRefines(ApplyAll(n, ops[..k]), hs[k], hs[k + 1], ops[k]);
    }
  }

  // Memory with nothing in its registers is the empty store.
  lemma NothingNamed<V>(h: Heap<V>)
    requires forall s, i :: Holds(h, Slot(s, i)).None?
    ensures Models(Names(map[], map[], 0), h)
  {
  }

  // ----- instructions -----

  datatype Act<V> =
    | Copying(set_: nat, to: nat, from: nat)
    | Referring(set_: nat, to: nat, from: nat)
    | Swapping(set_: nat, i: nat, j: nat)
    | Freeing(set_: nat, i: nat)
    | Emptying(set_: nat, i: nat)
    | Checking(set_: nat, to: nat, from: nat, yes: V, no: V)

  // The sizes of the register sets.
  type Shape = map<nat, nat>

  predicate Fits(shape: Shape, s: nat, i: nat) {
    s in shape && i < shape[s]
  }

  ghost function ShapeOf<V>(h: Heap<V>): Shape {
    map s | s in h.sets :: |h.sets[s]|
  }

  // What an instruction means to the simple store.
  function Meaning<V>(n: Names<V>, shape: Shape, act: Act<V>): Op<V> {
    match act
    case Copying(s, to, from) =>
      if Fits(shape, s, to) && Slot(s, from) in n.location && ContentOf(n, Slot(s, from)).Some?
      then Write(Slot(s, to), ContentOf(n, Slot(s, from)).value)
      else Nothing
    case Referring(s, to, from) =>
      if !Fits(shape, s, from) then Nothing
      else if !Fits(shape, s, to) then Box(Slot(s, from))
      else Point(Slot(s, to), Slot(s, from))
    case Swapping(s, i, j) => if Fits(shape, s, i) && Fits(shape, s, j) then Exchange(Slot(s, i), Slot(s, j)) else Nothing
    case Freeing(s, i) => if Slot(s, i) in n.location then Forget(Slot(s, i)) else Nothing
    case Emptying(s, i) => if Slot(s, i) in n.location then Forget(Slot(s, i)) else Nothing
    case Checking(s, to, from, yes, no) =>
      if Fits(shape, s, from) && Fits(shape, s, to)
      then Write(Slot(s, to), Value(if Slot(s, from) in n.location then no else yes))
      else Nothing
  }

  function Run<V>(n: Names<V>, shape: Shape, acts: seq<Act<V>>): Names<V> {
    if acts == [] then n
    else
      var m := Run(n, shape, acts[..|acts| - 1]);
      Apply(m, Meaning(m, shape, acts[|acts| - 1]))
  }

  // A ref onto itself or onto a register that holds a reference makes a reference to a reference.
  predicate Nests<V>(h: Heap<V>, act: Act<V>) {
    && act.Referring? && InSet(h, act.set_, act.to) && InSet(h, act.set_, act.from)
    && (act.to == act.from || (LocationOf(h, Slot(act.set_, act.to)).Some? && LocationOf(h, Slot(act.set_, act.to)).value.Shared?))
  }

  // A copy of what a reference without an object points to.
  predicate Crashes<V>(h: Heap<V>, act: Act<V>) {
    && act.Copying? && LocationOf(h, Slot(act.set_, act.from)).Some? && ContentAt(h, Slot(act.set_, act.from)).None?
  }

  lemma FitsIsIn<V>(h: Heap<V>, s: nat, i: nat)
    ensures Fits(ShapeOf(h), s, i) <==> InSet(h, s, i)
    ensures LocationOf(h, Slot(s, i)).Some? <==> InSet(h, s, i) && h.sets[s][i].Some?
  {
  }

  lemma SameShapeOf<V>(h: Heap<V>, r: Heap<V>)
    requires SameShape(h, r)
    ensures ShapeOf(r) == ShapeOf(h)
  {
  }

  lemma NamedIsUsed<V>(n: Names<V>, h: Heap<V>, s: nat, i: nat)
    requires Models(n, h)
    ensures Slot(s, i) in n.location <==> LocationOf(h, Slot(s, i)).Some?
    ensures Slot(s, i) in n.location ==> ContentOf(n, Slot(s, i)) == ContentAt(h, Slot(s, i))
    ensures LocationOf(h, Slot(s, i)).None? ==> ContentAt(h, Slot(s, i)).None?
  {
    hide Holds;
    assert SameUse(n, h, Slot(s, i));
  }

  // What the instruction does to memory is what its meaning does to the store.
  ghost predicate Did<V>(n: Names<V>, act: Act<V>, h: Heap<V>, r: Heap<V>) {
    Does(Meaning(n, ShapeOf(h), act), h, r)
  }

  // One instruction; it fails exactly when it means nothing more than a failure to the store.
  method Perform<V(==)>(memory: Memory<V>, act: Act<V>, ghost n: Names<V>) returns (r: Outcome)
    requires Valid(memory.State()) && memory.hand == [] && Flat(memory.State()) && Models(n, memory.State())
    requires !Nests(memory.State(), act) && !Crashes(memory.State(), act)
    modifies memory
    ensures Valid(memory.State()) && memory.hand == [] && Flat(memory.State()) && SameShape(old(memory.State()), memory.State())
    ensures Did(n, act, old(memory.State()), memory.State())
    ensures r == var op := Meaning(n, ShapeOf(old(memory.State())), act); if op.Nothing? || op.Box? then Raised else Completed
    ensures r.Completed? && !act.Emptying? ==> Keeps(old(memory.State()), memory.State())
  {
    hide Valid, Models, Flat, Wrote, Joined, Cleared, Exchanged, Boxed, SameAll, ContentAt, LocationOf, Holds, Keeps, KeepsOld, Lost;
    ghost var h := memory.State();
    SameAllNow(h);
    match act {
      case Copying(s, to, from) =>
        FitsIsIn(h, s, to);
        FitsIsIn(h, s, from);
        NamedIsUsed(n, h, s, from);
        r := memory.Copy(s, to, from);
      case Referring(s, to, from) =>
        FitsIsIn(h, s, to);
        FitsIsIn(h, s, from);
        r := memory.Ref(s, to, from);
      case Swapping(s, i, j) =>
        FitsIsIn(h, s, i);
        FitsIsIn(h, s, j);
        var ok := memory.Swap(s, i, j);
        r := if ok then Completed else Raised;
      case Freeing(s, i) =>
        FitsIsIn(h, s, i);
        NamedIsUsed(n, h, s, i);
        var ok := memory.Free(s, i);
        r := if ok then Completed else Raised;
      case Emptying(s, i) =>
        FitsIsIn(h, s, i);
        NamedIsUsed(n, h, s, i);
        var ok := memory.Clear(s, i);
        r := if ok then Completed else Raised;
      case Checking(s, to, from, yes, no) =>
        FitsIsIn(h, s, to);
        FitsIsIn(h, s, from);
        NamedIsUsed(n, h, s, from);
        r := memory.IsNull(s, to, from, yes, no);
    }
  }

  // Whether the store can go along with the instruction.
  method Goes<V(==)>(memory: Memory<V>, act: Act<V>) returns (goes: bool)
    requires Valid(memory.State())
    ensures goes <==> !Nests(memory.State(), act) && !Crashes(memory.State(), act)
  {
    goes := true;
    match act {
      case Copying(s, to, from) =>
        var r, pointer := memory.Fetch(s, from);
        SeenThrough(memory.State(), s, from, r.Completed?, pointer);
        goes := !(r.Completed? && pointer.None?);
      case Referring(s, to, from) =>
        if s in memory.sets && to < |memory.sets[s]| && from < |memory.sets[s]| {
          if memory.sets[s][to].Some? {
            ReferenceIn(memory.State(), s, to);
            goes := to != from && !memory.objects[memory.sets[s][to].value].Reference?;
          } else {
            goes := to != from;
          }
        }
      case _ =>
    }
  }

  // Instruction k of the run does not fail, and does not empty a register.
  predicate Clean<V>(n: Names<V>, shape: Shape, acts: seq<Act<V>>, k: nat)
    requires k < |acts|
  {
    var op := Meaning(Run(n, shape, acts[..k]), shape, acts[k]);
    !op.Nothing? && !op.Box? && !acts[k].Emptying?
  }

  // Every run of register operations refines the run of the simple store, operations that raise an
  // exception included, up to the first one that makes a reference to a reference or crashes.  Without
  // failing operations and without `empty` it leaves no object in memory that nothing holds.
  method Execute<V(==)>(memory: Memory<V>, acts: seq<Act<V>>, ghost n: Names<V>) returns (performed: nat)
    requires Valid(memory.State()) && memory.hand == [] && Flat(memory.State()) && Models(n, memory.State())
    modifies memory
    ensures Valid(memory.State()) && memory.hand == [] && Flat(memory.State()) && SameShape(old(memory.State()), memory.State())
    ensures performed <= |acts| && Models(Run(n, ShapeOf(old(memory.State())), acts[..performed]), memory.State())
    ensures performed < |acts| ==> Nests(memory.State(), acts[performed]) || Crashes(memory.State(), acts[performed])
    ensures (forall k | 0 <= k < performed :: Clean(n, ShapeOf(old(memory.State())), acts, k)) ==>
              Keeps(old(memory.State()), memory.State())
  {
    hide Valid, Models, Flat, Nests, Crashes, Did, Apply, Meaning, Keeps;
    ghost var shape := ShapeOf(memory.State());
    ghost var first := memory.State();
    KeepsNow(first);
    performed := 0;
    assert acts[..0] == [];
    while performed < |acts|
      invariant performed <= |acts| && Valid(memory.State()) && memory.hand == [] && Flat(memory.State())
      invariant SameShape(old(memory.State()), memory.State()) && ShapeOf(memory.State()) == shape
      invariant Models(Run(n, shape, acts[..performed]), memory.State())
      invariant (forall k | 0 <= k < performed :: Clean(n, shape, acts, k)) ==> Keeps(first, memory.State())
    {
      var goes := Goes(memory, acts[performed]);
      if !goes {
        return;
      }
      ghost var h, m := memory.State(), Run(n, shape, acts[..performed]);
      var r := Perform(memory, acts[performed], m);
      DidRefines(m, acts[performed], h, memory.State());
      SameShapeOf(h, memory.State());
      if (forall k | 0 <= k < performed :: Clean(n, shape, acts, k)) && Clean(n, shape, acts, performed) {
        KeepsThrough(first, h, memory.State());
      }
      assert acts[..performed + 1][..performed] == acts[..performed];
      performed := performed + 1;
    }
  }

  lemma DidRefines<V>(n: Names<V>, act: Act<V>, h: Heap<V>, r: Heap<V>)
    requires Valid(h) && Models(n, h) && Did(n, act, h, r)
    ensures Models(Apply(n, Meaning(n, ShapeOf(h), act)), r)
  {
    hide Valid, Models, Does, Apply, Meaning;
    StepRefines(n, h, r, Meaning(n, ShapeOf(h), act));
  }
}
