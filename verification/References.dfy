// Registers that hold objects or counted references to shared cells (src/types/reference.cpp,
// src/cpu/registerset.cpp, src/cpu/cpu.cpp:111-187, src/cpu/instr/registers.cpp).
module References {
  import opened Bytes

  type Id = nat

  // An object in memory.  A closure keeps references to the registers it has captured.
  datatype Object<V> =
    | Data(value: V)
    | Closure(name: Name, captured: seq<Option<Id>>)
    | Reference(cell: Id)

  // What the references that share a cell point to, and how many there are.
  datatype Cell = Cell(pointer: Option<Id>, count: nat)

  // Objects, cells and the registers of every register set.  The hand is what running code holds
  // in local variables: objects just made, or taken out of a register to be destroyed.
  datatype Heap<V> = Heap(
    objects: map<Id, Object<V>>,
    cells: map<Id, Cell>,
    sets: map<nat, seq<Option<Id>>>,
    hand: seq<Id>,
    next: Id)

  // ----- who holds an object -----

  datatype Holder =
    | Slot(set_: nat, index: nat)
    | Pointer(cell: Id)
    | Captured(closure: Id, position: nat)
    | Hand(k: nat)

  predicate InSet<V>(h: Heap<V>, s: nat, i: nat) {
    s in h.sets && i < |h.sets[s]|
  }

  function Holds<V>(h: Heap<V>, x: Holder): Option<Id> {
    match x
    case Slot(s, i) => if InSet(h, s, i) then h.sets[s][i] else None
    case Pointer(c) => if c in h.cells then h.cells[c].pointer else None
    case Captured(o, i) =>
      if o in h.objects && h.objects[o].Closure? && i < |h.objects[o].captured| then h.objects[o].captured[i] else None
    case Hand(k) => if k < |h.hand| then Some(h.hand[k]) else None
  }

  predicate IsReference<V>(h: Heap<V>, id: Id) {
    id in h.objects && h.objects[id].Reference?
  }

  // The live references to a cell.
  function Sharing<V>(objects: map<Id, Object<V>>, c: Id): set<Id> {
    set id | id in objects && objects[id].Reference? && objects[id].cell == c
  }

  // Only live objects are held.
  ghost predicate Live<V>(h: Heap<V>) {
    forall x :: Holds(h, x).Some? ==> Holds(h, x).value in h.objects
  }

  // No object is held twice.
  ghost predicate Single<V>(h: Heap<V>) {
    forall x, y :: Holds(h, x).Some? && Holds(h, x) == Holds(h, y) ==> x == y
  }

  // The counter of every cell is the number of live references that share it, and never zero.
  predicate Counted<V>(h: Heap<V>) {
    && (forall id <- h.objects :: h.objects[id].Reference? ==> h.objects[id].cell in h.cells)
    && forall c <- h.cells :: h.cells[c].count == |Sharing(h.objects, c)| > 0
  }

  predicate Bounded<V>(h: Heap<V>) {
    (forall id <- h.objects :: id < h.next) && (forall c <- h.cells :: c < h.next)
  }

  ghost predicate CapturesReferences<V>(h: Heap<V>) {
    forall o, i :: Holds(h, Captured(o, i)).Some? ==> IsReference(h, Holds(h, Captured(o, i)).value)
  }

  ghost predicate Valid<V>(h: Heap<V>) {
    Live(h) && Single(h) && Counted(h) && Bounded(h) && CapturesReferences(h)
  }

  // ----- locations -----

  // What a register names: an object of its own, or a cell it shares with others.
  datatype Location = Own(id: Id) | Shared(cell: Id)

  function LocationOf<V>(h: Heap<V>, x: Holder): Option<Location> {
    match Holds(h, x)
    case None => None
    case Some(id) =>
      if id in h.objects && h.objects[id].Reference? then Some(Shared(h.objects[id].cell)) else Some(Own(id))
  }

  datatype Content<V> = Value(value: V) | Callable(name: Name) | Nested(cell: Id)

  function ContentOfObject<V>(o: Object<V>): Content<V> {
    match o
    case Data(v) => Value(v)
    case Closure(name, _) => Callable(name)
    case Reference(c) => Nested(c)
  }

  // The object at a location; a cell may point to nothing.
  function ObjectAt<V>(h: Heap<V>, l: Location): Option<Id> {
    match l
    case Own(id) => Some(id)
    case Shared(c) => if c in h.cells then h.cells[c].pointer else None
  }

  function ContentAt<V>(h: Heap<V>, x: Holder): Option<Content<V>> {
    match LocationOf(h, x)
    case None => None
    case Some(l) =>
      match ObjectAt(h, l)
      case Some(id) => if id in h.objects then Some(ContentOfObject(h.objects[id])) else None
      case None => None
  }

  // Two registers that name the same location.
  predicate Alias<V>(h: Heap<V>, x: Holder, y: Holder) {
    LocationOf(h, x).Some? && LocationOf(h, x) == LocationOf(h, y)
  }

  // All registers but x name the same locations with the same contents.
  ghost predicate SameBut<V>(h: Heap<V>, r: Heap<V>, x: Holder) {
    forall s, i :: Slot(s, i) != x ==>
                     && LocationOf(r, Slot(s, i)) == LocationOf(h, Slot(s, i))
                     && ContentAt(r, Slot(s, i)) == ContentAt(h, Slot(s, i))
  }

  // The register names the same location with the same content.
  ghost predicate SameAt<V>(h: Heap<V>, r: Heap<V>, x: Holder) {
    LocationOf(r, x) == LocationOf(h, x) && ContentAt(r, x) == ContentAt(h, x)
  }

  ghost predicate SameAll<V>(h: Heap<V>, r: Heap<V>) {
    forall s, i :: SameAt(h, r, Slot(s, i))
  }

  // ----- moving objects between holders -----

  // Every object held in r was held in h by a holder of its own, but for what e holds: that is new.
  ghost predicate Rehomed<V>(h: Heap<V>, r: Heap<V>, origin: Holder -> Holder, e: Holder) {
    && (forall x | x != e && Holds(r, x).Some? :: Holds(h, origin(x)) == Holds(r, x))
    && (forall x, y | x != e && y != e && Holds(r, x).Some? && Holds(r, y).Some? && origin(x) == origin(y) :: x == y)
    && (Holds(r, e).Some? ==> Holds(r, e).value !in h.objects && Holds(r, e).value in r.objects)
    && (forall x | x != e && Holds(r, x).Some? :: Holds(r, x).value in r.objects)
  }

  lemma RehomedHolds<V>(h: Heap<V>, r: Heap<V>, origin: Holder -> Holder, e: Holder)
    requires Live(h) && Single(h) && Rehomed(h, r, origin, e)
    ensures Live(r) && Single(r)
  {
    hide Holds;
    forall x | x != e && Holds(r, x).Some?
      ensures Holds(r, x).value in h.objects
    {
      assert Holds(h, origin(x)) == Holds(r, x);
    }
    forall x, y | x != e && y != e && Holds(r, x).Some? && Holds(r, x) == Holds(r, y)
      ensures x == y
    {
      assert Holds(h, origin(x)) == Holds(h, origin(y));
    }
  }

  // ----- destroying what is in the hand -----

  // The positions that are not empty.
  function Filled(s: seq<Option<Id>>): (p: seq<nat>)
    ensures forall k | 0 <= k < |p| :: p[k] < |s| && s[p[k]].Some?
    ensures forall j, k | 0 <= j < k < |p| :: p[j] < p[k]
  {
    if s == [] then []
    else
      var n := |s| - 1;
      Filled(s[..n]) + (if s[n].Some? then [n] else [])
  }

  function Present(s: seq<Option<Id>>): (p: seq<Id>)
    ensures |p| == |Filled(s)| && forall k | 0 <= k < |p| :: Some(p[k]) == s[Filled(s)[k]]
  {
    seq(|Filled(s)|, k requires 0 <= k < |Filled(s)| => s[Filled(s)[k]].value)
  }

  function Last<V>(h: Heap<V>): Id
    requires h.hand != []
  {
    h.hand[|h.hand| - 1]
  }

  function Rest<V>(h: Heap<V>): seq<Id>
    requires h.hand != []
  {
    h.hand[..|h.hand| - 1]
  }

  // The destructor of the last object in the hand.  What only this object kept alive is in the
  // hand afterwards.
  function Destroyed<V>(h: Heap<V>): Heap<V>
    requires h.hand != [] && Last(h) in h.objects && Counted(h)
  {
    var id := Last(h);
    var left := h.objects - {id};
    match h.objects[id]
    case Data(_) => h.(objects := left, hand := Rest(h))
    case Closure(_, captured) => h.(objects := left, hand := Rest(h) + Present(captured))
    case Reference(c) =>
      var cell := h.cells[c];
      if cell.count > 1 then
        h.(objects := left, cells := h.cells[c := cell.(count := cell.count - 1)], hand := Rest(h))
      else
        h.(objects := left, cells := h.cells - {c},
           hand := Rest(h) + (if cell.pointer.Some? then [cell.pointer.value] else []))
  }

  lemma SharingRemoved<V>(objects: map<Id, Object<V>>, id: Id, c: Id)
    requires id in objects
    ensures |Sharing(objects - {id}, c)| ==
            |Sharing(objects, c)| - (if objects[id].Reference? && objects[id].cell == c then 1 else 0)
  {
    if objects[id].Reference? && objects[id].cell == c {
      assert Sharing(objects - {id}, c) == Sharing(objects, c) - {id};
    } else {
      assert Sharing(objects - {id}, c) == Sharing(objects, c);
    }
  }

  lemma SharingAdded<V>(objects: map<Id, Object<V>>, id: Id, o: Object<V>, c: Id)
    requires id !in objects
    ensures |Sharing(objects[id := o], c)| == |Sharing(objects, c)| + (if o.Reference? && o.cell == c then 1 else 0)
  {
    if o.Reference? && o.cell == c {
      assert Sharing(objects[id := o], c) == Sharing(objects, c) + {id};
    } else {
      assert Sharing(objects[id := o], c) == Sharing(objects, c);
    }
  }

  lemma DestroyedCounts<V>(h: Heap<V>)
    requires h.hand != [] && Last(h) in h.objects && Counted(h)
    ensures Counted(Destroyed(h))
  {
    var id, r := Last(h), Destroyed(h);
    forall c | c in r.cells
      ensures r.cells[c].count == |Sharing(r.objects, c)| > 0
    {
      SharingRemoved(h.objects, id, c);
    }
    forall i | i in r.objects && r.objects[i].Reference?
      ensures r.objects[i].cell in r.cells
    {
      var c := r.objects[i].cell;
      SharingRemoved(h.objects, id, c);
      assert i in Sharing(r.objects, c);
    }
  }

  // Who held what is in the hand after a destructor has run.
  function DestroyedOrigin<V>(h: Heap<V>, x: Holder): Holder
    requires h.hand != [] && Last(h) in h.objects
  {
    if x.Hand? && x.k >= |h.hand| - 1 then
      match h.objects[Last(h)]
      case Closure(_, captured) =>
        var k := x.k - (|h.hand| - 1);
        if k < |Filled(captured)| then Captured(Last(h), Filled(captured)[k]) else x
      case Reference(c) => Pointer(c)
      case Data(_) => x
    else x
  }

  lemma DestroyedHolds<V>(h: Heap<V>, x: Holder)
    requires Live(h) && Single(h) && Counted(h) && h.hand != [] && Last(h) in h.objects
    requires Holds(Destroyed(h), x).Some?
    ensures Holds(h, DestroyedOrigin(h, x)) == Holds(Destroyed(h), x)
    ensures Holds(Destroyed(h), x).value in Destroyed(h).objects
  {
    hide Filled;
    var o := DestroyedOrigin(h, x);
    assert Holds(h, Hand(|h.hand| - 1)) == Some(Last(h));
    assert Holds(h, o) == Holds(Destroyed(h), x);
    assert o != Hand(|h.hand| - 1);
  }

  lemma DestroyedOriginsDiffer<V>(h: Heap<V>, x: Holder, y: Holder)
    requires Counted(h) && h.hand != [] && Last(h) in h.objects
    requires Holds(Destroyed(h), x).Some? && Holds(Destroyed(h), y).Some?
    requires DestroyedOrigin(h, x) == DestroyedOrigin(h, y)
    ensures x == y
  {
    hide Filled;
  }

  lemma DestroyedOwners<V>(h: Heap<V>)
    requires Valid(h) && h.hand != []
    ensures Last(h) in h.objects && Live(Destroyed(h)) && Single(Destroyed(h))
  {
    assert Holds(h, Hand(|h.hand| - 1)) == Some(Last(h));
    var r, e := Destroyed(h), Hand(|Destroyed(h).hand|);
    assert Holds(r, e).None?;
    hide Holds, Destroyed, DestroyedOrigin, Counted, Bounded, CapturesReferences;
    var origin := x => DestroyedOrigin(h, x);
    forall x | x != e && Holds(r, x).Some?
      ensures Holds(h, origin(x)) == Holds(r, x) && Holds(r, x).value in r.objects
    {
      DestroyedHolds(h, x);
    }
    forall x, y | x != e && y != e && Holds(r, x).Some? && Holds(r, y).Some? && origin(x) == origin(y)
      ensures x == y
    {
      DestroyedOriginsDiffer(h, x, y);
    }
    RehomedHolds(h, r, origin, e);
  }

  // Destroying an object keeps all invariants, so no object is destroyed twice.
  lemma DestroyedValid<V>(h: Heap<V>)
    requires Valid(h) && h.hand != []
    ensures Last(h) in h.objects && Valid(Destroyed(h))
    ensures Last(h) !in Destroyed(h).objects && |Destroyed(h).objects| < |h.objects|
  {
    hide Holds;
    DestroyedOwners(h);
    DestroyedCounts(h);
    var r := Destroyed(h);
    forall o, i | Holds(r, Captured(o, i)).Some?
      ensures IsReference(r, Holds(r, Captured(o, i)).value)
    {
      CapturedKept(h, o, i);
    }
  }

  lemma CapturedKept<V>(h: Heap<V>, o: Id, i: nat)
    requires h.hand != [] && Last(h) in h.objects && Counted(h)
    requires Holds(Destroyed(h), Captured(o, i)).Some?
    ensures Holds(h, Captured(o, i)) == Holds(Destroyed(h), Captured(o, i))
  {
  }

  // Destroying an object that no register holds changes no register.
  lemma DestroyedSame<V>(h: Heap<V>)
    requires Valid(h) && h.hand != []
    ensures Last(h) in h.objects && SameAll(h, Destroyed(h))
  {
    hide Filled, Bounded, CapturesReferences;
    assert Holds(h, Hand(|h.hand| - 1)) == Some(Last(h));
    var r := Destroyed(h);
    forall s, i
      ensures SameAt(h, r, Slot(s, i))
    {
      DestroyedSameAt(h, s, i);
    }
  }

  lemma DestroyedSameAt<V>(h: Heap<V>, s: nat, i: nat)
    requires Valid(h) && h.hand != [] && Last(h) in h.objects
    ensures SameAt(h, Destroyed(h), Slot(s, i))
  {
    hide Filled, Bounded, CapturesReferences;
    var r, x, last := Destroyed(h), Slot(s, i), Hand(|h.hand| - 1);
    assert Holds(h, last) == Some(Last(h));
    assert Holds(r, x) == Holds(h, x);
    if Holds(h, x).Some? {
      var o := Holds(h, x).value;
      assert o in h.objects && o != Last(h);
      if h.objects[o].Reference? {
        var c := h.objects[o].cell;
        assert c in h.cells;
        assert Holds(h, Pointer(c)) == h.cells[c].pointer;
        if h.objects[Last(h)].Reference? && h.objects[Last(h)].cell == c {
          assert {o, Last(h)} <= Sharing(h.objects, c);
          TwoInside(Sharing(h.objects, c), o, Last(h));
        }
        assert c in r.cells && r.cells[c].pointer == h.cells[c].pointer;
      }
    }
  }

  lemma TwoInside(s: set<Id>, a: Id, b: Id)
    requires a in s && b in s && a != b
    ensures |s| >= 2
  {
    assert |s - {a}| == |s| - 1 && b in s - {a};
  }

  // ----- making objects and moving them -----

  function Empty(n: nat): (r: seq<Option<Id>>)
    ensures |r| == n && forall k | 0 <= k < n :: r[k] == None
  {
    seq(n, _ => None)
  }

  // A new object that holds nothing, in the hand.
  function Made<V>(h: Heap<V>, o: Object<V>): Heap<V> {
    h.(objects := h.objects[h.next := o], hand := h.hand + [h.next], next := h.next + 1)
  }

  // Reference::copy.
  function MadeReference<V>(h: Heap<V>, c: Id): Heap<V>
    requires c in h.cells
  {
    var cell := h.cells[c];
    h.(objects := h.objects[h.next := Reference(c)], cells := h.cells[c := cell.(count := cell.count + 1)],
       hand := h.hand + [h.next], next := h.next + 1)
  }

  // A new cell that points to the last object in the hand, or to nothing, and its first reference.
  function Wrapped<V>(h: Heap<V>, something: bool): Heap<V>
    requires something ==> h.hand != []
  {
    var pointer := if something then Some(Last(h)) else None;
    h.(objects := h.objects[h.next + 1 := Reference(h.next)], cells := h.cells[h.next := Cell(pointer, 1)],
       hand := (if something then Rest(h) else h.hand) + [h.next + 1], next := h.next + 2)
  }

  function TakenFrom<V>(h: Heap<V>, s: nat, i: nat): Heap<V>
    requires InSet(h, s, i) && h.sets[s][i].Some?
  {
    h.(sets := h.sets[s := h.sets[s][i := None]], hand := h.hand + [h.sets[s][i].value])
  }

  function PutInto<V>(h: Heap<V>, s: nat, i: nat): Heap<V>
    requires InSet(h, s, i) && h.hand != []
  {
    h.(sets := h.sets[s := h.sets[s][i := Some(Last(h))]], hand := Rest(h))
  }

  function Unpointed<V>(h: Heap<V>, c: Id): Heap<V>
    requires c in h.cells && h.cells[c].pointer.Some?
  {
    h.(cells := h.cells[c := h.cells[c].(pointer := None)], hand := h.hand + [h.cells[c].pointer.value])
  }

  function Pointed<V>(h: Heap<V>, c: Id): Heap<V>
    requires c in h.cells && h.hand != []
  {
    h.(cells := h.cells[c := h.cells[c].(pointer := Some(Last(h)))], hand := Rest(h))
  }

  // Hand a reference to position i of the closure o.
  function CapturedBy<V>(h: Heap<V>, o: Id, i: nat): Heap<V>
    requires h.hand != [] && o in h.objects && h.objects[o].Closure? && i < |h.objects[o].captured|
  {
    var closure := h.objects[o];
    h.(objects := h.objects[o := closure.(captured := closure.captured[i := Some(Last(h))])], hand := Rest(h))
  }

  function Forgotten<V>(h: Heap<V>): Heap<V>
    requires h.hand != []
  {
    h.(hand := Rest(h))
  }

  // ----- they keep the invariants -----

  ghost predicate Owned<V>(h: Heap<V>) {
    Live(h) && Single(h)
  }

  lemma MadeOwned<V>(h: Heap<V>, o: Object<V>)
    requires Owned(h) && Bounded(h) && (o.Closure? ==> forall k | 0 <= k < |o.captured| :: o.captured[k].None?)
    ensures Owned(Made(h, o))
  {
    var r, e := Made(h, o), Hand(|h.hand|);
    var origin: Holder -> Holder := x => x;
    forall x | x != e && Holds(r, x).Some?
      ensures Holds(h, x) == Holds(r, x) && Holds(r, x).value in r.objects
    {
    }
    RehomedHolds(h, r, origin, e);
  }

  lemma MadeReferenceOwned<V>(h: Heap<V>, c: Id)
    requires Owned(h) && Bounded(h) && c in h.cells
    ensures Owned(MadeReference(h, c))
  {
    var r, e := MadeReference(h, c), Hand(|h.hand|);
    var origin: Holder -> Holder := x => x;
    forall x | x != e && Holds(r, x).Some?
      ensures Holds(h, x) == Holds(r, x) && Holds(r, x).value in r.objects
    {
    }
    RehomedHolds(h, r, origin, e);
  }

  lemma WrappedOwned<V>(h: Heap<V>, something: bool)
    requires Owned(h) && Bounded(h) && (something ==> h.hand != [])
    ensures Owned(Wrapped(h, something))
  {
    var r := Wrapped(h, something);
    var e := Hand(|r.hand| - 1);
    var n: nat := if something then |h.hand| - 1 else 0;
    var origin: Holder -> Holder := x => if x == Pointer(h.next) then Hand(n) else x;
    forall x | x != e && Holds(r, x).Some?
      ensures Holds(h, origin(x)) == Holds(r, x) && Holds(r, x).value in r.objects
    {
      assert x.Pointer? && x != Pointer(h.next) ==> Holds(h, x) == Holds(r, x);
    }
    RehomedHolds(h, r, origin, e);
  }

  lemma TakenOwned<V>(h: Heap<V>, s: nat, i: nat)
    requires Owned(h) && InSet(h, s, i) && h.sets[s][i].Some?
    ensures Owned(TakenFrom(h, s, i))
  {
    var r := TakenFrom(h, s, i);
    var e := Hand(|r.hand|);
    var origin: Holder -> Holder := x => if x == Hand(|h.hand|) then Slot(s, i) else x;
    forall x | x != e && Holds(r, x).Some?
      ensures Holds(h, origin(x)) == Holds(r, x) && Holds(r, x).value in r.objects
    {
      assert Holds(h, Slot(s, i)) == h.sets[s][i];
    }
    RehomedHolds(h, r, origin, e);
  }

  lemma PutOwned<V>(h: Heap<V>, s: nat, i: nat)
    requires Owned(h) && InSet(h, s, i) && h.sets[s][i].None? && h.hand != []
    ensures Owned(PutInto(h, s, i))
  {
    var r := PutInto(h, s, i);
    var e := Hand(|h.hand|);
    var origin: Holder -> Holder := x => if x == Slot(s, i) then Hand(|h.hand| - 1) else x;
    forall x | x != e && Holds(r, x).Some?
      ensures Holds(h, origin(x)) == Holds(r, x) && Holds(r, x).value in r.objects
    {
    }
    RehomedHolds(h, r, origin, e);
  }

  lemma UnpointedOwned<V>(h: Heap<V>, c: Id)
    requires Owned(h) && c in h.cells && h.cells[c].pointer.Some?
    ensures Owned(Unpointed(h, c))
  {
    var r := Unpointed(h, c);
    var e := Hand(|r.hand|);
    var origin: Holder -> Holder := x => if x == Hand(|h.hand|) then Pointer(c) else x;
    forall x | x != e && Holds(r, x).Some?
      ensures Holds(h, origin(x)) == Holds(r, x) && Holds(r, x).value in r.objects
    {
      assert Holds(h, Pointer(c)) == h.cells[c].pointer;
    }
    RehomedHolds(h, r, origin, e);
  }

  lemma PointedOwned<V>(h: Heap<V>, c: Id)
    requires Owned(h) && c in h.cells && h.cells[c].pointer.None? && h.hand != []
    ensures Owned(Pointed(h, c))
  {
    var r := Pointed(h, c);
    var e := Hand(|h.hand|);
    var origin: Holder -> Holder := x => if x == Pointer(c) then Hand(|h.hand| - 1) else x;
    forall x | x != e && Holds(r, x).Some?
      ensures Holds(h, origin(x)) == Holds(r, x) && Holds(r, x).value in r.objects
    {
    }
    RehomedHolds(h, r, origin, e);
  }

  lemma CapturedOwned<V>(h: Heap<V>, o: Id, i: nat)
    requires Owned(h) && h.hand != [] && o in h.objects && h.objects[o].Closure? && i < |h.objects[o].captured|
    requires h.objects[o].captured[i].None?
    ensures Owned(CapturedBy(h, o, i))
  {
    var r := CapturedBy(h, o, i);
    var e := Hand(|h.hand|);
    var origin: Holder -> Holder := x => if x == Captured(o, i) then Hand(|h.hand| - 1) else x;
    forall x | x != e && Holds(r, x).Some?
      ensures Holds(h, origin(x)) == Holds(r, x) && Holds(r, x).value in r.objects
    {
    }
    RehomedHolds(h, r, origin, e);
  }

  lemma ForgottenOwned<V>(h: Heap<V>)
    requires Owned(h) && h.hand != []
    ensures Owned(Forgotten(h))
  {
    var r := Forgotten(h);
    var e := Hand(|h.hand|);
    var origin: Holder -> Holder := x => x;
    forall x | x != e && Holds(r, x).Some?
      ensures Holds(h, x) == Holds(r, x) && Holds(r, x).value in r.objects
    {
    }
    RehomedHolds(h, r, origin, e);
  }

  lemma MadeValid<V>(h: Heap<V>, o: Object<V>)
    requires Valid(h) && !o.Reference?
    requires o.Closure? ==> forall k | 0 <= k < |o.captured| :: o.captured[k].None?
    ensures Valid(Made(h, o)) && SameAll(h, Made(h, o))
  {
    MadeOwned(h, o);
    var r := Made(h, o);
    forall c | c in r.cells
      ensures r.cells[c].count == |Sharing(r.objects, c)| > 0
    {
      SharingAdded(h.objects, h.next, o, c);
    }
    SameByObjects(h, r);
    CapturedSame(h, r, h.next);
  }

  lemma MadeReferenceValid<V>(h: Heap<V>, c: Id)
    requires Valid(h) && c in h.cells
    ensures Valid(MadeReference(h, c)) && SameAll(h, MadeReference(h, c))
  {
    MadeReferenceOwned(h, c);
    var r := MadeReference(h, c);
    forall d | d in r.cells
      ensures r.cells[d].count == |Sharing(r.objects, d)| > 0
    {
      SharingAdded(h.objects, h.next, Reference(c), d);
    }
    SameByObjects(h, r);
    CapturedSame(h, r, h.next);
  }

  lemma WrappedValid<V>(h: Heap<V>, something: bool)
    requires Valid(h) && (something ==> h.hand != [])
    ensures Valid(Wrapped(h, something)) && SameAll(h, Wrapped(h, something))
  {
    WrappedOwned(h, something);
    var r := Wrapped(h, something);
    assert Sharing(h.objects, h.next) == {} by {
      forall i | i in h.objects && h.objects[i].Reference?
        ensures h.objects[i].cell != h.next
      {
        assert h.objects[i].cell in h.cells;
      }
    }
    forall c | c in r.cells
      ensures r.cells[c].count == |Sharing(r.objects, c)| > 0
    {
      SharingAdded(h.objects, h.next + 1, Reference(h.next), c);
    }
    SameByObjects(h, r);
    CapturedSame(h, r, h.next + 1);
  }

  // Registers see no difference when the objects and cells they can see are kept.
  lemma SameByObjects<V>(h: Heap<V>, r: Heap<V>)
    requires Live(h) && Counted(h) && r.sets == h.sets
    requires forall id <- h.objects :: id in r.objects && r.objects[id] == h.objects[id]
    requires forall c <- h.cells :: c in r.cells && r.cells[c].pointer == h.cells[c].pointer
    ensures SameAll(h, r)
  {
    forall s, i
      ensures SameAt(h, r, Slot(s, i))
    {
      SeesSame(h, r, Slot(s, i));
    }
  }

  lemma SeesSame<V>(h: Heap<V>, r: Heap<V>, x: Holder)
    requires Live(h) && Counted(h) && Holds(r, x) == Holds(h, x)
    requires forall id <- h.objects :: id in r.objects && ContentOfObject(r.objects[id]) == ContentOfObject(h.objects[id])
    requires LocationOf(h, x).Some? ==> ObjectAt(r, LocationOf(h, x).value) == ObjectAt(h, LocationOf(h, x).value)
    ensures SameAt(h, r, x)
  {
    if Holds(h, x).Some? {
      var id := Holds(h, x).value;
      assert id in h.objects;
      assert ContentOfObject(r.objects[id]) == ContentOfObject(h.objects[id]);
      if h.objects[id].Reference? {
        var c := h.objects[id].cell;
        assert c in h.cells;
        assert Holds(h, Pointer(c)) == h.cells[c].pointer;
      }
    }
  }

  // Captured references are still references when objects are only added.
  lemma CapturedSame<V>(h: Heap<V>, r: Heap<V>, added: Id)
    requires Live(h) && CapturesReferences(h) && added !in h.objects && r.objects.Keys == h.objects.Keys + {added}
    requires forall id <- h.objects :: r.objects[id] == h.objects[id]
    requires r.objects[added].Closure? ==> forall k | 0 <= k < |r.objects[added].captured| :: r.objects[added].captured[k].None?
    ensures CapturesReferences(r)
  {
    forall o, i | Holds(r, Captured(o, i)).Some?
      ensures IsReference(r, Holds(r, Captured(o, i)).value)
    {
      assert Holds(h, Captured(o, i)) == Holds(r, Captured(o, i));
      assert IsReference(h, Holds(h, Captured(o, i)).value);
    }
  }

  // ----- registers -----

  lemma TakenValid<V>(h: Heap<V>, s: nat, i: nat)
    requires Valid(h) && InSet(h, s, i) && h.sets[s][i].Some?
    ensures Valid(TakenFrom(h, s, i)) && SameBut(h, TakenFrom(h, s, i), Slot(s, i))
    ensures TakenFrom(h, s, i).sets[s][i].None? && Last(TakenFrom(h, s, i)) == h.sets[s][i].value
  {
    TakenOwned(h, s, i);
    var r := TakenFrom(h, s, i);
    forall o, k | Holds(r, Captured(o, k)).Some?
      ensures IsReference(r, Holds(r, Captured(o, k)).value)
    {
      assert Holds(h, Captured(o, k)) == Holds(r, Captured(o, k));
    }
    forall t, j | Slot(t, j) != Slot(s, i)
      ensures SameAt(h, r, Slot(t, j))
    {
      assert Holds(r, Slot(t, j)) == Holds(h, Slot(t, j));
    }
  }

  lemma PutValid<V>(h: Heap<V>, s: nat, i: nat)
    requires Valid(h) && InSet(h, s, i) && h.sets[s][i].None? && h.hand != []
    ensures Valid(PutInto(h, s, i)) && SameBut(h, PutInto(h, s, i), Slot(s, i))
    ensures Holds(PutInto(h, s, i), Slot(s, i)) == Some(Last(h))
  {
    PutOwned(h, s, i);
    var r := PutInto(h, s, i);
    forall o, k | Holds(r, Captured(o, k)).Some?
      ensures IsReference(r, Holds(r, Captured(o, k)).value)
    {
      assert Holds(h, Captured(o, k)) == Holds(r, Captured(o, k));
    }
    forall t, j | Slot(t, j) != Slot(s, i)
      ensures SameAt(h, r, Slot(t, j))
    {
      assert Holds(r, Slot(t, j)) == Holds(h, Slot(t, j));
    }
  }

  // Registers that do not name the cell c.
  ghost predicate SameOff<V>(h: Heap<V>, r: Heap<V>, c: Id) {
    forall s, i ::
      && LocationOf(r, Slot(s, i)) == LocationOf(h, Slot(s, i))
      && (LocationOf(h, Slot(s, i)) != Some(Shared(c)) ==> SameAt(h, r, Slot(s, i)))
  }

  lemma UnpointedValid<V>(h: Heap<V>, c: Id)
    requires Valid(h) && c in h.cells && h.cells[c].pointer.Some?
    ensures Valid(Unpointed(h, c)) && SameOff(h, Unpointed(h, c), c)
  {
    UnpointedOwned(h, c);
    RepointedValid(h, Unpointed(h, c), c);
  }

  lemma PointedValid<V>(h: Heap<V>, c: Id)
    requires Valid(h) && c in h.cells && h.cells[c].pointer.None? && h.hand != []
    ensures Valid(Pointed(h, c)) && SameOff(h, Pointed(h, c), c)
  {
    PointedOwned(h, c);
    RepointedValid(h, Pointed(h, c), c);
  }

  lemma RepointedValid<V>(h: Heap<V>, r: Heap<V>, c: Id)
    requires Valid(h) && Owned(r) && r.objects == h.objects && r.sets == h.sets && r.next == h.next
    requires c in h.cells && c in r.cells && r.cells == h.cells[c := h.cells[c].(pointer := r.cells[c].pointer)]
    ensures Valid(r) && SameOff(h, r, c)
  {
    forall o, k | Holds(r, Captured(o, k)).Some?
      ensures IsReference(r, Holds(r, Captured(o, k)).value)
    {
      assert Holds(h, Captured(o, k)) == Holds(r, Captured(o, k));
    }
    forall t, j
      ensures LocationOf(r, Slot(t, j)) == LocationOf(h, Slot(t, j))
      ensures LocationOf(h, Slot(t, j)) != Some(Shared(c)) ==> SameAt(h, r, Slot(t, j))
    {
      assert Holds(r, Slot(t, j)) == Holds(h, Slot(t, j));
    }
  }

  lemma CapturedValid<V>(h: Heap<V>, o: Id, i: nat)
    requires Valid(h) && h.hand != [] && o in h.objects && h.objects[o].Closure? && i < |h.objects[o].captured|
    requires h.objects[o].captured[i].None? && IsReference(h, Last(h))
    ensures Valid(CapturedBy(h, o, i)) && SameAll(h, CapturedBy(h, o, i))
  {
    CapturedOwned(h, o, i);
    var r := CapturedBy(h, o, i);
    forall c
      ensures Sharing(r.objects, c) == Sharing(h.objects, c)
    {
    }
    forall p, k | Holds(r, Captured(p, k)).Some?
      ensures IsReference(r, Holds(r, Captured(p, k)).value)
    {
      if Captured(p, k) != Captured(o, i) {
        assert Holds(h, Captured(p, k)) == Holds(r, Captured(p, k));
      }
    }
    forall s, j
      ensures SameAt(h, r, Slot(s, j))
    {
      SeesSame(h, r, Slot(s, j));
    }
  }

  lemma ForgottenValid<V>(h: Heap<V>)
    requires Valid(h) && h.hand != []
    ensures Valid(Forgotten(h)) && SameAll(h, Forgotten(h))
  {
    ForgottenOwned(h);
    var r := Forgotten(h);
    forall p, k | Holds(r, Captured(p, k)).Some?
      ensures IsReference(r, Holds(r, Captured(p, k)).value)
    {
      assert Holds(h, Captured(p, k)) == Holds(r, Captured(p, k));
    }
    SameByObjects(h, r);
  }
}
