// Register operations on objects and references, updating memory in place (src/types/reference.cpp,
// src/cpu/registerset.cpp:20-155, 248-265, src/cpu/cpu.cpp:112-187, src/cpu/instr/registers.cpp,
// src/cpu/instr/closure.cpp:43-100).
module Registers {
  import opened Bytes
  import opened References
  import opened Losses

  datatype Outcome = Completed | Raised | Crashed

  // ----- what an operation does, as registers see it -----

  // Every object and every cell left was there before, and points where it did.
  predicate Remains<V(==)>(h: Heap<V>, r: Heap<V>) {
    && (forall id <- r.objects :: id in h.objects && r.objects[id] == h.objects[id])
    && (forall c <- r.cells :: c in h.cells && r.cells[c].pointer == h.cells[c].pointer)
  }

  lemma DestroyedRemains<V>(h: Heap<V>)
    requires h.hand != [] && Last(h) in h.objects && Counted(h)
    ensures Remains(h, Destroyed(h)) && Destroyed(h).sets == h.sets && Destroyed(h).next == h.next
    ensures Rest(h) <= Destroyed(h).hand
  {
  }

  lemma RemainsTransitive<V>(h: Heap<V>, m: Heap<V>, r: Heap<V>)
    requires Remains(h, m) && Remains(m, r)
    ensures Remains(h, r)
  {
  }

  lemma SameAllTransitive<V>(h: Heap<V>, m: Heap<V>, r: Heap<V>)
    requires SameAll(h, m) && SameAll(m, r)
    ensures SameAll(h, r)
  {
    forall s, i
      ensures SameAt(h, r, Slot(s, i))
    {
      assert SameAt(h, m, Slot(s, i)) && SameAt(m, r, Slot(s, i));
    }
  }

  // Cells never point to references: a register names at most one cell.
  ghost predicate Flat<V>(h: Heap<V>) {
    forall c <- h.cells :: h.cells[c].pointer.Some? ==> !IsReference(h, h.cells[c].pointer.value)
  }

  // The register x, and every register that shares its location, now contains v.
  ghost predicate Wrote<V>(h: Heap<V>, r: Heap<V>, x: Holder, v: Content<V>) {
    && LocationOf(r, x).Some?
    && (forall s, i :: Slot(s, i) != x ==> LocationOf(r, Slot(s, i)) == LocationOf(h, Slot(s, i)))
    && (LocationOf(h, x).Some? && LocationOf(h, x).value.Shared? ==> LocationOf(r, x) == LocationOf(h, x))
    && (!(LocationOf(h, x).Some? && LocationOf(h, x).value.Shared?) ==>
          forall s, i :: Slot(s, i) != x ==> LocationOf(r, Slot(s, i)) != LocationOf(r, x))
    && (forall s, i ::
          ContentAt(r, Slot(s, i)) ==
          if Slot(s, i) == x || Alias(h, Slot(s, i), x) then Some(v) else ContentAt(h, Slot(s, i)))
  }

  // The register x now names the location of y; if y had one of its own, or none, x and y have it
  // for themselves.  No content changes but that of x.
  ghost predicate Joined<V>(h: Heap<V>, r: Heap<V>, x: Holder, y: Holder) {
    && LocationOf(r, x).Some? && LocationOf(r, x) == LocationOf(r, y)
    && (forall s, i :: Slot(s, i) != x && Slot(s, i) != y ==> SameAt(h, r, Slot(s, i)))
    && (LocationOf(h, y).Some? && LocationOf(h, y).value.Shared? ==> LocationOf(r, y) == LocationOf(h, y))
    && (!(LocationOf(h, y).Some? && LocationOf(h, y).value.Shared?) ==>
          forall s, i :: Slot(s, i) != x && Slot(s, i) != y ==> LocationOf(r, Slot(s, i)) != LocationOf(r, y))
    && ContentAt(r, x) == ContentAt(h, y) && ContentAt(r, y) == ContentAt(h, y)
  }

  // The register y shares its location with a reference now, alone unless it did so before; no
  // content has changed.
  ghost predicate Boxed<V>(h: Heap<V>, r: Heap<V>, y: Holder) {
    && LocationOf(r, y).Some? && ContentAt(r, y) == ContentAt(h, y) && SameBut(h, r, y)
    && (LocationOf(h, y).Some? && LocationOf(h, y).value.Shared? ==> LocationOf(r, y) == LocationOf(h, y))
    && (!(LocationOf(h, y).Some? && LocationOf(h, y).value.Shared?) ==>
          forall s, i :: Slot(s, i) != y ==> LocationOf(r, Slot(s, i)) != LocationOf(r, y))
  }

  // There are the same registers as before.
  predicate SameShape<V>(h: Heap<V>, r: Heap<V>) {
    r.sets.Keys == h.sets.Keys && forall t <- r.sets :: |r.sets[t]| == |h.sets[t]|
  }

  // The register x names nothing any more.
  ghost predicate Cleared<V>(h: Heap<V>, r: Heap<V>, x: Holder) {
    LocationOf(r, x).None? && SameBut(h, r, x)
  }

  ghost predicate Exchanged<V>(h: Heap<V>, r: Heap<V>, x: Holder, y: Holder) {
    && LocationOf(r, x) == LocationOf(h, y) && LocationOf(r, y) == LocationOf(h, x)
    && ContentAt(r, x) == ContentAt(h, y) && ContentAt(r, y) == ContentAt(h, x)
    && forall s, i :: Slot(s, i) != x && Slot(s, i) != y ==> SameAt(h, r, Slot(s, i))
  }

  // Nothing is gone or changed; what is new is not in a register.
  ghost predicate Extends<V>(h: Heap<V>, r: Heap<V>) {
    && r.sets == h.sets
    && (forall id <- h.objects :: id in r.objects && r.objects[id] == h.objects[id])
    && (forall c <- h.cells :: c in r.cells && r.cells[c].pointer == h.cells[c].pointer)
    && forall c <- r.cells :: c in h.cells
  }

  // Register (s, i) holds a reference to cell c.
  predicate HoldsReference<V>(h: Heap<V>, s: nat, i: nat, c: Id) {
    LocationOf(h, Slot(s, i)) == Some(Shared(c))
  }

  // RegisterSet::set with the last object in the hand: a reference is bound to it, and any other
  // content is replaced.
  ghost predicate SetResult<V>(h: Heap<V>, r: Heap<V>, s: nat, i: nat)
    requires h.hand != []
  {
    var id := Last(h);
    && Valid(r) && r.hand == Rest(h) && id in r.objects && r.sets.Keys == h.sets.Keys && InSet(r, s, i)
    && (forall o <- r.objects :: o in h.objects && r.objects[o] == h.objects[o])
    && (forall t <- r.sets :: |r.sets[t]| == |h.sets[t]|)
    && (forall c <- r.cells :: c in h.cells && (r.cells[c].pointer == h.cells[c].pointer || HoldsReference(h, s, i, c)))
    && (forall c :: HoldsReference(h, s, i, c) ==>
          c in r.cells && r.cells[c].pointer == Some(id) && SameOff(h, r, c))
    && ((forall c :: !HoldsReference(h, s, i, c)) ==> SameBut(h, r, Slot(s, i)) && Holds(r, Slot(s, i)) == Some(id))
  }

  lemma SetEmpty<V>(h: Heap<V>, s: nat, i: nat)
    requires Valid(h) && h.hand != [] && InSet(h, s, i) && h.sets[s][i].None?
    ensures SetResult(h, PutInto(h, s, i), s, i)
  {
    PutValid(h, s, i);
    assert Holds(h, Hand(|h.hand| - 1)) == Some(Last(h));
  }

  // m is h with the old object of the register destroyed.
  lemma SetOther<V>(h: Heap<V>, m: Heap<V>, s: nat, i: nat)
    requires Valid(h) && h.hand != [] && InSet(h, s, i) && h.sets[s][i].Some?
    requires forall c :: !HoldsReference(h, s, i, c)
    requires Valid(m) && m.hand == h.hand && m.sets == TakenFrom(h, s, i).sets
    requires SameAll(TakenFrom(h, s, i), m) && Remains(h, m)
    ensures m.sets[s][i].None? && SetResult(h, PutInto(m, s, i), s, i)
  {
    hide Valid;
    TakenValid(h, s, i);
    PutValid(m, s, i);
    HandLives(m);
    SameButThrough(h, TakenFrom(h, s, i), m, PutInto(m, s, i), Slot(s, i));
  }

  lemma HandLives<V>(m: Heap<V>)
    requires Valid(m) && m.hand != []
    ensures Last(m) in m.objects
  {
    assert Holds(m, Hand(|m.hand| - 1)) == Some(Last(m));
  }

  lemma SameButThrough<V>(h: Heap<V>, a: Heap<V>, m: Heap<V>, r: Heap<V>, x: Holder)
    requires SameBut(h, a, x) && SameAll(a, m) && SameBut(m, r, x)
    ensures SameBut(h, r, x)
  {
    forall s, i | Slot(s, i) != x
      ensures SameAt(h, r, Slot(s, i))
    {
      assert SameAt(a, m, Slot(s, i));
    }
  }

  lemma SameOffThrough<V>(h: Heap<V>, a: Heap<V>, m: Heap<V>, r: Heap<V>, c: Id)
    requires SameOff(h, a, c) && SameAll(a, m) && SameOff(m, r, c)
    ensures SameOff(h, r, c)
  {
    forall s, i
      ensures LocationOf(r, Slot(s, i)) == LocationOf(h, Slot(s, i))
      ensures LocationOf(h, Slot(s, i)) != Some(Shared(c)) ==> SameAt(h, r, Slot(s, i))
    {
      assert SameAt(a, m, Slot(s, i));
    }
  }

  // a is h with the cell of the register emptied, m is a with the old object destroyed.
  lemma SetReference<V>(h: Heap<V>, a: Heap<V>, m: Heap<V>, s: nat, i: nat, c: Id)
    requires Valid(h) && h.hand != [] && HoldsReference(h, s, i, c) && InSet(h, s, i)
    requires SameOff(h, a, c) && a.objects == h.objects && a.cells.Keys == h.cells.Keys && a.sets == h.sets
    requires c in a.cells && a.cells[c].pointer.None?
    requires forall d <- a.cells :: d != c ==> a.cells[d].pointer == h.cells[d].pointer
    requires Valid(m) && m.hand == h.hand && m.sets == a.sets && SameAll(a, m) && Remains(a, m)
    ensures c in m.cells && m.cells[c].pointer.None? && SetResult(h, Pointed(m, c), s, i)
  {
    assert c in m.cells by {
      assert SameAt(a, m, Slot(s, i));
    }
    hide Valid;
    PointedValid(m, c);
    HandLives(m);
    SameOffThrough(h, a, m, Pointed(m, c), c);
  }

  class Memory<V(==)> {
    var objects: map<Id, Object<V>>
    var cells: map<Id, Cell>
    var sets: map<nat, seq<Option<Id>>>
    var next: Id
    ghost var hand: seq<Id>

    ghost function State(): Heap<V>
      reads this
    {
      Heap(objects, cells, sets, hand, next)
    }

    constructor ()
      ensures Valid(State()) && Flat(State()) && sets == map[] && hand == []
    {
      objects, cells, sets, next, hand := map[], map[], map[], 0, [];
    }

    // ----- references -----

    // Run the destructor of the object last in the hand; what only it kept alive is left over.
    method Destruct(id: Id) returns (orphans: seq<Id>)
      requires Counted(State()) && hand != [] && Last(State()) == id && id in objects
      modifies this`objects, this`cells, this`hand
      ensures State() == Destroyed(old(State()))
      ensures hand == old(Rest(State())) + orphans
    {
      var o := objects[id];
      objects := objects - {id};
      orphans := [];
      match o {
        case Data(_) =>
        case Closure(_, captured) => orphans := Present(captured);
        case Reference(c) =>
          var cell := cells[c];
          if cell.count > 1 {
            cells := cells[c := cell.(count := cell.count - 1)];
          } else {
            cells := cells - {c};
            if cell.pointer.Some? {
              orphans := [cell.pointer.value];
            }
          }
      }
      hand := hand[..|hand| - 1] + orphans;
    }

    // delete: run the destructor of an object and of everything that only it kept alive.
    method Delete(id: Id)
      requires Valid(State()) && hand != [] && Last(State()) == id
      modifies this`objects, this`cells, this`hand
      ensures Valid(State()) && SameAll(old(State()), State()) && Remains(old(State()), State())
      ensures Keeps(old(State()), State())
      ensures hand == old(Rest(State())) && id !in objects
    {
      hide Valid, SameAll, Remains, Destroyed, Counted, Keeps;
      ghost var h, base := State(), Rest(State());
      var doomed := [id];
      SameAllNow(h);
      KeepsNow(h);
      while doomed != []
        invariant hand == base + doomed && sets == h.sets && next == h.next
        invariant Valid(State()) && SameAll(h, State()) && Remains(h, State()) && Keeps(h, State())
        invariant id in objects ==> doomed == [id]
        decreases |objects|
      {
        ghost var m := State();
        DestroyStep(h, m);
        var n := |doomed| - 1;
        assert Last(m) == doomed[n] && Rest(m) == base + doomed[..n];
        var orphans := Destruct(doomed[n]);
        doomed := doomed[..n] + orphans;
      }
    }

    // Reference::rebind
    method Rebind(c: Id, id: Id)
      requires Valid(State()) && hand != [] && Last(State()) == id && c in cells
      requires exists s, i :: HoldsReference(State(), s, i, c) && InSet(State(), s, i)
      modifies this`objects, this`cells, this`hand
      ensures forall s, i :: old(HoldsReference(State(), s, i, c) && InSet(State(), s, i)) ==> SetResult(old(State()), State(), s, i)
      ensures Keeps(old(State()), State())
    {
      hide Valid, SetResult, SameAll, SameOff, Keeps;
      ghost var h := State();
      ghost var base := Rest(h);
      var pointer := cells[c].pointer;
      if pointer.Some? {
        UnpointedValid(h, c);
        UnpointedKeeps(h, c);
        cells := cells[c := cells[c].(pointer := None)];
        hand := hand + [pointer.value];
        assert State() == Unpointed(h, c);
        ghost var a := State();
        Delete(pointer.value);
        ghost var m := State();
        forall s, i | HoldsReference(h, s, i, c) && InSet(h, s, i)
          ensures c in m.cells && m.cells[c].pointer.None? && SetResult(h, Pointed(m, c), s, i)
        {
          SetReference(h, a, m, s, i, c);
        }
        PointedKeeps(m, c);
        KeepsThrough(h, a, m);
        KeepsThrough(h, m, Pointed(m, c));
        cells := cells[c := cells[c].(pointer := Some(id))];
        hand := base;
        assert State() == Pointed(m, c);
      } else {
        forall s, i | HoldsReference(h, s, i, c) && InSet(h, s, i)
          ensures SetResult(h, Pointed(h, c), s, i)
        {
          SameAllNow(h);
          SameOffNow(h, c);
          SetReference(h, h, h, s, i, c);
        }
        PointedKeeps(h, c);
        cells := cells[c := cells[c].(pointer := Some(id))];
        hand := base;
        assert State() == Pointed(h, c);
      }
    }

    // RegisterSet::set; the object is lost when there is no such register.
    method Set(s: nat, i: nat, id: Id) returns (ok: bool)
      requires Valid(State()) && hand != [] && Last(State()) == id
      modifies this`objects, this`cells, this`sets, this`hand
      ensures ok <==> old(InSet(State(), s, i))
      ensures ok ==> SetResult(old(State()), State(), s, i) && Keeps(old(State()), State())
      ensures !ok ==> State() == old(Forgotten(State())) && Valid(State())
    {
      hide Valid, SetResult, SameAll, Remains, Keeps;
      ghost var h := State();
      if !(s in sets && i < |sets[s]|) {
        ForgottenValid(h);
        hand := hand[..|hand| - 1];
        return false;
      }
      ok := true;
      var old_ := sets[s][i];
      if old_.None? {
        SetEmpty(h, s, i);
        PutKeeps(h, s, i);
        sets := sets[s := sets[s][i := Some(id)]];
        hand := hand[..|hand| - 1];
        assert State() == PutInto(h, s, i);
        return;
      }
      ReferenceIn(h, s, i);
      var o := objects[old_.value];
      if o.Reference? {
        Rebind(o.cell, id);
        return;
      }
      TakenValid(h, s, i);
      sets := sets[s := sets[s][i := None]];
      hand := hand + [old_.value];
      assert State() == TakenFrom(h, s, i);
      TakenKeeps(h, s, i);
      ghost var t := State();
      Delete(old_.value);
      ghost var m := State();
      assert m.hand == h.hand;
      TakenRemains(h, m, s, i);
      SetOther(h, m, s, i);
      PutKeeps(m, s, i);
      KeepsThrough(h, t, m);
      KeepsThrough(h, m, PutInto(m, s, i));
      sets := sets[s := sets[s][i := Some(id)]];
      hand := hand[..|hand| - 1];
      assert State() == PutInto(m, s, i);
    }

    // ----- register operations -----

    // Whether another register of the set holds the same pointer.
    method HasRefs(s: nat, i: nat) returns (has: bool)
      requires InSet(State(), s, i)
      ensures has <==> exists j :: 0 <= j < |sets[s]| && j != i && sets[s][j] == sets[s][i]
    {
      has := false;
      for j := 0 to |sets[s]|
        invariant !has && forall k | 0 <= k < j && k != i :: sets[s][k] != sets[s][i]
      {
        if j != i && sets[s][j] == sets[s][i] {
          return true;
        }
      }
    }

    // CPU::place.  No two registers hold the same object, so there is never a pointer to update in
    // another register.
    method Place(s: nat, i: nat, id: Id) returns (ok: bool)
      requires Valid(State()) && hand != [] && Last(State()) == id
      modifies this`objects, this`cells, this`sets, this`hand
      ensures ok <==> old(InSet(State(), s, i))
      ensures ok ==> SetResult(old(State()), State(), s, i) && Keeps(old(State()), State())
      ensures !ok ==> State() == old(Forgotten(State())) && Valid(State())
    {
      hide SetResult, Keeps;
      var oldReference: Option<Id> := None;
      if s in sets && i < |sets[s]| {
        var has := HasRefs(s, i);
        if has {
          oldReference := sets[s][i];
          NotHeldTwice(State(), s, i);
        }
      }
      ok := Set(s, i, id);
      assert oldReference.None?;
    }

    method New(o: Object<V>) returns (id: Id)
      requires Valid(State()) && !o.Reference?
      requires o.Closure? ==> forall k | 0 <= k < |o.captured| :: o.captured[k].None?
      modifies this`objects, this`next, this`hand
      ensures State() == Made(old(State()), o) && id == old(next)
      ensures Valid(State()) && SameAll(old(State()), State()) && Extends(old(State()), State()) && Keeps(old(State()), State())
    {
      MadeKeeps(State(), o);
      MadeValid(State(), o);
      MadeExtends(State(), o);
      id := next;
      objects := objects[id := o];
      next := next + 1;
      hand := hand + [id];
    }

    // Reference::copy
    method CopyReference(c: Id) returns (id: Id)
      requires Valid(State()) && c in cells
      modifies this`objects, this`cells, this`next, this`hand
      ensures State() == MadeReference(old(State()), c) && id == old(next)
      ensures Valid(State()) && SameAll(old(State()), State()) && Extends(old(State()), State()) && Keeps(old(State()), State())
    {
      hide Valid, SameAll, Extends, Keeps;
      MadeReferenceValid(State(), c);
      BoundedNow(State());
      MadeReferenceKeeps(State(), c);
      MadeReferenceExtends(State(), c);
      id := next;
      objects := objects[id := Reference(c)];
      cells := cells[c := cells[c].(count := cells[c].count + 1)];
      next := next + 1;
      hand := hand + [id];
    }

    // Put a copy of the reference to c in a register; it is lost when there is no such register.
    method PutReference(s: nat, i: nat, c: Id) returns (ok: bool)
      requires Valid(State()) && hand == [] && c in cells
      modifies this
      ensures Valid(State()) && hand == []
      ensures ok <==> old(InSet(State(), s, i))
      ensures var a := old(MadeReference(State(), c));
              && Valid(a) && a.hand != [] && SameAll(old(State()), a)
              && if ok then SetResult(a, State(), s, i) else State() == Forgotten(a)
      ensures SameShape(old(State()), State())
      ensures KeepsOld(old(State()), State()) && (ok ==> Keeps(old(State()), State()))
    {
      hide Valid, SetResult, SameAll, Extends, MadeReference, Forgotten, Keeps, KeepsOld;
      ghost var h := State();
      MadeHand(h, c);
      var copy := CopyReference(c);
      ghost var a := State();
      ForgottenHand(a);
      ok := Set(s, i, copy);
      if ok {
        SetBasics(a, State(), s, i);
        SetSizes(a, State(), s, i);
        KeepsThrough(h, a, State());
      } else {
        NewForgotten(h, a);
      }
    }

    // Reference::Reference, for the object last in the hand or for a null pointer.
    method NewReference(pointer: Option<Id>) returns (id: Id)
      requires Valid(State()) && (pointer.Some? ==> hand != [] && Last(State()) == pointer.value)
      modifies this`objects, this`cells, this`next, this`hand
      ensures State() == Wrapped(old(State()), pointer.Some?) && id == old(next) + 1
      ensures Valid(State()) && SameAll(old(State()), State()) && Keeps(old(State()), State())
    {
      WrappedKeeps(State(), pointer.Some?);
      WrappedValid(State(), pointer.Some?);
      id := next + 1;
      cells := cells[next := Cell(pointer, 1)];
      objects := objects[id := Reference(next)];
      next := next + 2;
      hand := (if pointer.Some? then hand[..|hand| - 1] else hand) + [id];
    }

    // CPU::ref
    method Ref(s: nat, destination: nat, source: nat) returns (r: Outcome)
      requires Valid(State()) && hand == []
      modifies this
      ensures Valid(State()) && hand == []
      ensures r == if old(InSet(State(), s, source) && InSet(State(), s, destination)) then Completed else Raised
      ensures r.Completed? && old(Flat(State())) ==>
                var h := old(State()); var x, y := Slot(s, destination), Slot(s, source);
                if destination != source && !(LocationOf(h, x).Some? && LocationOf(h, x).value.Shared?)
                then Joined(h, State(), x, y) && Flat(State())
                else !Flat(State())
      ensures r.Raised? && old(Flat(State())) ==>
                && Flat(State())
                && if old(InSet(State(), s, source)) then Boxed(old(State()), State(), Slot(s, source))
                   else SameAll(old(State()), State())
      ensures SameShape(old(State()), State())
      ensures KeepsOld(old(State()), State()) && (r.Completed? ==> Keeps(old(State()), State()))
    {
      hide Valid, SetResult, Flat, Joined, SameAll, Boxed, MadeReference, Forgotten, Keeps, KeepsOld;
      ghost var h := State();
      KeepsNow(h);
      if !(s in sets && source < |sets[s]|) {
        SameAllNow(h);
        return Raised;
      }
      var held := sets[s][source];
      var c: Id;
      if held.Some? {
        ReferenceIn(h, s, source);
      }
      if held.Some? && objects[held.value].Reference? {
        c := objects[held.value].cell;
      } else {
        c := MakeShared(s, source, held);
      }
      ghost var m := State();
      assert InSet(m, s, destination) <==> InSet(h, s, destination);
      var ok := PutReference(s, destination, c);
      r := if ok then Completed else Raised;
      KeptAfter(h, m, State(), ok);
      if Flat(h) {
        if ok {
          JoinedResult(h, m, MadeReference(m, c), State(), s, destination, source, c);
        } else {
          BoxedResult(h, m, MadeReference(m, c), s, source, c);
        }
      }
    }

    // Replace what register (s, i) holds by a reference to it.
    method MakeShared(s: nat, i: nat, held: Option<Id>) returns (c: Id)
      requires Valid(State()) && InSet(State(), s, i) && sets[s][i] == held
      requires held.Some? ==> held.value in objects && !objects[held.value].Reference?
      modifies this
      ensures Valid(State()) && hand == old(hand) && c in cells && SharedResult(old(State()), State(), s, i, c)
      ensures forall id <- objects :: old(id in objects) ==> objects[id] == old(objects[id])
      ensures sets.Keys == old(sets.Keys) && |sets[s]| == |old(sets[s])|
      ensures Keeps(old(State()), State()) && next >= old(next)
    {
      hide Valid, SetResult, SameAll, Keeps;
      ghost var h := State();
      KeepsNow(h);
      c := next;
      if held.Some? {
        TakenValid(h, s, i);
        TakenKeeps(h, s, i);
        sets := sets[s := sets[s][i := None]];
        hand := hand + [held.value];
        assert State() == TakenFrom(h, s, i);
      }
      ghost var taken := State();
      var reference := NewReference(held);
      ghost var wrapped := State();
      var ok := Set(s, i, reference);
      MakeSharedResult(h, taken, wrapped, State(), s, i);
      KeepsThrough(h, taken, wrapped);
      KeepsThrough(h, wrapped, State());
    }

    // CPU::fetch: what a register or the reference in it points to.
    method Fetch(s: nat, i: nat) returns (r: Outcome, pointer: Option<Id>)
      requires Valid(State())
      ensures r == if InSet(State(), s, i) && sets[s][i].Some? then Completed else Raised
      ensures r.Completed? ==> LocationOf(State(), Slot(s, i)).Some? && pointer == ObjectAt(State(), LocationOf(State(), Slot(s, i)).value)
      ensures r.Completed? && pointer.Some? ==> pointer.value in objects && ContentAt(State(), Slot(s, i)) == Some(ContentOfObject(objects[pointer.value]))
    {
      pointer := None;
      if !(s in sets && i < |sets[s]|) || sets[s][i].None? {
        return Raised, None;
      }
      r, pointer := Completed, sets[s][i];
      ReferenceIn(State(), s, i);
      assert Holds(State(), Slot(s, i)) == sets[s][i];
      var o := objects[pointer.value];
      if o.Reference? {
        pointer := cells[o.cell].pointer;
        SharedContent(State(), Slot(s, i), o.cell);
      }
    }

    // The copy method of an object; a closure copies the references it has captured.
    method CopyObject(id: Id) returns (copy: Id)
      requires Valid(State()) && id in objects
      modifies this`objects, this`cells, this`next, this`hand
      ensures Valid(State()) && SameAll(old(State()), State()) && Extends(old(State()), State()) && Keeps(old(State()), State())
      ensures copy == old(next) && hand == old(hand) + [copy] && copy in objects && CopyOf(State(), objects[copy], old(objects[id]))
    {
      hide Keeps;
      match objects[id] {
        case Data(v) => copy := New(Data(v));
        case Closure(name, captured) => copy := CopyClosure(name, captured, id);
        case Reference(c) => copy := CopyReference(c);
      }
    }

    method CopyClosure(name: Name, captured: seq<Option<Id>>, id: Id) returns (copy: Id)
      requires Valid(State()) && id in objects && objects[id] == Closure(name, captured)
      modifies this`objects, this`cells, this`next, this`hand
      ensures Valid(State()) && SameAll(old(State()), State()) && Extends(old(State()), State()) && Keeps(old(State()), State())
      ensures copy == old(next) && hand == old(hand) + [copy] && copy in objects && CopyOf(State(), objects[copy], old(objects[id]))
    {
      hide Valid, SameAll, Extends, CopiedSoFar, Keeps;
      ghost var h := State();
      copy := New(Closure(name, Empty(|captured|)));
      CopiedNothing(h, State(), copy, name, captured);
      for i := 0 to |captured|
        invariant Valid(State()) && SameAll(h, State()) && Extends(h, State()) && hand == h.hand + [copy]
        invariant Keeps(h, State())
        invariant CopiedSoFar(h, State(), copy, name, captured, i)
      {
        ghost var m := State();
        IsClosure(h, m, copy, name, captured, i);
        if captured[i].Some? {
          CapturedReference(h, m, id, i);
          var reference := CopyReference(objects[captured[i].value].cell);
          ghost var a := State();
          CopiedStep(h, m, copy, name, captured, i);
          var closure := objects[copy];
          objects := objects[copy := closure.(captured := closure.captured[i := Some(reference)])];
          hand := hand[..|hand| - 1];
          assert State() == CapturedBy(a, copy, i);
          CapturedStep(h, m, a, copy, i);
        } else {
          CopiedSkip(h, m, copy, name, captured, i);
        }
      }
      CopiedAll(h, State(), copy, name, captured);
    }

    // CPU::copy
    method Copy(s: nat, destination: nat, source: nat) returns (r: Outcome)
      requires Valid(State()) && hand == []
      modifies this
      ensures Valid(State()) && hand == []
      ensures r.Crashed? <==> old(InSet(State(), s, source) && sets[s][source].Some? && ContentAt(State(), Slot(s, source)).None?)
      ensures r.Completed? <==> old(InSet(State(), s, destination) && ContentAt(State(), Slot(s, source)).Some?)
      ensures old(Flat(State())) ==>
                && Flat(State())
                && (!r.Completed? ==> SameAll(old(State()), State()))
                && (r.Completed? ==>
                      Wrote(old(State()), State(), Slot(s, destination), old(ContentAt(State(), Slot(s, source))).value))
      ensures SameShape(old(State()), State())
      ensures KeepsOld(old(State()), State()) && (r.Completed? ==> Keeps(old(State()), State()))
    {
      hide Valid, SameAll, Flat, SetResult, Wrote, Extends, Keeps, KeepsOld;
      ghost var h := State();
      SameAllNow(h);
      KeepsNow(h);
      var pointer;
      r, pointer := Fetch(s, source);
      SeenThrough(h, s, source, r.Completed?, pointer);
      if r.Raised? {
        return;
      }
      if pointer.None? {
        r := Crashed;
        return;
      }
      var copy := CopyObject(pointer.value);
      ghost var a := State();
      ExtendsSets(h, a, s, destination);
      var ok := Place(s, destination, copy);
      if ok {
        SetBasics(a, State(), s, destination);
        SetSizes(a, State(), s, destination);
        KeepsThrough(h, a, State());
      } else {
        r := Raised;
        NewForgotten(h, a);
      }
      if Flat(h) {
        ExtendsFlat(h, a);
        FlatPointer(h, s, source, pointer.value);
        if ok {
          SetWrote(a, State(), s, destination);
          WroteFrom(h, a, State(), Slot(s, destination), ContentOfObject(a.objects[copy]));
        } else {
          ForgottenValid(a);
          ForgottenFlat(a);
          SameAllTransitive(h, a, State());
        }
      }
    }

    // Put a new object in a register.
    method Store(s: nat, i: nat, o: Object<V>) returns (ok: bool)
      requires Valid(State()) && hand == [] && o.Data?
      modifies this
      ensures Valid(State()) && hand == [] && (ok <==> old(InSet(State(), s, i)))
      ensures old(Flat(State())) ==>
                && Flat(State())
                && (ok ==> Wrote(old(State()), State(), Slot(s, i), ContentOfObject(o)))
                && (!ok ==> SameAll(old(State()), State()))
      ensures SameShape(old(State()), State())
      ensures KeepsOld(old(State()), State()) && (ok ==> Keeps(old(State()), State()))
    {
      hide Valid, SameAll, Flat, SetResult, Wrote, Extends, ContentOfObject, Forgotten, Made, Keeps, KeepsOld;
      ghost var h := State();
      MadeLast(h, o);
      var id := New(o);
      ghost var a := State();
      ExtendsSets(h, a, s, i);
      ok := Place(s, i, id);
      ghost var r := State();
      if ok {
        SetBasics(a, r, s, i);
        SetSizes(a, r, s, i);
        KeepsThrough(h, a, r);
      } else {
        ForgottenHand(a);
        NewForgotten(h, a);
      }
      if Flat(h) {
        StoreResult(h, a, r, s, i, o, ok);
      }
    }

    // CPU::isnull: yes and no are the two boolean values.
    method IsNull(s: nat, destination: nat, checked: nat, yes: V, no: V) returns (r: Outcome)
      requires Valid(State()) && hand == []
      modifies this
      ensures Valid(State()) && hand == []
      ensures r == if old(InSet(State(), s, checked) && InSet(State(), s, destination)) then Completed else Raised
      ensures old(Flat(State())) ==>
                && Flat(State())
                && (r.Completed? ==>
                      Wrote(old(State()), State(), Slot(s, destination),
                            Value(if old(LocationOf(State(), Slot(s, checked))).None? then yes else no)))
                && (r.Raised? ==> SameAll(old(State()), State()))
      ensures SameShape(old(State()), State())
      ensures KeepsOld(old(State()), State()) && (r.Completed? ==> Keeps(old(State()), State()))
    {
      hide Keeps, KeepsOld;
      KeepsNow(State());
      SameAllNow(State());
      if !(s in sets && checked < |sets[s]|) {
        return Raised;
      }
      var ok := Store(s, destination, Data(if sets[s][checked].None? then yes else no));
      r := if ok then Completed else Raised;
    }

    // RegisterSet::swap
    method Swap(s: nat, i: nat, j: nat) returns (ok: bool)
      requires Valid(State()) && hand == []
      modifies this`sets
      ensures Valid(State()) && (ok <==> InSet(State(), s, i) && InSet(State(), s, j))
      ensures old(Flat(State())) ==> Flat(State())
      ensures ok ==> Exchanged(old(State()), State(), Slot(s, i), Slot(s, j))
      ensures !ok ==> State() == old(State())
      ensures SameShape(old(State()), State())
      ensures Keeps(old(State()), State())
    {
      hide Valid, Exchanged, Flat, Keeps;
      KeepsNow(State());
      if !(s in sets && i < |sets[s]| && j < |sets[s]|) {
        return false;
      }
      SwapValid(State(), s, i, j);
      SwappedKeeps(State(), s, i, j);
      var registers := sets[s];
      sets := sets[s := registers[i := registers[j]][j := registers[i]]];
      assert State() == Swapped(old(State()), s, i, j);
      ok := true;
    }

    // RegisterSet::free
    method Free(s: nat, i: nat) returns (ok: bool)
      requires Valid(State()) && hand == []
      modifies this
      ensures Valid(State()) && hand == [] && (ok <==> old(InSet(State(), s, i) && sets[s][i].Some?))
      ensures old(Flat(State())) ==> Flat(State())
      ensures ok ==> Cleared(old(State()), State(), Slot(s, i)) && old(sets[s][i]).value !in objects
      ensures !ok ==> State() == old(State())
      ensures SameShape(old(State()), State())
      ensures Keeps(old(State()), State())
    {
      hide Valid, SameAll, Flat, Cleared, Keeps;
      KeepsNow(State());
      if !(s in sets && i < |sets[s]|) || sets[s][i].None? {
        return false;
      }
      ghost var h := State();
      var id := sets[s][i].value;
      TakenValid(h, s, i);
      TakenKeeps(h, s, i);
      sets := sets[s := sets[s][i := None]];
      hand := hand + [id];
      assert State() == TakenFrom(h, s, i);
      ghost var t := State();
      Delete(id);
      KeepsThrough(h, t, State());
      ClearedResult(h, t, State(), s, i);
      ok := true;
    }

    // CPU::empty: a reference is destroyed, any other object is only forgotten.
    method Clear(s: nat, i: nat) returns (ok: bool)
      requires Valid(State()) && hand == []
      modifies this
      ensures Valid(State()) && hand == [] && (ok <==> old(InSet(State(), s, i) && sets[s][i].Some?))
      ensures old(Flat(State())) ==> Flat(State())
      ensures ok ==> Cleared(old(State()), State(), Slot(s, i))
      ensures !ok ==> State() == old(State())
      ensures SameShape(old(State()), State())
      ensures ok && old(IsReference(State(), sets[s][i].value)) ==> Keeps(old(State()), State())
      ensures ok && !old(IsReference(State(), sets[s][i].value)) ==>
                forall id :: Lost(State(), id) ==> Lost(old(State()), id) || id == old(sets[s][i]).value
      ensures ok && !old(IsReference(State(), sets[s][i].value)) ==> Lost(State(), old(sets[s][i]).value)
    {
      hide Valid, SameAll, Flat, Cleared, Keeps, Lost;
      if !(s in sets && i < |sets[s]|) || sets[s][i].None? {
        return false;
      }
      ok := true;
      var id := sets[s][i].value;
      ReferenceIn(State(), s, i);
      if objects[id].Reference? {
        ok := Free(s, i);
        return;
      }
      ghost var h := State();
      TakenValid(h, s, i);
      sets := sets[s := sets[s][i := None]];
      ghost var t := TakenFrom(h, s, i);
      assert State() == Forgotten(t);
      TakenForgotten(h, s, i);
      ForgottenValid(t);
      TakenRemains(h, t, s, i) by {
        SameAllNow(t);
      }
      ClearedResult(h, t, State(), s, i);
    }

    // ----- register sets -----

    method NewSet(s: nat, n: nat)
      requires Valid(State()) && s !in sets
      modifies this`sets
      ensures Valid(State()) && sets == old(sets)[s := Empty(n)] && SameAll(old(State()), State())
      ensures old(Flat(State())) ==> Flat(State())
      ensures Keeps(old(State()), State())
    {
      NewSetKeeps(State(), s, n);
      NewSetValid(State(), s, n);
      sets := sets[s := Empty(n)];
    }

    // Delete the object of one register.
    method Drop(s: nat, i: nat)
      requires Valid(State()) && InSet(State(), s, i) && sets[s][i].Some?
      modifies this
      ensures Valid(State()) && hand == old(hand) && sets == old(sets[s := sets[s][i := None]])
      ensures old(sets[s][i]).value !in objects && Remains(old(State()), State()) && SameBut(old(State()), State(), Slot(s, i))
      ensures Keeps(old(State()), State())
    {
      hide Valid, SameAll, Keeps;
      ghost var m := State();
      var id := sets[s][i].value;
      TakenValid(m, s, i);
      TakenKeeps(m, s, i);
      sets := sets[s := sets[s][i := None]];
      hand := hand + [id];
      ghost var t := State();
      assert t == TakenFrom(m, s, i);
      Delete(id);
      KeepsThrough(m, t, State());
      SameButAfter(m, t, State(), Slot(s, i));
    }

    // Leave the object of one register alone: whoever flagged the register holds it now.
    method Leave(s: nat, i: nat)
      requires Valid(State()) && InSet(State(), s, i) && sets[s][i].Some?
      modifies this
      ensures Valid(State()) && hand == old(hand + [sets[s][i].value]) && sets == old(sets[s := sets[s][i := None]])
      ensures Remains(old(State()), State()) && SameBut(old(State()), State(), Slot(s, i))
      ensures Keeps(old(State()), State())
    {
      hide Valid, SameAll, Keeps;
      ghost var m := State();
      TakenValid(m, s, i);
      TakenKeeps(m, s, i);
      hand := hand + [sets[s][i].value];
      sets := sets[s := sets[s][i := None]];
      assert State() == TakenFrom(m, s, i);
      SameAllNow(State());
      TakenRemains(m, State(), s, i);
    }

    // The destructor of a register set, and with it of a frame: every object left in it is deleted,
    // but for those in registers flagged to be kept, which go on living in the hand.
    method DropSet(s: nat, kept: set<nat>)
      requires Valid(State()) && hand == [] && s in sets
      modifies this
      ensures Valid(State()) && sets == old(sets) - {s}
      ensures hand == KeptIn(old(sets)[s], kept, |old(sets)[s]|)
      ensures forall i | 0 <= i < |old(sets[s])| && old(sets[s])[i].Some? :: i in kept || old(sets[s])[i].value !in objects
      ensures forall i | 0 <= i < |old(sets[s])| && old(sets[s])[i].Some? :: i in kept ==> old(sets[s])[i].value in objects
      ensures forall t, j :: t != s ==> SameAt(old(State()), State(), Slot(t, j))
      ensures old(Flat(State())) ==> Flat(State())
      ensures Keeps(old(State()), State())
    {
      hide Valid, SameAll, Flat, Cleared, SameBut, SameOutside, KeptIn, Keeps;
      ghost var h := State();
      KeepsNow(h);
      SameAllNow(h);
      SameOutsideNow(h, s);
      KeptNone(h.sets[s], kept);
      for i := 0 to |sets[s]|
        invariant s in sets && sets == h.sets[s := sets[s]] && |sets[s]| == |h.sets[s]|
        invariant Valid(State()) && Remains(h, State()) && SameOutside(h, State(), s) && Keeps(h, State())
        invariant hand == KeptIn(h.sets[s], kept, i)
        invariant forall k | 0 <= k < i :: sets[s][k].None?
        invariant forall k | i <= k < |sets[s]| :: sets[s][k] == h.sets[s][k]
        invariant forall k | 0 <= k < i && h.sets[s][k].Some? :: k in kept || h.sets[s][k].value !in objects
      {
        KeptNext(h.sets[s], kept, i);
        if sets[s][i].Some? {
          ghost var m := State();
          if i in kept {
            Leave(s, i);
          } else {
            Drop(s, i);
          }
          DroppedOne(h, m, State(), s, i);
          KeepsThrough(h, m, State());
        }
      }
      ghost var e := State();
      sets := sets - {s};
      EmptySetGone(e, s);
      EmptySetKeeps(e, s);
      KeepsThrough(h, e, State());
      if Flat(h) {
        FlatKept(h, e);
      }
      SameOutsideGone(h, e, s);
      OutsideMeaning(h, State(), s);
      KeptLives(State(), h.sets[s], kept);
    }

    // Share register i with the closure.
    method Bind(s: nat, i: nat, closure: Id, ghost h: Heap<V>, ghost name: Name, ghost bind: set<nat>)
      requires Valid(State()) && hand == [closure] && InSet(State(), s, i) && sets[s][i].Some? && i in bind
      requires s in h.sets && |sets[s]| == |h.sets[s]| && Bound(h, State(), s, closure, name, bind, i)
      modifies this
      ensures Valid(State()) && hand == [closure] && sets.Keys == old(sets.Keys) && |sets[s]| == |old(sets[s])|
      ensures Bound(h, State(), s, closure, name, bind, i + 1) && Renamed(old(State()), State())
      ensures old(Flat(State())) ==> Flat(State())
      ensures Keeps(old(State()), State()) && next >= old(next)
    {
      hide Valid, SameAll, Flat, SharedResult, Bound, Renamed, SetResult, Keeps;
      ghost var m := State();
      KeepsNow(m);
      var held := sets[s][i];
      ReferenceIn(m, s, i);
      var c: Id;
      if objects[held.value].Reference? {
        c := objects[held.value].cell;
        RenamedNow(m);
      } else {
        c := MakeShared(s, i, held);
        SharedRenamed(m, State(), s, i, c);
      }
      ghost var a := State();
      BoundShared(h, m, a, s, closure, name, bind, i, c);
      var reference := CopyReference(c);
      BoundStep(h, a, s, closure, name, bind, i, c);
      var o := objects[closure];
      objects := objects[closure := o.(captured := o.captured[i := Some(reference)])];
      hand := [closure];
      assert State() == CapturedBy(MadeReference(a, c), closure, i);
      CapturedStep(m, a, MadeReference(a, c), closure, i);
      RenamedTransitive(m, a, State());
    }

    // CPU::closure: every used register marked in bind is shared with the closure, which is then put
    // in the target register, and loses its mark.  Only the registers of the current frame will do.
    method Capture(s: nat, current: nat, target: nat, name: Name, bind: set<nat>) returns (r: Outcome, left: set<nat>)
      requires Valid(State()) && hand == [] && s in sets
      modifies this
      ensures Valid(State()) && hand == []
      ensures r == if s == current && old(InSet(State(), s, target)) then Completed else Raised
      ensures s != current ==> State() == old(State()) && left == bind
      ensures s == current ==> left == bind - Used(old(State()), s, |old(sets)[s]|)
      ensures old(Flat(State())) ==>
                && Flat(State())
                && (r.Completed? ==> CaptureResult(old(State()), State(), s, target, name, bind))
                && (r.Raised? ==> Renamed(old(State()), State()))
      ensures KeepsOld(old(State()), State()) && (r.Completed? ==> Keeps(old(State()), State()))
    {
      hide Valid, SameAll, Flat, SharedResult, Bound, Renamed, SetResult, Keeps, KeepsOld;
      ghost var h := State();
      KeepsNow(h);
      left := bind;
      if s != current {
        RenamedNow(h);
        return Raised, bind;
      }
      var closure := New(Closure(name, Empty(|sets[s]|)));
      BoundNothing(h, State(), s, closure, name, bind);
      for i := 0 to |sets[s]|
        invariant Valid(State()) && hand == [closure] && s in sets && |sets[s]| == |h.sets[s]| && h.sets.Keys == sets.Keys
        invariant Bound(h, State(), s, closure, name, bind, i) && Renamed(h, State()) && (Flat(h) ==> Flat(State()))
        invariant left == bind - Used(h, s, i)
        invariant Keeps(h, State()) && h.next <= next && closure == h.next
      {
        ghost var m := State();
        BoundUsed(h, m, s, closure, name, bind, i);
        UsedNext(h, s, i);
        if sets[s][i].Some? && i in left {
          left := left - {i};
          Bind(s, i, closure, h, name, bind);
          KeepsThrough(h, m, State());
          RenamedTransitive(h, m, State());
        } else {
          BoundSkip(h, m, s, closure, name, bind, i);
        }
      }
      ghost var b := State();
      BoundDone(h, b, s, closure, name, bind);
      var ok := Place(s, target, closure);
      r := if ok then Completed else Raised;
      if ok {
        SetBasics(b, State(), s, target);
        KeepsThrough(h, b, State());
      } else {
        NewForgotten(h, b);
      }
      if Flat(h) {
        if ok {
          SetWrote(b, State(), s, target);
          CaptureDone(h, b, State(), s, target, closure, name, bind);
        } else {
          ForgottenValid(b);
          ForgottenFlat(b);
          SameIsRenamed(b, State());
          RenamedTransitive(h, b, State());
        }
      }
    }
  }

  // The objects in the first n registers that are to be kept, in order.
  ghost function KeptIn(registers: seq<Option<Id>>, kept: set<nat>, n: nat): (ids: seq<Id>)
    requires n <= |registers|
    ensures forall i | 0 <= i < n && i in kept && registers[i].Some? :: registers[i].value in ids
  {
    if n == 0 then []
    else KeptIn(registers, kept, n - 1) + (if n - 1 in kept && registers[n - 1].Some? then [registers[n - 1].value] else [])
  }

  lemma KeptNone(registers: seq<Option<Id>>, kept: set<nat>)
    ensures KeptIn(registers, kept, 0) == []
  {
  }

  lemma KeptNext(registers: seq<Option<Id>>, kept: set<nat>, i: nat)
    requires i < |registers|
    ensures KeptIn(registers, kept, i + 1) ==
            KeptIn(registers, kept, i) + (if i in kept && registers[i].Some? then [registers[i].value] else [])
  {
  }

  lemma KeptLives<V>(h: Heap<V>, registers: seq<Option<Id>>, kept: set<nat>)
    requires Valid(h) && h.hand == KeptIn(registers, kept, |registers|)
    ensures forall i | 0 <= i < |registers| && i in kept && registers[i].Some? :: registers[i].value in h.objects
  {
    forall i | 0 <= i < |registers| && i in kept && registers[i].Some?
      ensures registers[i].value in h.objects
    {
      var k :| 0 <= k < |h.hand| && h.hand[k] == registers[i].value;
      assert Holds(h, Hand(k)) == registers[i];
    }
  }

  // The registers below n that hold something.
  function Used<V>(h: Heap<V>, s: nat, n: nat): set<nat> {
    set k | 0 <= k < n && InSet(h, s, k) && h.sets[s][k].Some?
  }

  lemma UsedNext<V>(h: Heap<V>, s: nat, i: nat)
    requires InSet(h, s, i)
    ensures Used(h, s, i + 1) == Used(h, s, i) + (if h.sets[s][i].Some? then {i} else {})
    ensures i !in Used(h, s, i)
  {
  }

  // A register made a reference to itself: the reference points to a reference.
  method RefOntoItself<V(==)>() returns (memory: Memory<V>)
    ensures fresh(memory) && Valid(memory.State()) && !Flat(memory.State())
  {
    memory := new Memory();
    memory.NewSet(0, 1);
    var r := memory.Ref(0, 0, 0);
  }

  // The register (s, i) now holds the only reference to a new cell with its former content.
  ghost predicate SharedResult<V>(h: Heap<V>, r: Heap<V>, s: nat, i: nat, c: Id) {
    && InSet(h, s, i) && r.sets.Keys == h.sets.Keys && (forall t <- r.sets :: |r.sets[t]| == |h.sets[t]|)
    && !(LocationOf(h, Slot(s, i)).Some? && LocationOf(h, Slot(s, i)).value.Shared?)
    && SameBut(h, r, Slot(s, i)) && HoldsReference(r, s, i, c) && ContentAt(r, Slot(s, i)) == ContentAt(h, Slot(s, i))
    && (forall t, j :: Slot(t, j) != Slot(s, i) ==> !HoldsReference(r, t, j, c))
    && (Flat(h) ==> Flat(r))
  }

  lemma NotHeldTwice<V>(h: Heap<V>, s: nat, i: nat)
    requires Valid(h) && InSet(h, s, i)
    requires exists j :: 0 <= j < |h.sets[s]| && j != i && h.sets[s][j] == h.sets[s][i]
    ensures h.sets[s][i].None?
  {
    var j :| 0 <= j < |h.sets[s]| && j != i && h.sets[s][j] == h.sets[s][i];
    assert Holds(h, Slot(s, i)) == h.sets[s][i] && Holds(h, Slot(s, j)) == h.sets[s][j];
  }

  lemma MadeExtends<V>(h: Heap<V>, o: Object<V>)
    requires Bounded(h)
    ensures Extends(h, Made(h, o))
  {
  }

  lemma MadeReferenceExtends<V>(h: Heap<V>, c: Id)
    requires Bounded(h) && c in h.cells
    ensures Extends(h, MadeReference(h, c))
  {
  }

  lemma MadeHand<V>(h: Heap<V>, c: Id)
    requires c in h.cells
    ensures MadeReference(h, c).hand == h.hand + [h.next] && MadeReference(h, c).sets == h.sets
  {
  }

  lemma BoundedNow<V>(h: Heap<V>)
    requires Valid(h)
    ensures Bounded(h)
  {
  }

  lemma TakenRemains<V>(h: Heap<V>, m: Heap<V>, s: nat, i: nat)
    requires InSet(h, s, i) && h.sets[s][i].Some? && Remains(TakenFrom(h, s, i), m)
    ensures Remains(h, m)
  {
  }

  lemma SameOffNow<V>(h: Heap<V>, c: Id)
    ensures SameOff(h, h, c)
  {
  }

  lemma ReferenceIn<V>(h: Heap<V>, s: nat, i: nat)
    requires Valid(h) && InSet(h, s, i) && h.sets[s][i].Some?
    ensures h.sets[s][i].value in h.objects
    ensures var o := h.objects[h.sets[s][i].value];
            && (o.Reference? ==> HoldsReference(h, s, i, o.cell) && o.cell in h.cells)
            && (forall c :: HoldsReference(h, s, i, c) <==> o.Reference? && c == o.cell)
  {
    assert Holds(h, Slot(s, i)) == h.sets[s][i];
  }

  // A new object that is let go of is all that is lost.
  lemma NewForgotten<V>(h: Heap<V>, a: Heap<V>)
    requires Keeps(h, a) && Valid(a) && a.hand != [] && Last(a) >= h.next
    ensures KeepsOld(h, Forgotten(a))
  {
    ForgottenLoses(a);
  }

  lemma KeptAfter<V>(h: Heap<V>, m: Heap<V>, r: Heap<V>, ok: bool)
    requires Keeps(h, m) && KeepsOld(m, r) && (ok ==> Keeps(m, r)) && h.next <= m.next
    ensures KeepsOld(h, r) && (ok ==> Keeps(h, r))
  {
  }

  // One more reference in a closure.
  lemma CapturedStep<V>(h: Heap<V>, m: Heap<V>, a: Heap<V>, closure: Id, i: nat)
    requires Keeps(h, m) && Keeps(m, a) && a.hand != []
    requires closure in a.objects && a.objects[closure].Closure? && i < |a.objects[closure].captured|
    requires a.objects[closure].captured[i].None?
    ensures Keeps(h, CapturedBy(a, closure, i))
  {
    hide Keeps;
    CapturedKeeps(a, closure, i);
    KeepsThrough(h, m, a);
    KeepsThrough(h, a, CapturedBy(a, closure, i));
  }

  lemma TakenForgotten<V>(h: Heap<V>, s: nat, i: nat)
    requires Valid(h) && InSet(h, s, i) && h.sets[s][i].Some?
    ensures var r := Forgotten(TakenFrom(h, s, i));
            && Lost(r, h.sets[s][i].value)
            && forall id :: Lost(r, id) ==> Lost(h, id) || id == h.sets[s][i].value
  {
    hide Valid, Lost;
    TakenValid(h, s, i);
    TakenKeeps(h, s, i);
    ForgottenLoses(TakenFrom(h, s, i));
  }

  lemma SwappedKeeps<V>(h: Heap<V>, s: nat, i: nat, j: nat)
    requires InSet(h, s, i) && InSet(h, s, j)
    ensures Keeps(h, Swapped(h, s, i, j))
  {
    var target: Holder -> Holder := x => if x == Slot(s, i) then Slot(s, j) else if x == Slot(s, j) then Slot(s, i) else x;
    HeldOn(h, Swapped(h, s, i, j), target, Hand(0));
  }

  lemma NewSetKeeps<V>(h: Heap<V>, s: nat, n: nat)
    requires s !in h.sets
    ensures Keeps(h, h.(sets := h.sets[s := Empty(n)]))
  {
    HeldOn(h, h.(sets := h.sets[s := Empty(n)]), x => x, Hand(0));
  }

  lemma EmptySetKeeps<V>(h: Heap<V>, s: nat)
    requires s in h.sets && forall k | 0 <= k < |h.sets[s]| :: h.sets[s][k].None?
    ensures Keeps(h, h.(sets := h.sets - {s}))
  {
    HeldOn(h, h.(sets := h.sets - {s}), x => x, Hand(0));
  }

  lemma DestroyStep<V>(h: Heap<V>, m: Heap<V>)
    requires Valid(m) && SameAll(h, m) && Remains(h, m) && Keeps(h, m) && m.hand != []
    ensures Counted(m) && Last(m) in m.objects
    ensures var r := Destroyed(m);
            && Valid(r) && SameAll(h, r) && Remains(h, r) && Keeps(h, r) && r.sets == m.sets && r.next == m.next
            && Last(m) !in r.objects && |r.objects| < |m.objects|
            && (forall id :: id !in m.objects ==> id !in r.objects)
  {
    DestroyedValid(m);
    DestroyedSame(m);
    DestroyedRemains(m);
    DestroyedKeeps(m);
    KeepsThrough(h, m, Destroyed(m));
    SameAllTransitive(h, m, Destroyed(m));
    RemainsTransitive(h, m, Destroyed(m));
  }

  lemma SameAllNow<V>(h: Heap<V>)
    ensures SameAll(h, h) && Remains(h, h)
  {
  }

  lemma SetBasics<V>(h: Heap<V>, r: Heap<V>, s: nat, i: nat)
    requires h.hand != [] && SetResult(h, r, s, i)
    ensures Valid(r) && r.hand == Rest(h)
  {
  }

  // What is in a register that held no reference before it was set.
  lemma SetPlain<V>(h: Heap<V>, r: Heap<V>, s: nat, i: nat)
    requires h.hand != [] && SetResult(h, r, s, i) && forall c :: !HoldsReference(h, s, i, c)
    ensures SameBut(h, r, Slot(s, i)) && Holds(r, Slot(s, i)) == Some(Last(h)) && Last(h) in r.objects
    ensures Last(h) in h.objects && r.objects[Last(h)] == h.objects[Last(h)]
    ensures forall c <- r.cells :: c in h.cells && r.cells[c].pointer == h.cells[c].pointer
  {
  }

  // Pointers kept: what a reference in r points to.
  lemma SharedContent<V>(r: Heap<V>, x: Holder, c: Id)
    requires Valid(r) && LocationOf(r, x) == Some(Shared(c))
    ensures c in r.cells
    ensures r.cells[c].pointer.Some? ==>
              && r.cells[c].pointer.value in r.objects
              && ContentAt(r, x) == Some(ContentOfObject(r.objects[r.cells[c].pointer.value]))
    ensures r.cells[c].pointer.None? ==> ContentAt(r, x) == None
  {
    assert Holds(r, x).value in r.objects;
    if c in r.cells {
      assert Holds(r, Pointer(c)) == r.cells[c].pointer;
    }
  }

  lemma FlatKept<V>(h: Heap<V>, r: Heap<V>)
    requires Valid(h) && Valid(r) && Flat(h)
    requires forall id <- r.objects :: id in h.objects && r.objects[id] == h.objects[id]
    requires forall c <- r.cells :: c in h.cells && r.cells[c].pointer == h.cells[c].pointer
    ensures Flat(r)
  {
    forall c | c in r.cells && r.cells[c].pointer.Some?
      ensures !IsReference(r, r.cells[c].pointer.value)
    {
      assert Holds(h, Pointer(c)) == h.cells[c].pointer;
    }
  }

  // t is h with the register emptied, w is t with a new cell, r is w with the reference in place.
  lemma MakeSharedResult<V>(h: Heap<V>, t: Heap<V>, w: Heap<V>, r: Heap<V>, s: nat, i: nat)
    requires Valid(h) && InSet(h, s, i)
    requires h.sets[s][i].Some? ==> !IsReference(h, h.sets[s][i].value)
    requires t == if h.sets[s][i].Some? then TakenFrom(h, s, i) else h
    requires w == Wrapped(t, h.sets[s][i].Some?) && Valid(w) && SameAll(t, w)
    requires SetResult(w, r, s, i)
    ensures Valid(r) && r.hand == h.hand && h.next in r.cells && SharedResult(h, r, s, i, h.next)
    ensures forall id <- r.objects :: id in h.objects ==> r.objects[id] == h.objects[id]
  {
    hide Valid, SetResult, Flat, SameAll;
    var x, c := Slot(s, i), h.next;
    assert w.sets == t.sets && Holds(w, x) == None && Last(w) == h.next + 1;
    SetPlain(w, r, s, i);
    SetBasics(w, r, s, i);
    assert LocationOf(r, x) == Some(Shared(c));
    SharedContent(r, x, c);
    SetSizes(w, r, s, i);
    MakeSharedRest(h, t, w, r, s, i);
    HeldContent(h, s, i);
    var held := h.sets[s][i];
    assert r.cells[c].pointer == w.cells[c].pointer == held;
    assert held.Some? ==> r.objects[held.value] == h.objects[held.value];
  }

  lemma HeldContent<V>(h: Heap<V>, s: nat, i: nat)
    requires Valid(h) && InSet(h, s, i) && (h.sets[s][i].Some? ==> !IsReference(h, h.sets[s][i].value))
    ensures !(LocationOf(h, Slot(s, i)).Some? && LocationOf(h, Slot(s, i)).value.Shared?)
    ensures forall id <- h.objects :: id < h.next
    ensures h.sets[s][i].None? ==> ContentAt(h, Slot(s, i)) == None
    ensures h.sets[s][i].Some? ==>
              && h.sets[s][i].value in h.objects
              && ContentAt(h, Slot(s, i)) == Some(ContentOfObject(h.objects[h.sets[s][i].value]))
  {
    assert Holds(h, Slot(s, i)) == h.sets[s][i];
  }

  lemma SetSizes<V>(h: Heap<V>, r: Heap<V>, s: nat, i: nat)
    requires h.hand != [] && SetResult(h, r, s, i)
    ensures r.sets.Keys == h.sets.Keys && forall t <- r.sets :: |r.sets[t]| == |h.sets[t]|
    ensures forall id <- r.objects :: id in h.objects && r.objects[id] == h.objects[id]
  {
  }

  lemma MakeSharedRest<V>(h: Heap<V>, t: Heap<V>, w: Heap<V>, r: Heap<V>, s: nat, i: nat)
    requires Valid(h) && InSet(h, s, i)
    requires h.sets[s][i].Some? ==> !IsReference(h, h.sets[s][i].value)
    requires t == if h.sets[s][i].Some? then TakenFrom(h, s, i) else h
    requires w == Wrapped(t, h.sets[s][i].Some?) && Valid(w) && SameAll(t, w)
    requires Valid(r) && SameBut(w, r, Slot(s, i))
    requires forall id <- r.objects :: id in w.objects && r.objects[id] == w.objects[id]
    requires forall c <- r.cells :: c in w.cells && r.cells[c].pointer == w.cells[c].pointer
    ensures SameBut(h, r, Slot(s, i))
    ensures forall u, j :: Slot(u, j) != Slot(s, i) ==> !HoldsReference(r, u, j, h.next)
    ensures Flat(h) ==> Flat(r)
  {
    if h.sets[s][i].Some? {
      TakenValid(h, s, i);
    }
    SameButFrom(h, t, w, r, Slot(s, i));
    forall u, j | Slot(u, j) != Slot(s, i)
      ensures !HoldsReference(r, u, j, h.next)
    {
      assert SameAt(h, r, Slot(u, j));
      OldCell(h, Slot(u, j));
    }
    if Flat(h) {
      assert Flat(w) by {
        MakeSharedFlat(h, t, s, i);
      }
      FlatKept(w, r);
    }
  }

  lemma MakeSharedFlat<V>(h: Heap<V>, t: Heap<V>, s: nat, i: nat)
    requires Valid(h) && InSet(h, s, i) && Flat(h)
    requires h.sets[s][i].Some? ==> !IsReference(h, h.sets[s][i].value)
    requires t == if h.sets[s][i].Some? then TakenFrom(h, s, i) else h
    ensures Flat(Wrapped(t, h.sets[s][i].Some?))
  {
    var w := Wrapped(t, h.sets[s][i].Some?);
    forall c | c in w.cells && w.cells[c].pointer.Some?
      ensures !IsReference(w, w.cells[c].pointer.value)
    {
      assert Holds(h, Slot(s, i)) == h.sets[s][i];
      if c != h.next {
        assert Holds(h, Pointer(c)) == h.cells[c].pointer;
      }
    }
  }

  lemma OldCell<V>(h: Heap<V>, x: Holder)
    requires Valid(h)
    ensures LocationOf(h, x) != Some(Shared(h.next))
  {
    if Holds(h, x).Some? {
      assert Holds(h, x).value in h.objects;
    }
  }

  lemma SameButFrom<V>(h: Heap<V>, t: Heap<V>, w: Heap<V>, r: Heap<V>, x: Holder)
    requires h == t || SameBut(h, t, x)
    requires SameAll(t, w) && SameBut(w, r, x)
    ensures SameBut(h, r, x)
  {
    forall s, i | Slot(s, i) != x
      ensures SameAt(h, r, Slot(s, i))
    {
      assert SameAt(t, w, Slot(s, i));
    }
  }

  lemma JoinedResult<V>(h: Heap<V>, m: Heap<V>, a: Heap<V>, r: Heap<V>, s: nat, destination: nat, source: nat, c: Id)
    requires Valid(h) && Flat(h) && Valid(m) && c in m.cells && a == MadeReference(m, c) && SameAll(m, a) && Valid(a)
    requires InSet(h, s, source) && InSet(h, s, destination)
    requires if HoldsReference(h, s, source, c) then m == h else SharedResult(h, m, s, source, c)
    requires a.hand != [] && SetResult(a, r, s, destination)
    ensures var x, y := Slot(s, destination), Slot(s, source);
            if destination != source && !(LocationOf(h, x).Some? && LocationOf(h, x).value.Shared?)
            then Joined(h, r, x, y) && Flat(r)
            else !Flat(r)
  {
    var x, y := Slot(s, destination), Slot(s, source);
    assert a.hand == m.hand + [m.next] && a.objects[m.next] == Reference(c);
    if destination != source && !(LocationOf(h, x).Some? && LocationOf(h, x).value.Shared?) {
      assert SameAt(m, a, x);
      SetPlain(a, r, s, destination);
      JoinedPlain(h, m, a, r, s, destination, source, c);
    } else {
      assert SameAt(m, a, x);
      var d: Id :| HoldsReference(a, s, destination, d);
      assert d in r.cells && r.cells[d].pointer == Some(m.next);
    }
  }

  // A reference to the source has been made and could not be put anywhere.
  lemma BoxedResult<V>(h: Heap<V>, m: Heap<V>, a: Heap<V>, s: nat, source: nat, c: Id)
    requires Valid(h) && Flat(h) && Valid(m) && c in m.cells && a == MadeReference(m, c) && SameAll(m, a) && Valid(a)
    requires InSet(h, s, source)
    requires if HoldsReference(h, s, source, c) then m == h else SharedResult(h, m, s, source, c)
    ensures a.hand != [] && Flat(Forgotten(a)) && Boxed(h, Forgotten(a), Slot(s, source))
  {
    var y, r := Slot(s, source), Forgotten(a);
    assert Flat(a) by {
      MadeReferenceFlat(m, c);
    }
    ForgottenFlat(a);
    ForgottenValid(a);
    SameAllTransitive(m, a, r);
    hide Valid, Flat, Holds;
    assert SameAt(m, r, y) && LocationOf(m, y) == Some(Shared(c));
    forall t, j | Slot(t, j) != y
      ensures SameAt(h, r, Slot(t, j)) && LocationOf(r, Slot(t, j)) == LocationOf(m, Slot(t, j))
    {
      assert SameAt(m, r, Slot(t, j));
    }
  }

  lemma JoinedPlain<V>(h: Heap<V>, m: Heap<V>, a: Heap<V>, r: Heap<V>, s: nat, destination: nat, source: nat, c: Id)
    requires Valid(h) && Flat(h) && Valid(m) && c in m.cells && a == MadeReference(m, c) && SameAll(m, a) && Valid(a)
    requires destination != source
    requires if HoldsReference(h, s, source, c) then m == h else SharedResult(h, m, s, source, c)
    requires Valid(r) && SameBut(a, r, Slot(s, destination))
    requires Holds(r, Slot(s, destination)) == Some(m.next) && m.next in r.objects && r.objects[m.next] == Reference(c)
    requires forall id <- r.objects :: id in a.objects && r.objects[id] == a.objects[id]
    requires forall d <- r.cells :: d in a.cells && r.cells[d].pointer == a.cells[d].pointer
    ensures Joined(h, r, Slot(s, destination), Slot(s, source)) && Flat(r)
  {
    var x, y := Slot(s, destination), Slot(s, source);
    assert Flat(a) by {
      MadeReferenceFlat(m, c);
    }
    FlatKept(a, r);
    hide Valid, Flat, Holds;
    assert SameAt(m, a, y) && SameAt(a, r, y);
    assert LocationOf(m, y) == Some(Shared(c));
    assert LocationOf(r, x) == Some(Shared(c)) && LocationOf(r, y) == Some(Shared(c));
    assert ContentAt(r, x) == ContentAt(r, y);
    forall t, j | Slot(t, j) != x && Slot(t, j) != y
      ensures SameAt(h, r, Slot(t, j)) && LocationOf(r, Slot(t, j)) == LocationOf(m, Slot(t, j))
    {
      assert SameAt(m, a, Slot(t, j)) && SameAt(a, r, Slot(t, j));
    }
  }

  lemma MadeReferenceFlat<V>(m: Heap<V>, c: Id)
    requires Valid(m) && c in m.cells && Flat(m)
    ensures Flat(MadeReference(m, c))
  {
    var a := MadeReference(m, c);
    forall d | d in a.cells && a.cells[d].pointer.Some?
      ensures !IsReference(a, a.cells[d].pointer.value)
    {
      assert Holds(m, Pointer(d)) == m.cells[d].pointer;
    }
  }

  // ----- copies -----

  predicate SameReference<V>(h: Heap<V>, a: Option<Id>, b: Option<Id>) {
    if a.Some? && b.Some? then
      && IsReference(h, a.value) && IsReference(h, b.value)
      && h.objects[a.value].cell == h.objects[b.value].cell
    else a.None? && b.None?
  }

  // A copy has the same value; of a closure, the copies of its references share the same cells.
  ghost predicate CopyOf<V>(h: Heap<V>, copy: Object<V>, original: Object<V>) {
    match original
    case Data(_) => copy == original
    case Reference(_) => copy == original
    case Closure(name, captured) =>
      && copy.Closure? && copy.name == name && |copy.captured| == |captured|
      && forall k | 0 <= k < |captured| :: SameReference(h, copy.captured[k], captured[k])
  }

  // The first n captured references are copied.
  ghost predicate CopiedSoFar<V>(h: Heap<V>, r: Heap<V>, copy: Id, name: Name, captured: seq<Option<Id>>, n: nat) {
    && copy in r.objects && copy !in h.objects && r.objects[copy].Closure?
    && r.objects[copy].name == name && |r.objects[copy].captured| == |captured|
    && (forall k | n <= k < |captured| :: r.objects[copy].captured[k].None?)
    && (forall k | 0 <= k < n && k < |captured| :: SameReference(r, r.objects[copy].captured[k], captured[k]))
  }

  lemma CopiedNothing<V>(h: Heap<V>, r: Heap<V>, copy: Id, name: Name, captured: seq<Option<Id>>)
    requires Valid(h) && copy == h.next && r == Made(h, Closure(name, Empty(|captured|)))
    ensures CopiedSoFar(h, r, copy, name, captured, 0)
  {
  }

  lemma IsClosure<V>(h: Heap<V>, r: Heap<V>, copy: Id, name: Name, captured: seq<Option<Id>>, n: nat)
    requires CopiedSoFar(h, r, copy, name, captured, n) && n < |captured|
    ensures copy in r.objects && r.objects[copy].Closure? && |r.objects[copy].captured| == |captured|
    ensures r.objects[copy].captured[n].None?
  {
  }

  lemma CapturedReference<V>(h: Heap<V>, m: Heap<V>, id: Id, i: nat)
    requires Valid(h) && Valid(m) && Extends(h, m) && id in h.objects && h.objects[id].Closure?
    requires i < |h.objects[id].captured| && h.objects[id].captured[i].Some?
    ensures var o := h.objects[id].captured[i].value;
            o in h.objects && o in m.objects && m.objects[o] == h.objects[o] && m.objects[o].Reference? && m.objects[o].cell in m.cells
  {
    assert Holds(h, Captured(id, i)) == h.objects[id].captured[i];
  }

  lemma CopiedStep<V>(h: Heap<V>, m: Heap<V>, copy: Id, name: Name, captured: seq<Option<Id>>, i: nat)
    requires Valid(m) && SameAll(h, m) && Extends(h, m) && CopiedSoFar(h, m, copy, name, captured, i)
    requires i < |captured| && captured[i].Some? && captured[i].value in h.objects && IsReference(m, captured[i].value)
    requires m.objects[captured[i].value].cell in m.cells
    ensures var a := MadeReference(m, m.objects[captured[i].value].cell);
            && a.hand != [] && copy in a.objects && a.objects[copy].Closure? && i < |a.objects[copy].captured|
            && var r := CapturedBy(a, copy, i);
               && Valid(r) && SameAll(h, r) && Extends(h, r) && r.hand == m.hand
               && CopiedSoFar(h, r, copy, name, captured, i + 1)
  {
    var c := m.objects[captured[i].value].cell;
    var a := MadeReference(m, c);
    MadeReferenceValid(m, c);
    CapturedValid(a, copy, i);
    SameAllTransitive(h, m, a);
    SameAllTransitive(h, a, CapturedBy(a, copy, i));
    hide SameAll, Valid;
    CopiedOne(h, m, copy, name, captured, i);
  }

  lemma CopiedOne<V>(h: Heap<V>, m: Heap<V>, copy: Id, name: Name, captured: seq<Option<Id>>, i: nat)
    requires Bounded(m) && Extends(h, m) && CopiedSoFar(h, m, copy, name, captured, i)
    requires i < |captured| && captured[i].Some? && captured[i].value in h.objects && IsReference(m, captured[i].value)
    requires m.objects[captured[i].value].cell in m.cells
    ensures var a := MadeReference(m, m.objects[captured[i].value].cell);
            && copy in a.objects && a.objects[copy].Closure? && i < |a.objects[copy].captured|
            && Extends(h, CapturedBy(a, copy, i)) && CapturedBy(a, copy, i).hand == m.hand
            && CopiedSoFar(h, CapturedBy(a, copy, i), copy, name, captured, i + 1)
  {
    assert m.next !in m.objects;
    var c := m.objects[captured[i].value].cell;
    var a := MadeReference(m, c);
    var r := CapturedBy(a, copy, i);
    assert r.hand == m.hand && Last(a) == m.next;
    CopiedReferences(m, r, copy, captured, i, c);
  }

  lemma CopiedReferences<V>(m: Heap<V>, r: Heap<V>, copy: Id, captured: seq<Option<Id>>, i: nat, c: Id)
    requires copy in m.objects && m.objects[copy].Closure? && |m.objects[copy].captured| == |captured|
    requires i < |captured| && m.next !in m.objects && captured[i].Some?
    requires IsReference(m, captured[i].value) && m.objects[captured[i].value].cell == c
    requires forall k | 0 <= k < i :: SameReference(m, m.objects[copy].captured[k], captured[k])
    requires forall id <- m.objects :: id != copy ==> id in r.objects && r.objects[id] == m.objects[id]
    requires copy in r.objects && r.objects[copy].Closure? && m.next in r.objects && r.objects[m.next] == Reference(c)
    requires r.objects[copy].captured == m.objects[copy].captured[i := Some(m.next)]
    ensures forall k | 0 <= k < i + 1 :: SameReference(r, r.objects[copy].captured[k], captured[k])
  {
    forall k | 0 <= k < i
      ensures SameReference(r, r.objects[copy].captured[k], captured[k])
    {
      assert SameReference(m, m.objects[copy].captured[k], captured[k]);
    }
  }

  lemma CopiedSkip<V>(h: Heap<V>, m: Heap<V>, copy: Id, name: Name, captured: seq<Option<Id>>, i: nat)
    requires CopiedSoFar(h, m, copy, name, captured, i) && i < |captured| && captured[i].None?
    ensures CopiedSoFar(h, m, copy, name, captured, i + 1)
  {
  }

  lemma CopiedAll<V>(h: Heap<V>, m: Heap<V>, copy: Id, name: Name, captured: seq<Option<Id>>)
    requires CopiedSoFar(h, m, copy, name, captured, |captured|)
    ensures copy in m.objects && CopyOf(m, m.objects[copy], Closure(name, captured))
  {
  }

  lemma ExtendsSets<V>(h: Heap<V>, a: Heap<V>, s: nat, i: nat)
    requires Extends(h, a)
    ensures a.sets == h.sets && (InSet(a, s, i) <==> InSet(h, s, i))
  {
  }

  lemma ExtendsFlat<V>(h: Heap<V>, a: Heap<V>)
    requires Valid(h) && Flat(h) && Extends(h, a)
    ensures Flat(a)
  {
    forall c | c in a.cells && a.cells[c].pointer.Some?
      ensures !IsReference(a, a.cells[c].pointer.value)
    {
      assert Holds(h, Pointer(c)) == h.cells[c].pointer;
    }
  }

  lemma MadeLast<V>(h: Heap<V>, o: Object<V>)
    ensures var a := Made(h, o); a.hand == h.hand + [h.next] && a.next == h.next + 1 && h.next in a.objects && a.objects[h.next] == o
  {
  }

  lemma ForgottenHand<V>(h: Heap<V>)
    requires h.hand != []
    ensures Forgotten(h).hand == Rest(h) && Forgotten(h).sets == h.sets
  {
  }

  // a is h with the new object o in the hand, r is a after it was put in its register or lost.
  lemma StoreResult<V>(h: Heap<V>, a: Heap<V>, r: Heap<V>, s: nat, i: nat, o: Object<V>, ok: bool)
    requires Valid(h) && Valid(a) && SameAll(h, a) && Extends(h, a) && Flat(h)
    requires a.hand != [] && Last(a) in a.objects && a.objects[Last(a)] == o && o.Data?
    requires ok ==> InSet(a, s, i) && SetResult(a, r, s, i)
    requires !ok ==> r == Forgotten(a)
    ensures Flat(r) && (ok ==> Wrote(h, r, Slot(s, i), ContentOfObject(o))) && (!ok ==> SameAll(h, r))
  {
    hide Valid, SameAll, Flat, SetResult, Wrote, Extends;
    ExtendsFlat(h, a);
    if ok {
      SetWrote(a, r, s, i);
      WroteFrom(h, a, r, Slot(s, i), ContentOfObject(o));
    } else {
      ForgottenValid(a);
      ForgottenFlat(a);
      SameAllTransitive(h, a, r);
    }
  }

  lemma ForgottenFlat<V>(h: Heap<V>)
    requires h.hand != [] && Flat(h)
    ensures Flat(Forgotten(h))
  {
  }

  // In flat memory a register leads to an object that is not a reference.
  lemma FlatPointer<V>(h: Heap<V>, s: nat, i: nat, pointer: Id)
    requires Valid(h) && Flat(h) && LocationOf(h, Slot(s, i)).Some?
    requires ObjectAt(h, LocationOf(h, Slot(s, i)).value) == Some(pointer)
    ensures pointer in h.objects && !h.objects[pointer].Reference?
  {
    assert Holds(h, Slot(s, i)).value in h.objects;
    var l := LocationOf(h, Slot(s, i)).value;
    if l.Shared? {
      assert Holds(h, Pointer(l.cell)) == h.cells[l.cell].pointer;
    }
  }

  lemma SeenThrough<V>(h: Heap<V>, s: nat, i: nat, completed: bool, pointer: Option<Id>)
    requires Valid(h) && (completed <==> InSet(h, s, i) && h.sets[s][i].Some?)
    requires completed ==> LocationOf(h, Slot(s, i)).Some? && pointer == ObjectAt(h, LocationOf(h, Slot(s, i)).value)
    requires completed && pointer.Some? ==> pointer.value in h.objects
    ensures completed ==> (ContentAt(h, Slot(s, i)).Some? <==> pointer.Some?)
    ensures !completed ==> ContentAt(h, Slot(s, i)).None?
  {
  }

  // ----- writing -----

  lemma SetWrote<V>(h: Heap<V>, r: Heap<V>, s: nat, i: nat)
    requires Valid(h) && h.hand != [] && InSet(h, s, i) && SetResult(h, r, s, i)
    requires !IsReference(h, Last(h)) && Flat(h)
    ensures Last(h) in h.objects && Wrote(h, r, Slot(s, i), ContentOfObject(h.objects[Last(h)])) && Flat(r)
  {
    HandLives(h);
    if h.sets[s][i].Some? {
      ReferenceIn(h, s, i);
    }
    if h.sets[s][i].Some? && h.objects[h.sets[s][i].value].Reference? {
      WroteShared(h, r, s, i, h.objects[h.sets[s][i].value].cell);
    } else {
      assert Holds(h, Slot(s, i)) == h.sets[s][i];
      WroteOwn(h, r, s, i);
    }
  }

  lemma WroteShared<V>(h: Heap<V>, r: Heap<V>, s: nat, i: nat, c: Id)
    requires Valid(h) && h.hand != [] && HoldsReference(h, s, i, c) && SetResult(h, r, s, i)
    requires Last(h) in h.objects && !IsReference(h, Last(h)) && Flat(h)
    ensures Wrote(h, r, Slot(s, i), ContentOfObject(h.objects[Last(h)])) && Flat(r)
  {
    var x, v := Slot(s, i), ContentOfObject(h.objects[Last(h)]);
    assert SameOff(h, r, c) && r.cells[c].pointer == Some(Last(h));
    forall t, j
      ensures ContentAt(r, Slot(t, j)) == if Alias(h, Slot(t, j), x) then Some(v) else ContentAt(h, Slot(t, j))
    {
      if LocationOf(h, Slot(t, j)) == Some(Shared(c)) {
        SharedContent(r, Slot(t, j), c);
      }
    }
    forall d | d in r.cells && r.cells[d].pointer.Some?
      ensures !IsReference(r, r.cells[d].pointer.value)
    {
      if d != c {
        assert Holds(h, Pointer(d)) == h.cells[d].pointer;
      }
    }
  }

  lemma WroteOwn<V>(h: Heap<V>, r: Heap<V>, s: nat, i: nat)
    requires Valid(h) && h.hand != [] && SetResult(h, r, s, i) && forall c :: !HoldsReference(h, s, i, c)
    requires Last(h) in h.objects && !IsReference(h, Last(h)) && Flat(h)
    ensures Wrote(h, r, Slot(s, i), ContentOfObject(h.objects[Last(h)])) && Flat(r)
  {
    var x, v := Slot(s, i), ContentOfObject(h.objects[Last(h)]);
    SetPlain(h, r, s, i);
    FlatKept(h, r);
    assert LocationOf(r, x) == Some(Own(Last(h))) && ContentAt(r, x) == Some(v);
    assert !(LocationOf(h, x).Some? && LocationOf(h, x).value.Shared?) by {
      if LocationOf(h, x).Some? && LocationOf(h, x).value.Shared? {
        assert HoldsReference(h, s, i, LocationOf(h, x).value.cell);
      }
    }
    forall t, j | Slot(t, j) != x
      ensures LocationOf(r, Slot(t, j)) != LocationOf(r, x) && !Alias(h, Slot(t, j), x)
    {
      OwnIsOwn(r, Slot(t, j), x);
      OwnIsOwn(h, Slot(t, j), x);
    }
    forall t, j
      ensures ContentAt(r, Slot(t, j)) ==
              if Slot(t, j) == x || Alias(h, Slot(t, j), x) then Some(v) else ContentAt(h, Slot(t, j))
    {
      if Slot(t, j) != x {
        assert SameAt(h, r, Slot(t, j));
      }
    }
  }

  // Two registers share a location only through references.
  lemma OwnIsOwn<V>(h: Heap<V>, x: Holder, y: Holder)
    requires Valid(h) && x != y
    requires !(LocationOf(h, y).Some? && LocationOf(h, y).value.Shared?)
    ensures !Alias(h, x, y)
  {
  }

  lemma WroteFrom<V>(h: Heap<V>, a: Heap<V>, r: Heap<V>, x: Holder, v: Content<V>)
    requires SameAll(h, a) && Wrote(a, r, x, v) && x.Slot?
    ensures Wrote(h, r, x, v)
  {
    assert SameAt(h, a, Slot(x.set_, x.index));
    forall t, j
      ensures SameAt(h, a, Slot(t, j))
    {
    }
  }

  // ----- clearing and exchanging -----

  lemma ClearedResult<V>(h: Heap<V>, t: Heap<V>, r: Heap<V>, s: nat, i: nat)
    requires Valid(h) && InSet(h, s, i) && h.sets[s][i].Some? && t == TakenFrom(h, s, i)
    requires Valid(r) && SameAll(t, r) && r.sets == t.sets
    requires Remains(h, r)
    ensures Cleared(h, r, Slot(s, i)) && (Flat(h) ==> Flat(r))
  {
    TakenValid(h, s, i);
    forall u, j | Slot(u, j) != Slot(s, i)
      ensures SameAt(h, r, Slot(u, j))
    {
      assert SameAt(t, r, Slot(u, j));
    }
    if Flat(h) {
      FlatKept(h, r);
    }
  }

  function Swapped<V>(h: Heap<V>, s: nat, i: nat, j: nat): Heap<V>
    requires InSet(h, s, i) && InSet(h, s, j)
  {
    h.(sets := h.sets[s := h.sets[s][i := h.sets[s][j]][j := h.sets[s][i]]])
  }

  lemma SwappedHolds<V>(h: Heap<V>, s: nat, i: nat, j: nat, z: Holder)
    requires InSet(h, s, i) && InSet(h, s, j)
    ensures Holds(Swapped(h, s, i, j), z) ==
            Holds(h, if z == Slot(s, i) then Slot(s, j) else if z == Slot(s, j) then Slot(s, i) else z)
  {
  }

  lemma SwappedOwned<V>(h: Heap<V>, s: nat, i: nat, j: nat)
    requires Owned(h) && InSet(h, s, i) && InSet(h, s, j)
    ensures Owned(Swapped(h, s, i, j))
  {
    var r, x, y, e := Swapped(h, s, i, j), Slot(s, i), Slot(s, j), Hand(|h.hand|);
    assert Holds(r, e).None?;
    forall z
      ensures Holds(r, z) == Holds(h, if z == x then y else if z == y then x else z)
    {
      SwappedHolds(h, s, i, j, z);
    }
    SwapKeeps(h, s, i, j);
    hide Holds, Swapped;
    var origin: Holder -> Holder := z => if z == x then y else if z == y then x else z;
    RehomedHolds(h, r, origin, e);
  }

  lemma SwapValid<V>(h: Heap<V>, s: nat, i: nat, j: nat)
    requires Valid(h) && InSet(h, s, i) && InSet(h, s, j)
    ensures var r := Swapped(h, s, i, j);
            Valid(r) && Exchanged(h, r, Slot(s, i), Slot(s, j)) && (Flat(h) ==> Flat(r))
  {
    var r, x, y := Swapped(h, s, i, j), Slot(s, i), Slot(s, j);
    SwappedOwned(h, s, i, j);
    forall z
      ensures Holds(r, z) == Holds(h, if z == x then y else if z == y then x else z)
    {
      SwappedHolds(h, s, i, j, z);
    }
    SwapKeeps(h, s, i, j);
    hide Holds, Swapped, Live, Single;
    forall o, k | Holds(r, Captured(o, k)).Some?
      ensures IsReference(r, Holds(r, Captured(o, k)).value)
    {
      assert Holds(h, Captured(o, k)) == Holds(r, Captured(o, k));
    }
  }

  lemma SwapKeeps<V>(h: Heap<V>, s: nat, i: nat, j: nat)
    requires InSet(h, s, i) && InSet(h, s, j)
    ensures var r := Swapped(h, s, i, j); r.objects == h.objects && r.cells == h.cells && r.next == h.next
  {
  }

  // ----- register sets -----

  lemma NewSetValid<V>(h: Heap<V>, s: nat, n: nat)
    requires Valid(h) && s !in h.sets
    ensures var r := h.(sets := h.sets[s := Empty(n)]); Valid(r) && SameAll(h, r) && (Flat(h) ==> Flat(r))
  {
    var r, e := h.(sets := h.sets[s := Empty(n)]), Hand(|h.hand|);
    var origin: Holder -> Holder := x => x;
    forall x
      ensures Holds(h, x) == Holds(r, x)
    {
    }
    RehomedHolds(h, r, origin, e);
    forall o, k | Holds(r, Captured(o, k)).Some?
      ensures IsReference(r, Holds(r, Captured(o, k)).value)
    {
      assert Holds(h, Captured(o, k)) == Holds(r, Captured(o, k));
    }
  }

  ghost predicate SameOutside<V>(h: Heap<V>, r: Heap<V>, s: nat) {
    forall t, j :: t != s ==> SameAt(h, r, Slot(t, j))
  }

  lemma SameOutsideNow<V>(h: Heap<V>, s: nat)
    ensures SameOutside(h, h, s)
  {
  }

  lemma SameButAfter<V>(m: Heap<V>, t: Heap<V>, r: Heap<V>, x: Holder)
    requires SameBut(m, t, x) && SameAll(t, r)
    ensures SameBut(m, r, x)
  {
    forall u, j | Slot(u, j) != x
      ensures SameAt(m, r, Slot(u, j))
    {
      assert SameAt(t, r, Slot(u, j));
    }
  }

  // m is h with some registers of s dropped, r is m with register i dropped.
  lemma DroppedOne<V>(h: Heap<V>, m: Heap<V>, r: Heap<V>, s: nat, i: nat)
    requires SameOutside(h, m, s) && Remains(h, m) && SameBut(m, r, Slot(s, i)) && Remains(m, r)
    ensures SameOutside(h, r, s) && Remains(h, r)
  {
    forall u, j | u != s
      ensures SameAt(h, r, Slot(u, j))
    {
      assert SameAt(h, m, Slot(u, j));
    }
  }

  lemma EmptySetGone<V>(e: Heap<V>, s: nat)
    requires Valid(e) && s in e.sets && forall k | 0 <= k < |e.sets[s]| :: e.sets[s][k].None?
    ensures var r := e.(sets := e.sets - {s}); Valid(r) && SameAll(e, r) && (Flat(e) ==> Flat(r))
  {
    var r, x := e.(sets := e.sets - {s}), Hand(|e.hand|);
    var origin: Holder -> Holder := y => y;
    forall y
      ensures Holds(e, y) == Holds(r, y)
    {
    }
    RehomedHolds(e, r, origin, x);
    forall o, k | Holds(r, Captured(o, k)).Some?
      ensures IsReference(r, Holds(r, Captured(o, k)).value)
    {
      assert Holds(e, Captured(o, k)) == Holds(r, Captured(o, k));
    }
  }

  lemma OutsideMeaning<V>(h: Heap<V>, r: Heap<V>, s: nat)
    requires SameOutside(h, r, s)
    ensures forall t, j :: t != s ==> SameAt(h, r, Slot(t, j))
  {
  }

  lemma SameOutsideGone<V>(h: Heap<V>, e: Heap<V>, s: nat)
    requires SameOutside(h, e, s)
    ensures SameOutside(h, e.(sets := e.sets - {s}), s)
  {
    var r := e.(sets := e.sets - {s});
    forall t, j | t != s
      ensures SameAt(h, r, Slot(t, j))
    {
      assert SameAt(h, e, Slot(t, j)) && Holds(r, Slot(t, j)) == Holds(e, Slot(t, j));
    }
  }

  // ----- captures -----

  // Registers alias exactly as before, with the same contents.
  ghost predicate Renamed<V>(h: Heap<V>, r: Heap<V>) {
    && (forall s, i, t, j :: Alias(r, Slot(s, i), Slot(t, j)) <==> Alias(h, Slot(s, i), Slot(t, j)))
    && (forall s, i :: ContentAt(r, Slot(s, i)) == ContentAt(h, Slot(s, i)))
  }

  lemma RenamedNow<V>(h: Heap<V>)
    ensures Renamed(h, h)
  {
  }

  lemma RenamedTransitive<V>(h: Heap<V>, m: Heap<V>, r: Heap<V>)
    requires Renamed(h, m) && Renamed(m, r)
    ensures Renamed(h, r)
  {
  }

  lemma SameIsRenamed<V>(h: Heap<V>, r: Heap<V>)
    requires SameAll(h, r)
    ensures Renamed(h, r)
  {
    forall s, i
      ensures SameAt(h, r, Slot(s, i))
    {
    }
  }

  lemma SharedRenamed<V>(h: Heap<V>, r: Heap<V>, s: nat, i: nat, c: Id)
    requires Valid(h) && SharedResult(h, r, s, i, c) && h.sets[s][i].Some?
    ensures Renamed(h, r)
  {
    var x := Slot(s, i);
    assert Holds(h, x) == h.sets[s][i];
    forall t, j | Slot(t, j) != x
      ensures SameAt(h, r, Slot(t, j)) && !Alias(h, Slot(t, j), x) && !Alias(r, Slot(t, j), x)
    {
      OwnIsOwn(h, Slot(t, j), x);
      assert !HoldsReference(r, t, j, c);
    }
  }

  // The closure shares the marked registers below n.
  ghost predicate Bound<V>(h: Heap<V>, r: Heap<V>, s: nat, closure: Id, name: Name, bind: set<nat>, n: nat) {
    && s in r.sets && s in h.sets && |r.sets[s]| == |h.sets[s]| && n <= |h.sets[s]|
    && closure in r.objects && closure !in h.objects
    && r.objects[closure].Closure? && r.objects[closure].name == name
    && |r.objects[closure].captured| == |h.sets[s]|
    && (forall k | n <= k < |h.sets[s]| :: r.objects[closure].captured[k].None? && (r.sets[s][k].Some? <==> h.sets[s][k].Some?))
    && (forall k | 0 <= k < n :: Shares(r, s, k, r.objects[closure].captured[k], k in bind && h.sets[s][k].Some?))
  }

  lemma BoundUsed<V>(h: Heap<V>, m: Heap<V>, s: nat, closure: Id, name: Name, bind: set<nat>, i: nat)
    requires Bound(h, m, s, closure, name, bind, i) && i < |h.sets[s]|
    ensures InSet(h, s, i) && InSet(m, s, i) && (m.sets[s][i].Some? <==> h.sets[s][i].Some?)
  {
  }

  // The captured reference shares the cell of register k, if it is to be captured at all.
  predicate Shares<V>(r: Heap<V>, s: nat, k: nat, captured: Option<Id>, wanted: bool) {
    if wanted then
      captured.Some? && IsReference(r, captured.value) && HoldsReference(r, s, k, r.objects[captured.value].cell)
    else captured.None?
  }

  lemma BoundNothing<V>(h: Heap<V>, r: Heap<V>, s: nat, closure: Id, name: Name, bind: set<nat>)
    requires Valid(h) && s in h.sets && closure == h.next && r == Made(h, Closure(name, Empty(|h.sets[s]|)))
    requires SameAll(h, r) && Extends(h, r)
    ensures Bound(h, r, s, closure, name, bind, 0) && Renamed(h, r) && (Flat(h) ==> Flat(r))
  {
    SameIsRenamed(h, r);
    if Flat(h) {
      ExtendsFlat(h, r);
    }
  }

  lemma BoundSkip<V>(h: Heap<V>, m: Heap<V>, s: nat, closure: Id, name: Name, bind: set<nat>, i: nat)
    requires Bound(h, m, s, closure, name, bind, i) && i < |h.sets[s]| && !(m.sets[s][i].Some? && i in bind)
    ensures Bound(h, m, s, closure, name, bind, i + 1)
  {
  }

  // a is m with register i turned into a reference, if it was none.
  lemma BoundShared<V>(h: Heap<V>, m: Heap<V>, a: Heap<V>, s: nat, closure: Id, name: Name, bind: set<nat>, i: nat, c: Id)
    requires Bound(h, m, s, closure, name, bind, i) && i < |h.sets[s]| && Valid(m) && Valid(a)
    requires m.sets[s][i].Some? && m.hand == [closure] && a.hand == m.hand
    requires (a == m && HoldsReference(m, s, i, c)) || SharedResult(m, a, s, i, c)
    requires forall id <- a.objects :: id in m.objects ==> a.objects[id] == m.objects[id]
    ensures c in a.cells && HoldsReference(a, s, i, c) && Bound(h, a, s, closure, name, bind, i)
    ensures Flat(m) ==> Flat(a)
  {
    HandLives(a);
    SharedContent(a, Slot(s, i), c);
    forall k | i <= k < |h.sets[s]|
      ensures a.sets[s][k].Some? <==> h.sets[s][k].Some?
    {
      assert Holds(a, Slot(s, k)) == a.sets[s][k] && Holds(m, Slot(s, k)) == m.sets[s][k];
      assert Slot(s, k) != Slot(s, i) ==> LocationOf(a, Slot(s, k)) == LocationOf(m, Slot(s, k));
    }
    forall k | 0 <= k < i
      ensures Shares(a, s, k, a.objects[closure].captured[k], k in bind && h.sets[s][k].Some?)
    {
      assert Shares(m, s, k, m.objects[closure].captured[k], k in bind && h.sets[s][k].Some?);
      assert Holds(a, Captured(closure, k)) == a.objects[closure].captured[k];
      assert LocationOf(a, Slot(s, k)) == LocationOf(m, Slot(s, k));
    }
  }

  lemma BoundStep<V>(h: Heap<V>, a: Heap<V>, s: nat, closure: Id, name: Name, bind: set<nat>, i: nat, c: Id)
    requires Valid(a) && c in a.cells && HoldsReference(a, s, i, c) && i in bind
    requires Bound(h, a, s, closure, name, bind, i) && i < |h.sets[s]| && a.hand == [closure]
    ensures var b := MadeReference(a, c);
            && closure in b.objects && b.objects[closure].Closure? && i < |b.objects[closure].captured| && b.hand != []
            && var r := CapturedBy(b, closure, i);
               && Valid(r) && SameAll(a, r) && Renamed(a, r) && r.hand == [closure] && r.sets == a.sets
               && Bound(h, r, s, closure, name, bind, i + 1) && (Flat(a) ==> Flat(r))
  {
    hide Valid, SameAll, Renamed, Flat, Bound, SameShape;
    var b := MadeReference(a, c);
    FreshNext(a);
    ClosureBound(h, a, s, closure, name, bind, i);
    MadeReferenceValid(a, c);
    CapturedValid(b, closure, i);
    var r := CapturedBy(b, closure, i);
    SameAllTransitive(a, b, r);
    SameIsRenamed(a, r);
    if Flat(a) {
      MadeReferenceFlat(a, c);
      CapturedFlat(b, closure, i);
    }
    BoundCells(h, a, r, s, closure, name, bind, i, c);
  }

  lemma FreshNext<V>(h: Heap<V>)
    requires Valid(h)
    ensures h.next !in h.objects && h.next !in h.cells
  {
  }

  lemma ClosureBound<V>(h: Heap<V>, a: Heap<V>, s: nat, closure: Id, name: Name, bind: set<nat>, i: nat)
    requires Bound(h, a, s, closure, name, bind, i) && i < |h.sets[s]|
    ensures closure in a.objects && a.objects[closure].Closure? && |a.objects[closure].captured| == |h.sets[s]|
    ensures a.objects[closure].captured[i].None?
  {
  }

  lemma CapturedFlat<V>(b: Heap<V>, closure: Id, i: nat)
    requires b.hand != [] && closure in b.objects && b.objects[closure].Closure? && i < |b.objects[closure].captured|
    requires Flat(b)
    ensures Flat(CapturedBy(b, closure, i))
  {
  }

  lemma BoundCells<V>(h: Heap<V>, a: Heap<V>, r: Heap<V>, s: nat, closure: Id, name: Name, bind: set<nat>, i: nat, c: Id)
    requires Bound(h, a, s, closure, name, bind, i) && i < |h.sets[s]| && i in bind && a.next !in a.objects
    requires HoldsReference(a, s, i, c) && SameAll(a, r) && r.sets == a.sets
    requires forall id <- a.objects :: id in r.objects && (id != closure ==> r.objects[id] == a.objects[id])
    requires a.next in r.objects && r.objects[a.next] == Reference(c)
    requires r.objects[closure] == a.objects[closure].(captured := a.objects[closure].captured[i := Some(a.next)])
    ensures Bound(h, r, s, closure, name, bind, i + 1)
  {
    assert Holds(a, Slot(s, i)) == a.sets[s][i];
    forall k | 0 <= k < i + 1
      ensures Shares(r, s, k, r.objects[closure].captured[k], k in bind && h.sets[s][k].Some?)
    {
      assert SameAt(a, r, Slot(s, k));
      if k < i {
        assert Shares(a, s, k, a.objects[closure].captured[k], k in bind && h.sets[s][k].Some?);
      }
    }
  }

  lemma BoundDone<V>(h: Heap<V>, b: Heap<V>, s: nat, closure: Id, name: Name, bind: set<nat>)
    requires s in h.sets && Bound(h, b, s, closure, name, bind, |h.sets[s]|)
    ensures closure in b.objects && !IsReference(b, closure) && b.objects[closure].Closure? && b.objects[closure].name == name
    ensures s in b.sets && |b.sets[s]| == |h.sets[s]|
  {
  }

  // Registers alias as before; the target and what shares its location contain the closure; and the
  // closure shares exactly the marked registers that were not empty.
  ghost predicate CaptureResult<V>(h: Heap<V>, r: Heap<V>, s: nat, target: nat, name: Name, bind: set<nat>) {
    var x := Slot(s, target);
    && s in h.sets
    && (forall t, i, u, j :: Slot(t, i) != Slot(u, j) ==>
          (Alias(r, Slot(t, i), Slot(u, j)) <==> Alias(h, Slot(t, i), Slot(u, j))))
    && (forall t, i ::
          ContentAt(r, Slot(t, i)) ==
          if Slot(t, i) == x || Alias(h, Slot(t, i), x) then Some(Callable(name)) else ContentAt(h, Slot(t, i)))
    && LocationOf(r, x).Some?
    && var closure := ObjectAt(r, LocationOf(r, x).value);
       && closure.Some? && closure.value in r.objects && r.objects[closure.value].Closure?
       && |r.objects[closure.value].captured| == |h.sets[s]|
       && forall k | 0 <= k < |h.sets[s]| ::
            Shares(r, s, k, r.objects[closure.value].captured[k], k in bind && h.sets[s][k].Some?)
  }

  lemma CaptureAliases<V>(h: Heap<V>, b: Heap<V>, r: Heap<V>, x: Holder, v: Content<V>)
    requires Renamed(h, b) && Valid(b) && Wrote(b, r, x, v) && x.Slot?
    ensures forall t, i, u, j :: Slot(t, i) != Slot(u, j) ==>
              (Alias(r, Slot(t, i), Slot(u, j)) <==> Alias(h, Slot(t, i), Slot(u, j)))
    ensures forall t, i ::
              ContentAt(r, Slot(t, i)) ==
              if Slot(t, i) == x || Alias(h, Slot(t, i), x) then Some(v) else ContentAt(h, Slot(t, i))
  {
    assert x == Slot(x.set_, x.index);
    forall t, i
      ensures Alias(h, Slot(t, i), x) <==> Alias(b, Slot(t, i), x)
    {
      assert Alias(b, Slot(t, i), Slot(x.set_, x.index)) <==> Alias(h, Slot(t, i), Slot(x.set_, x.index));
    }
    forall t, i, u, j | Slot(t, i) != Slot(u, j)
      ensures Alias(r, Slot(t, i), Slot(u, j)) <==> Alias(b, Slot(t, i), Slot(u, j))
    {
      if Slot(t, i) == x || Slot(u, j) == x {
        var y := if Slot(t, i) == x then Slot(u, j) else Slot(t, i);
        if !(LocationOf(b, x).Some? && LocationOf(b, x).value.Shared?) {
          OwnIsOwn(b, y, x);
        }
      }
    }
  }

  // What lies in a register that has been set.
  lemma SetObject<V>(b: Heap<V>, r: Heap<V>, s: nat, target: nat)
    requires b.hand != [] && SetResult(b, r, s, target) && Valid(b) && !IsReference(b, Last(b))
    ensures LocationOf(r, Slot(s, target)).Some?
    ensures ObjectAt(r, LocationOf(r, Slot(s, target)).value) == Some(Last(b))
    ensures Last(b) in r.objects && Last(b) in b.objects && r.objects[Last(b)] == b.objects[Last(b)]
    ensures forall id <- r.objects :: id in b.objects && r.objects[id] == b.objects[id]
  {
    var x := Slot(s, target);
    var l := LocationOf(b, x);
    if l.Some? && l.value.Shared? {
      assert HoldsReference(b, s, target, l.value.cell);
      assert SameOff(b, r, l.value.cell);
    } else {
      SetPlain(b, r, s, target);
    }
  }

  lemma SharesAfter<V>(b: Heap<V>, r: Heap<V>, s: nat, target: nat, k: nat, closure: Id, v: Content<V>, wanted: bool)
    requires Valid(r) && Wrote(b, r, Slot(s, target), v)
    requires closure in b.objects && b.objects[closure].Closure? && k < |b.objects[closure].captured|
    requires closure in r.objects && r.objects[closure] == b.objects[closure]
    requires forall id <- r.objects :: id in b.objects && r.objects[id] == b.objects[id]
    requires Shares(b, s, k, b.objects[closure].captured[k], wanted)
    ensures Shares(r, s, k, r.objects[closure].captured[k], wanted)
  {
    assert Holds(r, Captured(closure, k)) == r.objects[closure].captured[k];
  }

  lemma CaptureClosure<V>(h: Heap<V>, b: Heap<V>, r: Heap<V>, s: nat, target: nat, closure: Id, name: Name, bind: set<nat>)
    requires s in h.sets && Bound(h, b, s, closure, name, bind, |h.sets[s]|) && Valid(b) && Valid(r)
    requires b.hand == [closure] && InSet(b, s, target) && SetResult(b, r, s, target)
    requires Wrote(b, r, Slot(s, target), Callable(name))
    ensures LocationOf(r, Slot(s, target)).Some?
    ensures ObjectAt(r, LocationOf(r, Slot(s, target)).value) == Some(closure)
    ensures closure in r.objects && r.objects[closure] == b.objects[closure]
    ensures forall k | 0 <= k < |h.sets[s]| ::
              Shares(r, s, k, r.objects[closure].captured[k], k in bind && h.sets[s][k].Some?)
  {
    SetObject(b, r, s, target);
    hide Valid, SetResult, Wrote, Shares;
    forall k | 0 <= k < |h.sets[s]|
      ensures Shares(r, s, k, r.objects[closure].captured[k], k in bind && h.sets[s][k].Some?)
    {
      SharesAfter(b, r, s, target, k, closure, Callable(name), k in bind && h.sets[s][k].Some?);
    }
  }

  lemma CaptureDone<V>(h: Heap<V>, b: Heap<V>, r: Heap<V>, s: nat, target: nat, closure: Id, name: Name, bind: set<nat>)
    requires s in h.sets && Bound(h, b, s, closure, name, bind, |h.sets[s]|) && Renamed(h, b) && Valid(b) && Valid(r)
    requires b.hand == [closure] && InSet(b, s, target) && SetResult(b, r, s, target)
    requires Wrote(b, r, Slot(s, target), Callable(name))
    ensures CaptureResult(h, r, s, target, name, bind)
  {
    CaptureAliases(h, b, r, Slot(s, target), Callable(name));
    CaptureClosure(h, b, r, s, target, closure, name, bind);
    BoundDone(h, b, s, closure, name, bind);
    hide Valid, SetResult, Wrote, Renamed, Bound, ContentAt, LocationOf, Shares;
    assert |r.objects[closure].captured| == |h.sets[s]| by {
      BoundLength(h, b, s, closure, name, bind);
    }
  }

  lemma BoundLength<V>(h: Heap<V>, b: Heap<V>, s: nat, closure: Id, name: Name, bind: set<nat>)
    requires s in h.sets && Bound(h, b, s, closure, name, bind, |h.sets[s]|)
    ensures closure in b.objects && b.objects[closure].Closure? && |b.objects[closure].captured| == |h.sets[s]|
  {
  }
}
