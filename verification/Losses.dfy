// Objects that nothing holds any more: what register operations lose and what they do not
// (src/types/reference.cpp, src/cpu/registerset.cpp, src/cpu/cpu.cpp:111-187).
module Losses {
  import opened Bytes
  import opened References

  // An object that is still in memory although nothing holds it: no destructor will ever reach it.
  ghost predicate Lost<V>(h: Heap<V>, id: Id) {
    id in h.objects && forall x :: Holds(h, x) != Some(id)
  }

  // Nothing is lost on the way from h to r.
  ghost predicate Keeps<V>(h: Heap<V>, r: Heap<V>) {
    forall id :: Lost(r, id) ==> Lost(h, id)
  }

  // Nothing is that was there before, but perhaps something that was made on the way.
  ghost predicate KeepsOld<V>(h: Heap<V>, r: Heap<V>) {
    forall id: Id :: Lost(r, id) ==> Lost(h, id) || id >= h.next
  }

  lemma KeepsNow<V>(h: Heap<V>)
    ensures Keeps(h, h) && KeepsOld(h, h)
  {
  }

  lemma KeepsThrough<V>(h: Heap<V>, m: Heap<V>, r: Heap<V>)
    requires Keeps(h, m) && Keeps(m, r)
    ensures Keeps(h, r) && KeepsOld(h, r)
  {
  }

  // What is still there is held by whoever target says, and what is new by e.
  lemma HeldOn<V>(h: Heap<V>, r: Heap<V>, target: Holder -> Holder, e: Holder)
    requires forall id <- r.objects :: id !in h.objects ==> Holds(r, e) == Some(id)
    requires forall x | Holds(h, x).Some? && Holds(h, x).value in r.objects :: Holds(r, target(x)) == Holds(h, x)
    ensures Keeps(h, r)
  {
    hide Holds;
    forall id: Id | id in r.objects && !Lost(h, id)
      ensures !Lost(r, id)
    {
      if id in h.objects {
        var x :| Holds(h, x) == Some(id);
        assert Holds(r, target(x)) == Some(id);
      } else {
        assert Holds(r, e) == Some(id);
      }
    }
  }

  lemma MadeKeeps<V>(h: Heap<V>, o: Object<V>)
    requires Bounded(h)
    ensures Keeps(h, Made(h, o))
  {
    HeldOn(h, Made(h, o), x => x, Hand(|h.hand|));
  }

  lemma MadeReferenceKeeps<V>(h: Heap<V>, c: Id)
    requires Bounded(h) && c in h.cells
    ensures Keeps(h, MadeReference(h, c))
  {
    HeldOn(h, MadeReference(h, c), x => x, Hand(|h.hand|));
  }

  lemma WrappedKeeps<V>(h: Heap<V>, something: bool)
    requires Bounded(h) && (something ==> h.hand != [])
    ensures Keeps(h, Wrapped(h, something))
  {
    var r := Wrapped(h, something);
    var last: int := if something then |h.hand| - 1 else -1;
    var target: Holder -> Holder := (x: Holder) => if x.Hand? && x.k == last then Pointer(h.next) else x;
    HeldOn(h, r, target, Hand(|r.hand| - 1));
  }

  lemma TakenKeeps<V>(h: Heap<V>, s: nat, i: nat)
    requires InSet(h, s, i) && h.sets[s][i].Some?
    ensures Keeps(h, TakenFrom(h, s, i))
  {
    var target: Holder -> Holder := x => if x == Slot(s, i) then Hand(|h.hand|) else x;
    HeldOn(h, TakenFrom(h, s, i), target, Hand(0));
  }

  lemma PutKeeps<V>(h: Heap<V>, s: nat, i: nat)
    requires InSet(h, s, i) && h.sets[s][i].None? && h.hand != []
    ensures Keeps(h, PutInto(h, s, i))
  {
    var target: Holder -> Holder := x => if x == Hand(|h.hand| - 1) then Slot(s, i) else x;
    HeldOn(h, PutInto(h, s, i), target, Hand(0));
  }

  lemma UnpointedKeeps<V>(h: Heap<V>, c: Id)
    requires c in h.cells && h.cells[c].pointer.Some?
    ensures Keeps(h, Unpointed(h, c))
  {
    var target: Holder -> Holder := x => if x == Pointer(c) then Hand(|h.hand|) else x;
    HeldOn(h, Unpointed(h, c), target, Hand(0));
  }

  lemma PointedKeeps<V>(h: Heap<V>, c: Id)
    requires c in h.cells && h.cells[c].pointer.None? && h.hand != []
    ensures Keeps(h, Pointed(h, c))
  {
    var target: Holder -> Holder := x => if x == Hand(|h.hand| - 1) then Pointer(c) else x;
    HeldOn(h, Pointed(h, c), target, Hand(0));
  }

  lemma CapturedKeeps<V>(h: Heap<V>, o: Id, i: nat)
    requires h.hand != [] && o in h.objects && h.objects[o].Closure? && i < |h.objects[o].captured|
    requires h.objects[o].captured[i].None?
    ensures Keeps(h, CapturedBy(h, o, i))
  {
    var target: Holder -> Holder := x => if x == Hand(|h.hand| - 1) then Captured(o, i) else x;
    HeldOn(h, CapturedBy(h, o, i), target, Hand(0));
  }

  // Letting go of the last object in the hand loses this object and no other.
  lemma ForgottenLoses<V>(h: Heap<V>)
    requires Valid(h) && h.hand != []
    ensures forall id :: Lost(Forgotten(h), id) <==> Lost(h, id) || id == Last(h)
  {
    var r := Forgotten(h);
    assert Holds(h, Hand(|h.hand| - 1)) == Some(Last(h));
    forall id
      ensures Lost(r, id) <==> Lost(h, id) || id == Last(h)
    {
      hide Valid;
      if Lost(r, id) && !Lost(h, id) {
        var x :| Holds(h, x) == Some(id);
        assert x != Hand(|h.hand| - 1) ==> Holds(r, x) == Holds(h, x);
      }
      if id == Last(h) {
        NotHeld(h, id);
      } else if Lost(h, id) {
        forall x
          ensures Holds(r, x) != Some(id)
        {
          assert Holds(r, x).Some? ==> Holds(r, x) == Holds(h, x);
        }
      }
    }
  }

  lemma NotHeld<V>(h: Heap<V>, id: Id)
    requires Valid(h) && h.hand != [] && id == Last(h)
    ensures Lost(Forgotten(h), id)
  {
    var r := Forgotten(h);
    assert Holds(h, Hand(|h.hand| - 1)) == Some(id);
    forall x | Holds(r, x).Some?
      ensures Holds(r, x) != Some(id)
    {
      assert Holds(h, x) == Holds(r, x) && x != Hand(|h.hand| - 1);
    }
  }

  // The position a filled place has among the filled ones.
  lemma {:induction false} FilledAt(s: seq<Option<Id>>, i: nat) returns (k: nat)
    requires i < |s| && s[i].Some?
    ensures k < |Filled(s)| && Filled(s)[k] == i
  {
    var n := |s| - 1;
    if i == n {
      k := |Filled(s[..n])|;
    } else {
      k := FilledAt(s[..n], i);
    }
  }

  // A destructor hands on everything that only its object kept alive.
  lemma DestroyedKeeps<V>(h: Heap<V>)
    requires Valid(h) && h.hand != []
    ensures Last(h) in h.objects && Keeps(h, Destroyed(h))
  {
    assert Holds(h, Hand(|h.hand| - 1)) == Some(Last(h));
    var r := Destroyed(h);
    forall id: Id | id in r.objects && !Lost(h, id)
      ensures !Lost(r, id)
    {
      assert id in h.objects;
      var x :| Holds(h, x) == Some(id);
      StillHeld(h, id, x);
    }
  }

  lemma StillHeld<V>(h: Heap<V>, id: Id, x: Holder)
    requires Valid(h) && h.hand != [] && Last(h) in h.objects
    requires Holds(h, x) == Some(id) && id in Destroyed(h).objects
    ensures !Lost(Destroyed(h), id)
  {
    hide Filled, Bounded, CapturesReferences, Single;
    var r, n := Destroyed(h), |h.hand| - 1;
    match h.objects[Last(h)] {
      case Data(_) => assert Holds(r, x) == Some(id);
      case Closure(_, captured) =>
        if x.Captured? && x.closure == Last(h) {
          var k := FilledAt(captured, x.position);
          assert Holds(r, Hand(n + k)) == Some(id);
        } else {
          assert Holds(r, x) == Some(id);
        }
      case Reference(c) =>
        if x == Pointer(c) && h.cells[c].count <= 1 {
          assert Holds(r, Hand(n)) == Some(id);
        } else {
          assert Holds(r, x) == Some(id);
        }
    }
  }
}
