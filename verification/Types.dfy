// Classes, their ancestors and the functions that messages resolve to (src/cpu/cpu.cpp:487-513,
// src/cpu/instr/prototype.cpp, src/cpu/instr/object.cpp:39-91).
module Types {
  import opened Bytes

  datatype Prototype = Prototype(name: Name, ancestors: seq<Name>, methods: map<Name, Name>)

  type Typesystem = map<Name, Prototype>

  // ----- the hierarchy -----

  // From a class to one of its bases, and so on.
  predicate Path(ts: Typesystem, p: seq<Name>) {
    forall i | 0 <= i < |p| - 1 :: p[i] in ts && p[i + 1] in ts[p[i]].ancestors
  }

  predicate PathFromTo(ts: Typesystem, p: seq<Name>, t: Name, s: Name) {
    |p| >= 2 && Path(ts, p) && p[0] == t && p[|p| - 1] == s
  }

  ghost predicate Ancestor(ts: Typesystem, t: Name, s: Name) {
    exists p :: PathFromTo(ts, p, t, s)
  }

  // Every base is registered.
  predicate Closed(ts: Typesystem) {
    forall t <- ts :: forall b <- ts[t].ancestors :: b in ts
  }

  // No class is its own ancestor.
  ghost predicate Acyclic(ts: Typesystem) {
    forall t <- ts :: !Ancestor(ts, t, t)
  }

  ghost function Ancestors(ts: Typesystem, t: Name): set<Name> {
    set s | s in ts && Ancestor(ts, t, s)
  }

  ghost function Rank(ts: Typesystem, t: Name): nat {
    |Ancestors(ts, t)|
  }

  lemma BaseIsAncestor(ts: Typesystem, t: Name, b: Name)
    requires t in ts && b in ts[t].ancestors
    ensures Ancestor(ts, t, b)
  {
    assert PathFromTo(ts, [t, b], t, b);
  }

  lemma AncestorTransitive(ts: Typesystem, t: Name, s: Name, u: Name)
    requires Ancestor(ts, t, s) && Ancestor(ts, s, u)
    ensures Ancestor(ts, t, u)
  {
    var p :| PathFromTo(ts, p, t, s);
    var q :| PathFromTo(ts, q, s, u);
    assert PathFromTo(ts, p + q[1..], t, u);
  }

  // An ancestor is a base, or an ancestor of one.
  lemma AncestorStep(ts: Typesystem, t: Name, s: Name)
    requires Ancestor(ts, t, s)
    ensures t in ts && exists b :: b in ts[t].ancestors && (b == s || Ancestor(ts, b, s))
  {
    var p :| PathFromTo(ts, p, t, s);
    var b := p[1];
    assert p[0] in ts && p[0 + 1] in ts[p[0]].ancestors;
    if |p| > 2 {
      assert PathFromTo(ts, p[1..], b, s);
    }
  }

  lemma AncestorRegistered(ts: Typesystem, t: Name, s: Name)
    requires Closed(ts) && Ancestor(ts, t, s)
    ensures s in ts
  {
    var p :| PathFromTo(ts, p, t, s);
    var i := |p| - 2;
    assert p[i] in ts && p[i + 1] in ts[p[i]].ancestors;
  }

  lemma RankDecreases(ts: Typesystem, t: Name, b: Name)
    requires Closed(ts) && Acyclic(ts) && t in ts && b in ts[t].ancestors
    ensures b in ts && Rank(ts, b) < Rank(ts, t)
  {
    BaseIsAncestor(ts, t, b);
    forall s | s in Ancestors(ts, b)
      ensures s in Ancestors(ts, t)
    {
      AncestorTransitive(ts, t, b, s);
    }
    assert b in Ancestors(ts, t) && b !in Ancestors(ts, b);
    ProperSubset(Ancestors(ts, b), Ancestors(ts, t), b);
  }

  lemma ProperSubset(a: set<Name>, b: set<Name>, x: Name)
    requires a <= b && x in b && x !in a
    ensures |a| < |b|
  {
    assert |b - a| == |b| - |a| && x in b - a;
  }

  // ----- the chain, and how much work it is -----

  // The largest number of bases of a class.
  ghost function MostBases(ts: Typesystem): (m: nat)
    ensures forall t <- ts :: |ts[t].ancestors| <= m
    decreases |ts|
  {
    if ts == map[] then 0
    else
      var t :| t in ts;
      var rest := MostBases(ts - {t});
      assert forall s <- ts :: s != t ==> s in ts - {t} && (ts - {t})[s] == ts[s];
      if |ts[t].ancestors| > rest then |ts[t].ancestors| else rest
  }

  function Times(a: nat, b: nat): nat {
    a * b
  }

  lemma TimesMonotone(a: nat, b: nat, c: nat, d: nat)
    requires a <= c && b <= d
    ensures Times(a, b) <= Times(c, d)
  {
    assert a * b <= c * b && c * b <= c * d;
  }

  lemma TimesNext(n: nat, w: nat)
    ensures Times(n + 1, w) == Times(n, w) + w && Times(0, w) == 0
  {
  }

  // A bound for the length of the chain of a class of rank r.
  function Longest(m: nat, r: nat): nat
    decreases r, 1
  {
    if r == 0 then 0 else Times(m, Weight(m, r - 1))
  }

  // A bound for the number of steps an element of rank r causes: one for itself, and those of the
  // elements of its chain, which have lower ranks.
  function Weight(m: nat, r: nat): (w: nat)
    ensures w >= 1
    decreases r, 2
  {
    if r == 0 then 1 else 1 + Times(Longest(m, r), Weight(m, r - 1))
  }

  lemma {:induction false} WeightStep(m: nat, r: nat)
    ensures Weight(m, r) <= Weight(m, r + 1) && Longest(m, r) <= Longest(m, r + 1)
    decreases r
  {
    hide Times;
    if r > 0 {
      WeightStep(m, r - 1);
      TimesMonotone(m, Weight(m, r - 1), m, Weight(m, r));
      TimesMonotone(Longest(m, r), Weight(m, r - 1), Longest(m, r + 1), Weight(m, r));
    }
  }

  lemma {:induction false} WeightMonotone(m: nat, q: nat, r: nat)
    requires q <= r
    ensures Weight(m, q) <= Weight(m, r)
    decreases r
  {
    hide Times, Weight;
    if q < r {
      WeightMonotone(m, q, r - 1);
      WeightStep(m, r - 1);
    }
  }

  // The work left for the elements of v from position i on.
  ghost function Remaining(ts: Typesystem, m: nat, v: seq<Name>, i: nat): nat
    requires i <= |v|
    decreases |v| - i
  {
    if i == |v| then 0 else Weight(m, Rank(ts, v[i])) + Remaining(ts, m, v, i + 1)
  }

  lemma {:induction false} RemainingConcat(ts: Typesystem, m: nat, v: seq<Name>, w: seq<Name>, i: nat)
    requires i <= |v|
    ensures Remaining(ts, m, v + w, i) == Remaining(ts, m, v, i) + Remaining(ts, m, w, 0)
    decreases |v| - i
  {
    hide Weight, Rank;
    if i < |v| {
      RemainingConcat(ts, m, v, w, i + 1);
    } else {
      RemainingShift(ts, m, v, w, 0);
    }
  }

  lemma {:induction false} RemainingShift(ts: Typesystem, m: nat, v: seq<Name>, w: seq<Name>, j: nat)
    requires j <= |w|
    ensures Remaining(ts, m, v + w, |v| + j) == Remaining(ts, m, w, j)
    decreases |w| - j
  {
    hide Weight, Rank;
    if j < |w| {
      RemainingShift(ts, m, v, w, j + 1);
    }
  }

  predicate Below(r: nat, rank: nat) {
    rank < r
  }

  // All elements are registered and of lower rank than r.
  ghost predicate AllBelow(ts: Typesystem, v: seq<Name>, r: nat) {
    forall x <- v :: x in ts && Below(r, Rank(ts, x))
  }

  lemma {:induction false} RemainingBound(ts: Typesystem, m: nat, v: seq<Name>, r: nat, i: nat)
    requires AllBelow(ts, v, r + 1) && i <= |v|
    ensures Remaining(ts, m, v, i) <= Times(|v| - i, Weight(m, r))
    decreases |v| - i
  {
    hide Times, Weight, Rank;
    if i == |v| {
      TimesNext(0, Weight(m, r));
    } else {
      RemainingBound(ts, m, v, r, i + 1);
      assert v[i] in v;
      WeightMonotone(m, Rank(ts, v[i]), r);
      TimesNext(|v| - i - 1, Weight(m, r));
    }
  }

  // Going on to the next element and appending its chain leaves less work.
  lemma ChainCosts(ts: Typesystem, m: nat, v: seq<Name>, i: nat, sub: seq<Name>)
    requires i < |v| && AllBelow(ts, sub, Rank(ts, v[i])) && |sub| <= Longest(m, Rank(ts, v[i]))
    ensures 1 + Remaining(ts, m, v + sub, i + 1) <= Remaining(ts, m, v, i)
  {
    hide Times, Rank;
    RemainingConcat(ts, m, v, sub, i + 1);
    var r := Rank(ts, v[i]);
    if r > 0 {
      RemainingBound(ts, m, sub, r - 1, 0);
      TimesMonotone(|sub|, Weight(m, r - 1), Longest(m, r), Weight(m, r - 1));
    }
  }

  lemma BasesBelow(ts: Typesystem, t: Name)
    requires Closed(ts) && Acyclic(ts) && t in ts
    ensures AllBelow(ts, ts[t].ancestors, Rank(ts, t))
    ensures ts[t].ancestors != [] ==> Rank(ts, t) > 0
  {
    hide Rank;
    forall b | b in ts[t].ancestors
      ensures b in ts && Rank(ts, b) < Rank(ts, t)
    {
      RankDecreases(ts, t, b);
    }
    if ts[t].ancestors != [] {
      assert ts[t].ancestors[0] in ts[t].ancestors;
    }
  }

  lemma BasesCost(ts: Typesystem, t: Name)
    requires Closed(ts) && Acyclic(ts) && t in ts
    ensures Remaining(ts, MostBases(ts), ts[t].ancestors, 0) <= Longest(MostBases(ts), Rank(ts, t))
  {
    hide Times, Rank, MostBases;
    var m, r, bases := MostBases(ts), Rank(ts, t), ts[t].ancestors;
    BasesBelow(ts, t);
    if bases != [] {
      RemainingBound(ts, m, bases, r - 1, 0);
      TimesMonotone(|bases|, Weight(m, r - 1), m, Weight(m, r - 1));
    }
  }

  // The chain of a class: its bases, and then behind the chains appended so far the chain of every
  // element in turn.
  ghost function Chain(ts: Typesystem, t: Name): (c: seq<Name>)
    requires Closed(ts) && Acyclic(ts) && t in ts
    ensures AllBelow(ts, c, Rank(ts, t)) && |c| <= Longest(MostBases(ts), Rank(ts, t))
    ensures ts[t].ancestors <= c
    decreases Rank(ts, t), 1, 0
  {
    BasesBelow(ts, t);
    BasesCost(ts, t);
    Extended(ts, Rank(ts, t), ts[t].ancestors, 0)
  }

  ghost function Extended(ts: Typesystem, r: nat, v: seq<Name>, i: nat): (c: seq<Name>)
    requires Closed(ts) && Acyclic(ts) && AllBelow(ts, v, r) && i <= |v|
    ensures AllBelow(ts, c, r) && v <= c && |c| <= i + Remaining(ts, MostBases(ts), v, i)
    decreases r, 0, Remaining(ts, MostBases(ts), v, i)
  {
    if i == |v| then v
    else
      assert v[i] in v;
      var sub := Chain(ts, v[i]);
      ChainCosts(ts, MostBases(ts), v, i, sub);
      Extended(ts, r, v + sub, i + 1)
  }

  // ----- what the chain contains -----

  ghost predicate AllAncestors(ts: Typesystem, t: Name, v: seq<Name>) {
    forall x <- v :: Ancestor(ts, t, x)
  }

  // Every ancestor of an element before position i is in v.
  ghost predicate Complete(ts: Typesystem, v: seq<Name>, i: nat) {
    forall k, s | 0 <= k < i && k < |v| && Ancestor(ts, v[k], s) :: s in v
  }

  lemma {:induction false} ExtendedMeaning(ts: Typesystem, t: Name, r: nat, v: seq<Name>, i: nat)
    requires Closed(ts) && Acyclic(ts) && AllBelow(ts, v, r) && i <= |v|
    requires AllAncestors(ts, t, v) && Complete(ts, v, i)
    ensures var c := Extended(ts, r, v, i); AllAncestors(ts, t, c) && Complete(ts, c, |c|) && v <= c
    decreases r, 0, Remaining(ts, MostBases(ts), v, i)
  {
    if i < |v| {
      assert v[i] in v;
      var sub := Chain(ts, v[i]);
      ChainMeaning(ts, v[i]);
      ChainCosts(ts, MostBases(ts), v, i, sub);
      ExtendStep(ts, t, v, i, sub);
      ExtendedMeaning(ts, t, r, v + sub, i + 1);
    }
  }

  lemma ExtendStep(ts: Typesystem, t: Name, v: seq<Name>, i: nat, sub: seq<Name>)
    requires i < |v| && AllAncestors(ts, t, v) && Complete(ts, v, i)
    requires forall s :: Ancestor(ts, v[i], s) <==> s in sub
    ensures AllAncestors(ts, t, v + sub) && Complete(ts, v + sub, i + 1)
  {
    hide Ancestor;
    forall x | x in sub
      ensures Ancestor(ts, t, x)
    {
      assert v[i] in v;
      AncestorTransitive(ts, t, v[i], x);
    }
    forall k, s | 0 <= k < i + 1 && k < |v + sub| && Ancestor(ts, (v + sub)[k], s)
      ensures s in v + sub
    {
      assert (v + sub)[k] == v[k];
    }
  }

  // The chain of a class starts with its bases in order and contains exactly its ancestors.
  lemma {:induction false} ChainMeaning(ts: Typesystem, t: Name)
    requires Closed(ts) && Acyclic(ts) && t in ts
    ensures ts[t].ancestors <= Chain(ts, t)
    ensures forall s :: Ancestor(ts, t, s) <==> s in Chain(ts, t)
    decreases Rank(ts, t), 1, 0
  {
    BasesBelow(ts, t);
    var bases, c := ts[t].ancestors, Chain(ts, t);
    forall b | b in bases
      ensures Ancestor(ts, t, b)
    {
      BaseIsAncestor(ts, t, b);
    }
    ExtendedMeaning(ts, t, Rank(ts, t), bases, 0);
    forall s | Ancestor(ts, t, s)
      ensures s in c
    {
      AncestorStep(ts, t, s);
      var b :| b in bases && (b == s || Ancestor(ts, b, s));
      assert b in c;
    }
  }

  // ----- the order of the chain -----

  // The first of the names that is wanted.
  function First(v: seq<Name>, wanted: set<Name>): (r: Option<Name>)
    ensures r.Some? ==> r.value in v && r.value in wanted
    ensures r.None? ==> forall x <- v :: x !in wanted
  {
    if v == [] then None else if v[0] in wanted then Some(v[0]) else First(v[1..], wanted)
  }

  lemma {:induction false} FirstAt(v: seq<Name>, j: nat, wanted: set<Name>)
    requires j < |v| && v[j] in wanted && forall j' | 0 <= j' < j :: v[j'] !in wanted
    ensures First(v, wanted) == Some(v[j])
  {
    if j > 0 {
      assert v[0] !in wanted;
      assert forall j' | 0 <= j' < j - 1 :: v[1..][j'] == v[j' + 1];
      FirstAt(v[1..], j - 1, wanted);
    }
  }

  lemma {:induction false} PlaceOfFirst(v: seq<Name>, wanted: set<Name>) returns (k: nat)
    requires First(v, wanted).Some?
    ensures k < |v| && v[k] == First(v, wanted).value && v[k] in wanted && forall j | 0 <= j < k :: v[j] !in wanted
  {
    if v[0] in wanted {
      k := 0;
    } else {
      k := PlaceOfFirst(v[1..], wanted);
      assert forall j | 0 < j < k + 1 :: v[j] == v[1..][j - 1];
      k := k + 1;
    }
  }

  lemma {:induction false} FirstOfConcat(a: seq<Name>, b: seq<Name>, wanted: set<Name>)
    ensures First(a + b, wanted) == if First(a, wanted).Some? then First(a, wanted) else First(b, wanted)
  {
    if a == [] {
      assert a + b == b;
    } else {
      assert (a + b)[1..] == a[1..] + b;
      FirstOfConcat(a[1..], b, wanted);
    }
  }

  // The ancestor of t that is wanted most: the first base that is wanted, and when none is, the one
  // above the first base that has one above it.
  ghost function Nearest(ts: Typesystem, t: Name, wanted: set<Name>): Option<Name>
    requires Closed(ts) && Acyclic(ts) && t in ts
    decreases Rank(ts, t), 1, 0
  {
    BasesBelow(ts, t);
    var bases := ts[t].ancestors;
    if First(bases, wanted).Some? then First(bases, wanted) else NearestAbove(ts, Rank(ts, t), bases, wanted)
  }

  ghost function NearestAbove(ts: Typesystem, r: nat, v: seq<Name>, wanted: set<Name>): Option<Name>
    requires Closed(ts) && Acyclic(ts) && AllBelow(ts, v, r)
    decreases r, 0, |v|
  {
    if v == [] then None
    else
      assert v[0] in v && forall x <- v[1..] :: x in v;
      var above := Nearest(ts, v[0], wanted);
      if above.Some? then above else NearestAbove(ts, r, v[1..], wanted)
  }

  // The chains of the names one after the other.
  ghost function Chains(ts: Typesystem, r: nat, v: seq<Name>): seq<Name>
    requires Closed(ts) && Acyclic(ts) && AllBelow(ts, v, r)
  {
    if v == [] then []
    else
      assert v[0] in v && forall x <- v[1..] :: x in v;
      Chain(ts, v[0]) + Chains(ts, r, v[1..])
  }

  lemma TailBelow(ts: Typesystem, v: seq<Name>, r: nat)
    requires AllBelow(ts, v, r) && v != []
    ensures v[0] in ts && AllBelow(ts, v[1..], r)
  {
    hide Rank;
    assert v[0] in v && forall x <- v[1..] :: x in v;
  }

  lemma ExtendedNext(ts: Typesystem, r: nat, u: seq<Name>, i: nat)
    requires Closed(ts) && Acyclic(ts) && AllBelow(ts, u, r) && i < |u|
    ensures u[i] in ts && AllBelow(ts, u + Chain(ts, u[i]), r)
    ensures Extended(ts, r, u, i) == Extended(ts, r, u + Chain(ts, u[i]), i + 1)
  {
    hide Rank, Longest, Acyclic, Closed, Remaining, MostBases, Chain;
    assert u[i] in u;
    ChainCosts(ts, MostBases(ts), u, i, Chain(ts, u[i]));
  }

  lemma ExtendedKeeps(ts: Typesystem, r: nat, u: seq<Name>, i: nat)
    requires Closed(ts) && Acyclic(ts) && AllBelow(ts, u, r) && i <= |u|
    ensures u <= Extended(ts, r, u, i)
  {
  }

  lemma ChainsStep(ts: Typesystem, r: nat, v: seq<Name>)
    requires Closed(ts) && Acyclic(ts) && AllBelow(ts, v, r)
    ensures v == [] ==> Chains(ts, r, v) == []
    ensures v != [] ==> v[0] in ts && AllBelow(ts, v[1..], r)
    ensures v != [] ==> Chains(ts, r, v) == Chain(ts, v[0]) + Chains(ts, r, v[1..])
  {
    hide Rank, Chain, Acyclic, Closed;
    if v != [] {
      TailBelow(ts, v, r);
    }
  }

  // What has been appended to u once the elements v from position i on have been passed.
  lemma {:induction false} ExtendedPrefix(ts: Typesystem, r: nat, u: seq<Name>, v: seq<Name>, i: nat)
    requires Closed(ts) && Acyclic(ts) && AllBelow(ts, u, r) && AllBelow(ts, v, r)
    requires i + |v| <= |u| && u[i..i + |v|] == v
    ensures u + Chains(ts, r, v) <= Extended(ts, r, u, i)
    decreases |v|
  {
    hide Rank, Longest, Acyclic, Closed, Remaining, MostBases, Extended, Chain, AllBelow, Chains;
    ChainsStep(ts, r, v);
    if v == [] {
      assert u + [] == u;
      ExtendedKeeps(ts, r, u, i);
    } else {
      TailBelow(ts, v, r);
      var sub := Chain(ts, v[0]);
      assert u[i] == v[0] && (u + sub)[i + 1..i + 1 + |v[1..]|] == u[i..i + |v|][1..] == v[1..];
      ExtendedNext(ts, r, u, i);
      ExtendedPrefix(ts, r, u + sub, v[1..], i + 1);
      assert u + Chains(ts, r, v) == u + sub + Chains(ts, r, v[1..]);
    }
  }

  lemma {:induction false} ChainsContain(ts: Typesystem, r: nat, v: seq<Name>, b: Name, s: Name)
    requires Closed(ts) && Acyclic(ts) && AllBelow(ts, v, r) && b in v && Ancestor(ts, b, s)
    ensures s in Chains(ts, r, v)
  {
    hide Rank, Longest, Acyclic, Ancestor;
    assert v[0] in v && forall x <- v[1..] :: x in v;
    if v[0] == b {
      ChainMeaning(ts, b);
    } else {
      ChainsContain(ts, r, v[1..], b, s);
    }
  }

  // The chain of a class begins with its bases and their chains, and holds nothing else.
  lemma ChainBegins(ts: Typesystem, t: Name)
    requires Closed(ts) && Acyclic(ts) && t in ts
    ensures AllBelow(ts, ts[t].ancestors, Rank(ts, t))
    ensures var begin := ts[t].ancestors + Chains(ts, Rank(ts, t), ts[t].ancestors);
            begin <= Chain(ts, t) && forall s <- Chain(ts, t) :: s in begin
  {
    hide Rank, Longest, Acyclic, Ancestor, MostBases, Weight;
    BasesBelow(ts, t);
    var bases, r := ts[t].ancestors, Rank(ts, t);
    ExtendedPrefix(ts, r, bases, bases, 0);
    ChainMeaning(ts, t);
    forall s | s in Chain(ts, t)
      ensures s in bases + Chains(ts, r, bases)
    {
      AncestorStep(ts, t, s);
      var b :| b in bases && (b == s || Ancestor(ts, b, s));
      if b != s {
        ChainsContain(ts, r, bases, b, s);
      }
    }
  }

  // The first wanted name of the chain is the wanted ancestor that is nearest.
  lemma {:induction false} ChainOrder(ts: Typesystem, t: Name, wanted: set<Name>)
    requires Closed(ts) && Acyclic(ts) && t in ts
    ensures First(Chain(ts, t), wanted) == Nearest(ts, t, wanted)
    decreases Rank(ts, t), 1, 0
  {
    hide Rank, Longest, Acyclic, Ancestor, MostBases, Weight, Chain;
    ChainBegins(ts, t);
    var bases, r, c := ts[t].ancestors, Rank(ts, t), Chain(ts, t);
    var begin := bases + Chains(ts, r, bases);
    ChainsOrder(ts, r, bases, wanted);
    FirstOfConcat(bases, Chains(ts, r, bases), wanted);
    FirstOfConcat(begin, c[|begin|..], wanted);
    assert c == begin + c[|begin|..];
  }

  lemma {:induction false} ChainsOrder(ts: Typesystem, r: nat, v: seq<Name>, wanted: set<Name>)
    requires Closed(ts) && Acyclic(ts) && AllBelow(ts, v, r)
    ensures First(Chains(ts, r, v), wanted) == NearestAbove(ts, r, v, wanted)
    decreases r, 0, |v|
  {
    hide Rank, Longest, Acyclic, Ancestor, Chain, Nearest;
    if v != [] {
      assert v[0] in v && forall x <- v[1..] :: x in v;
      ChainOrder(ts, v[0], wanted);
      ChainsOrder(ts, r, v[1..], wanted);
      FirstOfConcat(Chain(ts, v[0]), Chains(ts, r, v[1..]), wanted);
    }
  }

  // The vector grows while it is iterated.
  method InheritanceChainOf(ts: Typesystem, t: Name) returns (ichain: seq<Name>)
    requires Closed(ts) && Acyclic(ts) && t in ts
    ensures ichain == Chain(ts, t)
    decreases Rank(ts, t)
  {
    hide Rank, Longest, Weight, Acyclic, MostBases;
    ichain := ts[t].ancestors;
    BasesBelow(ts, t);
    var i := 0;
    while i < |ichain|
      invariant i <= |ichain| && AllBelow(ts, ichain, Rank(ts, t))
      invariant Extended(ts, Rank(ts, t), ichain, i) == Chain(ts, t)
      decreases Remaining(ts, MostBases(ts), ichain, i)
    {
      assert ichain[i] in ichain;
      var sub := InheritanceChainOf(ts, ichain[i]);
      ChainCosts(ts, MostBases(ts), ichain, i, sub);
      ichain := ichain + sub;
      i := i + 1;
    }
  }

  // ----- registration -----

  function Registered(ts: Typesystem, p: Prototype): Typesystem {
    ts[p.name := p]
  }

  predicate BasesRegistered(ts: Typesystem, p: Prototype) {
    forall b <- p.ancestors :: b in ts
  }

  // No base of the prototype is its own class or a descendant of it.
  ghost predicate Safe(ts: Typesystem, p: Prototype) {
    forall b <- p.ancestors :: b != p.name && !Ancestor(ts, b, p.name)
  }

  // A path that ends where it meets n for the first time does not use the bases of n.
  lemma {:induction false} FirstMeeting(a: Typesystem, b: Typesystem, n: Name, p: seq<Name>, t: Name)
    requires (forall u | u != n && u in a :: u in b && a[u] == b[u]) && PathFromTo(a, p, t, n) && t != n
    ensures Ancestor(b, t, n)
  {
    assert p[0] in a && p[0 + 1] in a[p[0]].ancestors;
    BaseIsAncestor(b, t, p[1]);
    if p[1] != n {
      assert PathFromTo(a, p[1..], p[1], n);
      FirstMeeting(a, b, n, p[1..], p[1]);
      AncestorTransitive(b, t, p[1], n);
    }
  }

  lemma AncestorElsewhere(a: Typesystem, b: Typesystem, n: Name, t: Name)
    requires (forall u | u != n && u in a :: u in b && a[u] == b[u]) && Ancestor(a, t, n) && t != n
    ensures Ancestor(b, t, n)
  {
    var p :| PathFromTo(a, p, t, n);
    FirstMeeting(a, b, n, p, t);
  }

  // A cycle either avoids n or goes through a base of n and back to n.
  lemma CycleThrough(a: Typesystem, b: Typesystem, n: Name, p: seq<Name>, t: Name)
    requires (forall u | u != n && u in a :: u in b && a[u] == b[u]) && PathFromTo(a, p, t, t)
    ensures PathFromTo(b, p, t, t) || (n in a && exists c :: c in a[n].ancestors && (c == n || Ancestor(a, c, n)))
  {
    if k :| 0 <= k < |p| - 1 && p[k] == n {
      var c := p[k + 1];
      assert p[k] in a && c in a[n].ancestors;
      if c != n {
        var q := p[k + 1..] + p[1..k + 1];
        RotatedPath(a, p, k, t);
        assert PathFromTo(a, q, c, n);
      }
    } else {
      assert forall i | 0 <= i < |p| - 1 :: p[i] in a && p[i + 1] in a[p[i]].ancestors && p[i] != n;
      assert PathFromTo(b, p, t, t);
    }
  }

  lemma RotatedPath(a: Typesystem, p: seq<Name>, k: nat, t: Name)
    requires PathFromTo(a, p, t, t) && k < |p| - 1 && p[k + 1] != p[k]
    ensures PathFromTo(a, p[k + 1..] + p[1..k + 1], p[k + 1], p[k])
  {
    var q, m := p[k + 1..] + p[1..k + 1], |p| - (k + 1);
    assert m >= 1 && |q| == m + k;
    forall i | 0 <= i < |q| - 1
      ensures q[i] in a && q[i + 1] in a[q[i]].ancestors
    {
      if i < m - 1 {
        assert q[i] == p[k + 1 + i] && q[i + 1] == p[k + 1 + i + 1];
      } else {
        var j := i - (m - 1);
        assert q[i] == p[j] && q[i + 1] == p[j + 1];
      }
    }
    if k == 0 {
      assert p[1..1] == [] && q[|q| - 1] == p[|p| - 1] == t == p[0];
    }
  }

  // Registering a class keeps the hierarchy closed, and keeps it acyclic exactly when no base is
  // the class itself or already descends from it.
  lemma RegistrationIsExact(ts: Typesystem, p: Prototype)
    requires Closed(ts) && Acyclic(ts) && BasesRegistered(ts, p)
    ensures Closed(Registered(ts, p))
    ensures Acyclic(Registered(ts, p)) <==> Safe(ts, p)
  {
    var r, n := Registered(ts, p), p.name;
    if !Safe(ts, p) {
      var b :| b in p.ancestors && (b == n || Ancestor(ts, b, n));
      BaseIsAncestor(r, n, b);
      if b != n {
        AncestorElsewhere(ts, r, n, b);
        AncestorTransitive(r, n, b, n);
      }
      assert n in r && Ancestor(r, n, n);
    } else {
      forall t | t in r
        ensures !Ancestor(r, t, t)
      {
        NewCycle(ts, p, t);
      }
    }
  }

  // A cycle is an old one, or goes through a base that descends from the class.
  lemma NewCycle(ts: Typesystem, p: Prototype, t: Name)
    requires Closed(ts)
    ensures Ancestor(Registered(ts, p), t, t) ==> !Safe(ts, p) || (t in ts && Ancestor(ts, t, t))
  {
    var r, n := Registered(ts, p), p.name;
    if Ancestor(r, t, t) {
      var q :| PathFromTo(r, q, t, t);
      CycleThrough(r, ts, n, q, t);
      if PathFromTo(ts, q, t, t) {
        AncestorRegistered(ts, t, t);
      } else {
        var c :| c in r[n].ancestors && (c == n || Ancestor(r, c, n));
        if c != n {
          AncestorElsewhere(r, ts, n, c);
        }
      }
    }
  }

  // A class that is new to the system can always be registered.
  lemma FirstRegistration(ts: Typesystem, p: Prototype)
    requires Closed(ts) && BasesRegistered(ts, p) && p.name !in ts
    ensures Safe(ts, p)
  {
    forall b | b in p.ancestors
      ensures b != p.name && !Ancestor(ts, b, p.name)
    {
      if Ancestor(ts, b, p.name) {
        AncestorRegistered(ts, b, p.name);
      }
    }
  }

  class Types {
    const functions: set<Name>
    var typesystem: Typesystem
    var prototypes: map<nat, Prototype>   // by register

    constructor (functions: set<Name>)
      requires [] !in functions
      ensures Valid() && typesystem == map[]
    {
      this.functions := functions;
      typesystem, prototypes := map[], map[];
    }

    // Bases are registered before the classes that derive from them, and methods are functions.
    ghost predicate Valid()
      reads this
    {
      && [] !in functions && Closed(typesystem) && Acyclic(typesystem)
      && (forall reg <- prototypes :: BasesRegistered(typesystem, prototypes[reg]) && Attached(prototypes[reg]))
      && (forall t <- typesystem :: Attached(typesystem[t]))
    }

    predicate Attached(p: Prototype) {
      forall m <- p.methods :: p.methods[m] in functions
    }

    method Class(reg: nat, name: Name)
      requires Valid()
      modifies this`prototypes
      ensures Valid() && prototypes == old(prototypes)[reg := Prototype(name, [], map[])]
    {
      prototypes := prototypes[reg := Prototype(name, [], map[])];
    }

    method Derive(reg: nat, base: Name) returns (ok: bool)
      requires Valid() && reg in prototypes
      modifies this`prototypes
      ensures Valid() && (ok <==> base in typesystem)
      ensures var p := old(prototypes)[reg];
              prototypes == if ok then old(prototypes)[reg := p.(ancestors := p.ancestors + [base])] else old(prototypes)
    {
      ok := base in typesystem;
      if ok {
        var p := prototypes[reg];
        prototypes := prototypes[reg := p.(ancestors := p.ancestors + [base])];
      }
    }

    method Attach(reg: nat, function_: Name, method_: Name) returns (ok: bool)
      requires Valid() && reg in prototypes
      modifies this`prototypes
      ensures Valid() && (ok <==> function_ in functions)
      ensures var p := old(prototypes)[reg];
              prototypes == if ok then old(prototypes)[reg := p.(methods := p.methods[method_ := function_])] else old(prototypes)
    {
      ok := function_ in functions;
      if ok {
        var p := prototypes[reg];
        prototypes := prototypes[reg := p.(methods := p.methods[method_ := function_])];
      }
    }

    // The system stays closed in any case; it stays acyclic when the class is new, or else exactly
    // when no base of it is or descends from the class it replaces.
    method Register(reg: nat)
      requires Valid() && reg in prototypes
      modifies this
      ensures typesystem == old(typesystem[prototypes[reg].name := prototypes[reg]]) && prototypes == old(prototypes) - {reg}
      ensures Valid() <==> old(Safe(typesystem, prototypes[reg]))
      ensures old(prototypes[reg].name !in typesystem) ==> Valid()
    {
      var p := prototypes[reg];
      RegistrationIsExact(typesystem, p);
      if p.name !in typesystem {
        FirstRegistration(typesystem, p);
      }
      typesystem := typesystem[p.name := p];
      prototypes := prototypes - {reg};
    }

    // The function a message to an object of class t resolves to.
    method Resolve(t: Name, method_: Name) returns (r: Result<Name>)
      requires Valid() && t in typesystem
      ensures r.Ok? <==> exists c :: (c == t || Ancestor(typesystem, t, c)) && c in typesystem && method_ in typesystem[c].methods
      ensures r.Ok? ==> FirstAcceptor(typesystem, [t] + Chain(typesystem, t), method_, r.value)
    {
      var mro := InheritanceChainOf(typesystem, t);
      ChainMeaning(typesystem, t);
      mro := [t] + mro;
      var functionName: Name := [];
      var i := 0;
      while i < |mro|
        invariant 0 <= i <= |mro| && functionName == []
        invariant forall k | 0 <= k < i :: mro[k] in typesystem ==> method_ !in typesystem[mro[k]].methods
      {
        ResolvesIn(typesystem, t, mro, i);
        if method_ in typesystem[mro[i]].methods {
          functionName := typesystem[mro[i]].methods[method_];
          assert Attached(typesystem[mro[i]]);
          assert FirstAcceptor(typesystem, mro, method_, functionName);
          break;
        }
        i := i + 1;
      }
      if |functionName| == 0 {
        forall c | c == t || Ancestor(typesystem, t, c)
          ensures !(c in typesystem && method_ in typesystem[c].methods)
        {
          assert c in mro;
        }
        return Err;
      }
      r := Ok(functionName);
    }
  }

  // The first class in the order that accepts the method resolves it to f.
  predicate FirstAcceptor(ts: Typesystem, mro: seq<Name>, m: Name, f: Name) {
    exists k | 0 <= k < |mro| ::
      && mro[k] in ts && m in ts[mro[k]].methods && ts[mro[k]].methods[m] == f
      && forall j | 0 <= j < k :: mro[j] in ts ==> m !in ts[mro[j]].methods
  }

  lemma ResolvesIn(ts: Typesystem, t: Name, mro: seq<Name>, i: nat)
    requires Closed(ts) && Acyclic(ts) && t in ts && i < |mro| && mro == [t] + Chain(ts, t)
    ensures mro[i] in ts && (mro[i] == t || Ancestor(ts, t, mro[i]))
  {
    ChainMeaning(ts, t);
    if i > 0 {
      assert mro[i] == Chain(ts, t)[i - 1] && mro[i] in Chain(ts, t);
    }
  }

  function Acceptors(ts: Typesystem, m: Name): set<Name> {
    set c | c in ts && m in ts[c].methods
  }

  // k is the position of the first class that accepts the method, and resolves it to f.
  predicate AcceptsAt(ts: Typesystem, mro: seq<Name>, m: Name, f: Name, k: nat) {
    && k < |mro| && mro[k] in Acceptors(ts, m) && ts[mro[k]].methods[m] == f
    && forall j | 0 <= j < k :: mro[j] !in Acceptors(ts, m)
  }

  lemma AcceptsSomewhere(ts: Typesystem, mro: seq<Name>, m: Name, f: Name)
    ensures FirstAcceptor(ts, mro, m, f) <==> exists k :: AcceptsAt(ts, mro, m, f, k)
  {
    forall k | 0 <= k < |mro|
      ensures AcceptsAt(ts, mro, m, f, k) <==>
              (&& mro[k] in ts && m in ts[mro[k]].methods && ts[mro[k]].methods[m] == f
               && forall j | 0 <= j < k :: mro[j] in ts ==> m !in ts[mro[j]].methods)
    {
    }
  }

  lemma AcceptorIsFirst(ts: Typesystem, mro: seq<Name>, m: Name, f: Name)
    ensures FirstAcceptor(ts, mro, m, f) <==>
            First(mro, Acceptors(ts, m)).Some? && ts[First(mro, Acceptors(ts, m)).value].methods[m] == f
  {
    hide FirstAcceptor;
    AcceptsSomewhere(ts, mro, m, f);
    if k :| AcceptsAt(ts, mro, m, f, k) {
      FirstAt(mro, k, Acceptors(ts, m));
    }
    if First(mro, Acceptors(ts, m)).Some? && ts[First(mro, Acceptors(ts, m)).value].methods[m] == f {
      var k := PlaceOfFirst(mro, Acceptors(ts, m));
      assert AcceptsAt(ts, mro, m, f, k);
    }
  }

  // The class that answers a message to an object of class t: t itself, else its nearest ancestor that
  // accepts it.
  ghost function Responsible(ts: Typesystem, t: Name, m: Name): Option<Name>
    requires Closed(ts) && Acyclic(ts) && t in ts
  {
    if m in ts[t].methods then Some(t) else Nearest(ts, t, Acceptors(ts, m))
  }

  // What the search along the chain finds is what that class does.
  lemma ResolutionOrder(ts: Typesystem, t: Name, m: Name, f: Name)
    requires Closed(ts) && Acyclic(ts) && t in ts
    ensures Responsible(ts, t, m).Some? ==> Responsible(ts, t, m).value in Acceptors(ts, m)
    ensures FirstAcceptor(ts, [t] + Chain(ts, t), m, f) <==>
            Responsible(ts, t, m).Some? && ts[Responsible(ts, t, m).value].methods[m] == f
  {
    hide Chain, Nearest, FirstAcceptor, Acyclic, Closed;
    AcceptorIsFirst(ts, [t] + Chain(ts, t), m, f);
    FirstOfConcat([t], Chain(ts, t), Acceptors(ts, m));
    ChainOrder(ts, t, Acceptors(ts, m));
  }

  const PARENT: Name := [80]
  const CHILD: Name := [67]

  // A class, one derived from it, and the first registered again as derived from the second.
  lemma RegisteredAgain()
    ensures var ts := map[PARENT := Prototype(PARENT, [], map[]), CHILD := Prototype(CHILD, [PARENT], map[])];
            var p := Prototype(PARENT, [CHILD], map[]);
            Closed(ts) && Acyclic(ts) && BasesRegistered(ts, p) && !Acyclic(Registered(ts, p))
  {
    var ts := map[PARENT := Prototype(PARENT, [], map[]), CHILD := Prototype(CHILD, [PARENT], map[])];
    var p := Prototype(PARENT, [CHILD], map[]);
    assert ts[CHILD].ancestors == [PARENT] && ts[PARENT].ancestors == [];
    forall s | Ancestor(ts, PARENT, s)
      ensures false
    {
      AncestorStep(ts, PARENT, s);
    }
    if Ancestor(ts, CHILD, CHILD) {
      AncestorStep(ts, CHILD, CHILD);
    }
    BaseIsAncestor(ts, CHILD, PARENT);
    RegistrationIsExact(ts, p);
    assert CHILD in p.ancestors;
  }
}
