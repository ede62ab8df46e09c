// Handlers and class hierarchies together: which handler an object of a class gets
// (src/cpu/cpu.cpp:487-513, 641-683).
module Handlers {
  import opened Bytes
  import opened Machine
  import opened Stacks
  import T = Types

  // The machine knows the classes of ts: what it asks for the ancestors of a type is their chain.
  ghost predicate Knows<D>(env: Env<D>, d: D, ts: T.Typesystem) {
    && T.Closed(ts) && T.Acyclic(ts)
    && forall t: Name :: env.sem.chain(t, d) == if t in ts then Some(T.Chain(ts, t)) else None
  }

  // The class and what it is derived from.
  ghost predicate IsA(ts: T.Typesystem, c: Name, s: Name) {
    s == c || (c in ts && T.Ancestor(ts, c, s))
  }

  // A handler of the block is meant for objects of the class.
  ghost predicate Handles(b: Block, ts: T.Typesystem, c: Name) {
    exists s <- b.catchers :: IsA(ts, c, s)
  }

  ghost function Candidates(ts: T.Typesystem, c: Name): seq<Name>
    requires T.Closed(ts) && T.Acyclic(ts)
  {
    if c in ts then [c] + T.Chain(ts, c) else [c]
  }

  lemma CandidatesAre<D>(env: Env<D>, d: D, ts: T.Typesystem, c: Name)
    requires Knows(env, d, ts)
    ensures TypesOf(env, d, c) == Candidates(ts, c)
    ensures forall s :: s in Candidates(ts, c) <==> IsA(ts, c, s)
  {
    hide T.Ancestor, T.Acyclic, T.Closed;
    if c in ts {
      T.ChainMeaning(ts, c);
    }
  }

  lemma HandlesMeaning(b: Block, ts: T.Typesystem, c: Name, types: seq<Name>)
    requires forall s :: s in types <==> IsA(ts, c, s)
    ensures Handles(b, ts, c) <==> exists j :: 0 <= j < |types| && types[j] in b.catchers
  {
    hide IsA;
    if Handles(b, ts, c) {
      var s :| s in b.catchers && IsA(ts, c, s);
      var j :| 0 <= j < |types| && types[j] == s;
    }
    if j :| 0 <= j < |types| && types[j] in b.catchers {
      assert types[j] in types;
    }
  }

  // The handler chosen in block b for class c: its own, else that of its nearest ancestor with one.
  ghost function BestHandler(b: Block, ts: T.Typesystem, c: Name): Option<Name>
    requires T.Closed(ts) && T.Acyclic(ts)
  {
    if c in b.catchers then Some(c) else if c in ts then T.Nearest(ts, c, b.catchers.Keys) else None
  }

  lemma FirstIsBest(b: Block, ts: T.Typesystem, c: Name, j: nat)
    requires T.Closed(ts) && T.Acyclic(ts)
    requires j < |Candidates(ts, c)| && Candidates(ts, c)[j] in b.catchers
    requires forall j' | 0 <= j' < j :: Candidates(ts, c)[j'] !in b.catchers
    ensures BestHandler(b, ts, c) == Some(Candidates(ts, c)[j])
  {
    hide T.Acyclic, T.Closed, T.Chain, T.Nearest;
    var types, wanted := Candidates(ts, c), b.catchers.Keys;
    T.FirstAt(types, j, wanted);
    if c in ts {
      assert types == [c] + T.Chain(ts, c);
      T.FirstOfConcat([c], T.Chain(ts, c), wanted);
      T.ChainOrder(ts, c, wanted);
    }
  }

  // Where the machine catches an object is the innermost block with a handler for its class.
  lemma BestOfInnermost(blocks: seq<Block>, ts: T.Typesystem, c: Name, k: nat, j: nat)
    requires T.Closed(ts) && T.Acyclic(ts) && Innermost(blocks, Candidates(ts, c), k, j)
    requires forall s :: s in Candidates(ts, c) <==> IsA(ts, c, s)
    ensures BestHandler(blocks[k], ts, c) == Some(Candidates(ts, c)[j]) && Handles(blocks[k], ts, c)
    ensures forall k' | k < k' < |blocks| :: !Handles(blocks[k'], ts, c)
  {
    hide Handles, IsA, Candidates, BestHandler, T.Closed, T.Acyclic;
    var types := Candidates(ts, c);
    FirstIsBest(blocks[k], ts, c, j);
    forall k' | k <= k' < |blocks|
      ensures Handles(blocks[k'], ts, c) <==> k' == k
    {
      HandlesMeaning(blocks[k'], ts, c, types);
    }
  }

  lemma CaughtSomewhere(blocks: seq<Block>, ts: T.Typesystem, c: Name, types: seq<Name>)
    requires forall s :: s in types <==> IsA(ts, c, s)
    ensures Uncaught(blocks, types) <==> forall k | 0 <= k < |blocks| :: !Handles(blocks[k], ts, c)
  {
    hide Handles, IsA;
    forall k | 0 <= k < |blocks|
      ensures Handles(blocks[k], ts, c) <==> exists j :: 0 <= j < |types| && types[j] in blocks[k].catchers
    {
      HandlesMeaning(blocks[k], ts, c, types);
    }
  }

  lemma WhereCaught<D>(env: Env<D>, m: Machine<D>, types: seq<Name>) returns (k: nat, j: nat)
    requires m.frames != [] && DistinctIds(m.frames) && m.status.Running?
    requires m.thrown.Some? && ByType(m.blocks, m.thrown.value)
    requires types == TypesOf(env, m.data, m.thrown.value.Type()) && Settle(env, m).status.Running?
    ensures k < |m.blocks| && j < |types| && Innermost(m.blocks, types, k, j)
    ensures var r := Settle(env, m); r.blocks == m.blocks[..k + 1] && r.ip == m.blocks[k].catchers[types[j]]
  {
    hide TypesOf, Settle, Uncaught, ByType, DistinctIds, TopAfter, Regained;
    Unwinding(env, m);
    k, j :| Innermost(m.blocks, types, k, j) && Settle(env, m).blocks == m.blocks[..k + 1]
            && Settle(env, m).ip == m.blocks[k].catchers[types[j]];
  }

  lemma WhetherCaught<D>(env: Env<D>, m: Machine<D>)
    requires m.frames != [] && DistinctIds(m.frames) && m.status.Running?
    requires m.thrown.Some? && ByType(m.blocks, m.thrown.value)
    ensures Settle(env, m).status.Running? <==> !Uncaught(m.blocks, TypesOf(env, m.data, m.thrown.value.Type()))
  {
    hide TypesOf, Settle, Uncaught, ByType, DistinctIds, TopAfter, Regained, Innermost;
    Unwinding(env, m);
  }

  // From m, an object of class c has come to the handler for class s of block k, the innermost block that
  // has one and there the best one.
  ghost predicate HandledBy<D>(m: Machine<D>, r: Machine<D>, ts: T.Typesystem, c: Name, k: nat, s: Name) {
    && T.Closed(ts) && T.Acyclic(ts)
    && k < |m.blocks| && BestHandler(m.blocks[k], ts, c) == Some(s) && s in m.blocks[k].catchers
    && (forall k' | k < k' < |m.blocks| :: !Handles(m.blocks[k'], ts, c))
    && r.blocks == m.blocks[..k + 1] && r.ip == m.blocks[k].catchers[s]
  }

  // An object is handled by the innermost block that has a handler for its class or an ancestor of it,
  // and there by the best one; it is unhandled exactly when there is no such block.
  lemma ClassHandler<D>(env: Env<D>, m: Machine<D>, ts: T.Typesystem)
    requires m.frames != [] && DistinctIds(m.frames) && m.status.Running?
    requires m.thrown.Some? && ByType(m.blocks, m.thrown.value) && Knows(env, m.data, ts)
    ensures var c, r := m.thrown.value.Type(), Settle(env, m);
            && (r.status.Running? <==> exists k :: 0 <= k < |m.blocks| && Handles(m.blocks[k], ts, c))
            && (r.status.Running? ==> exists k: nat, s: Name :: HandledBy(m, r, ts, c, k, s))
  {
    hide TypesOf, Settle, Handles, IsA, Candidates, BestHandler, Knows, Innermost, Uncaught, ByType, DistinctIds, TopAfter,
      Regained, T.Closed, T.Acyclic;
    var c, r := m.thrown.value.Type(), Settle(env, m);
    KnownHierarchy(env, m.data, ts);
    CandidatesAre(env, m.data, ts, c);
    var types := Candidates(ts, c);
    WhetherCaught(env, m);
    CaughtSomewhere(m.blocks, ts, c, types);
    if r.status.Running? {
      var k, j := WhereCaught(env, m, types);
      InnermostInside(m.blocks, types, k, j);
      BestOfInnermost(m.blocks, ts, c, k, j);
      assert HandledBy(m, r, ts, c, k, types[j]);
    }
  }

  lemma InnermostInside(blocks: seq<Block>, types: seq<Name>, k: nat, j: nat)
    requires Innermost(blocks, types, k, j)
    ensures k < |blocks| && j < |types| && types[j] in blocks[k].catchers
  {
  }

  lemma KnownHierarchy<D>(env: Env<D>, d: D, ts: T.Typesystem)
    requires Knows(env, d, ts)
    ensures T.Closed(ts) && T.Acyclic(ts)
  {
  }
}
