// Where the handlers of a block come from: `try`, any number of `catch`, `enter`
// (src/cpu/instr/tcmechanism.cpp:8-97).
module Catchers {
  import opened Bytes
  import opened Opcodes
  import opened Instructions
  import opened Machine
  import opened Stacks
  import opened Effects
  import opened Brackets

  // A type and the block that is to handle it.
  type Handler = (Name, Name)

  // m is about to execute i.
  predicate At<D>(env: Env<D>, m: Machine<D>, i: Instr) {
    m.Live() && Fetch(env.text, m.ip).Some? && Fetch(env.text, m.ip).value.instr == i
  }

  lemma AtExecutes<D>(env: Env<D>, m: Machine<D>, i: Instr)
    requires At(env, m, i) && Implemented(i.Opcode())
    ensures Executes(env, m, i, Fetch(env.text, m.ip).value.after)
  {
  }

  // The ticks from m on execute `catch` for the handlers in order, all of them blocks that exist.
  ghost predicate Catches<D>(env: Env<D>, m: Machine<D>, hs: seq<Handler>) {
    forall k | 0 <= k < |hs| :: At(env, Ticks(env, m, k), Instr.Catch(hs[k].0, hs[k].1)) && hs[k].1 in env.blocks
  }

  // Exactly the types of the handlers are handled, each by the last block given for it.
  ghost predicate HandlesAll<D>(env: Env<D>, catchers: map<Name, nat>, hs: seq<Handler>) {
    && (forall t :: t in catchers <==> exists k :: 0 <= k < |hs| && hs[k].0 == t)
    && forall k | 0 <= k < |hs| && IsLast(hs, k) :: hs[k].0 in catchers && hs[k].1 in env.blocks
                                                   && catchers[hs[k].0] == env.blocks[hs[k].1]
  }

  // No later handler is for the same type.
  predicate IsLast(hs: seq<Handler>, k: nat)
    requires k < |hs|
  {
    forall j | k < j < |hs| :: hs[j].0 != hs[k].0
  }

  // A tick that leaves the machine running and threw nothing is the instruction itself.
  lemma LiveTick<D>(env: Env<D>, m: Machine<D>)
    requires m.Live() && Dispatch(env, m).Going() && Tick(env, m).Live()
    ensures Tick(env, m) == Dispatch(env, m)
  {
    hide Dispatch, Settle, OpcodeOf;
    TickOutcome(env, m);
  }

  lemma HandlesMore<D>(env: Env<D>, had: map<Name, nat>, has: map<Name, nat>, hs: seq<Handler>, h: Handler)
    requires HandlesAll(env, had, hs) && h.1 in env.blocks && h.0 in has && has[h.0] == env.blocks[h.1]
    requires forall t | t != h.0 :: (t in has <==> t in had) && (t in had ==> has[t] == had[t])
    ensures HandlesAll(env, has, hs + [h])
  {
    var all := hs + [h];
    assert all[|hs|] == h;
    forall t
      ensures t in has <==> exists k :: 0 <= k < |all| && all[k].0 == t
    {
      if t != h.0 && t in had {
        var k :| 0 <= k < |hs| && hs[k].0 == t;
        assert all[k].0 == t;
      }
    }
    forall k | 0 <= k < |all| && IsLast(all, k)
      ensures all[k].0 in has && all[k].1 in env.blocks && has[all[k].0] == env.blocks[all[k].1]
    {
      if k < |hs| {
        assert all[|hs|].0 != all[k].0;
        assert forall j | k < j < |hs| :: hs[j] == all[j];
        assert IsLast(hs, k);
      }
    }
  }

  // What has been gathered after the handlers hs: they are those of the pending block.
  lemma {:induction false} Gathered<D>(env: Env<D>, m: Machine<D>, hs: seq<Handler>)
    requires m.pendingBlock.Some? && m.pendingBlock.value.catchers == map[]
    requires Catches(env, m, hs) && Ticks(env, m, |hs|).Live()
    ensures var s := Ticks(env, m, |hs|);
            && s == m.(pendingBlock := s.pendingBlock, ip := s.ip)
            && s.pendingBlock.Some? && HandlesAll(env, s.pendingBlock.value.catchers, hs)
  {
    hide Tick, At, Catches, HandlesAll, Machine.Live;
    if hs == [] {
      HandlesNone(env);
    } else {
      var n := |hs| - 1;
      var init, h, s := hs[..n], hs[n], Ticks(env, m, n);
      CatchesStep(env, m, hs);
      Gathered(env, m, init);
      CaughtOne(env, s, h);
      HandlesMore(env, s.pendingBlock.value.catchers, Tick(env, s).pendingBlock.value.catchers, init, h);
      assert init + [h] == hs;
    }
  }

  lemma HandlesNone<D>(env: Env<D>)
    ensures HandlesAll(env, map[], [])
  {
  }

  lemma CatchesStep<D>(env: Env<D>, m: Machine<D>, hs: seq<Handler>)
    requires Catches(env, m, hs) && hs != []
    ensures var n := |hs| - 1; var h, s := hs[n], Ticks(env, m, n);
            && Catches(env, m, hs[..n]) && At(env, s, Instr.Catch(h.0, h.1)) && h.1 in env.blocks && s.Live()
            && Ticks(env, m, |hs|) == Tick(env, s)
  {
    hide Tick, Fetch;
    assert forall k | 0 <= k < |hs| - 1 :: hs[..|hs| - 1][k] == hs[k];
  }

  lemma InnermostBounds(blocks: seq<Block>, types: seq<Name>, k: nat, j: nat)
    requires Innermost(blocks, types, k, j)
    ensures k < |blocks| && j < |types|
  {
  }

  lemma CaughtOne<D>(env: Env<D>, s: Machine<D>, h: Handler)
    requires At(env, s, Instr.Catch(h.0, h.1)) && h.1 in env.blocks && s.pendingBlock.Some? && Tick(env, s).Live()
    ensures var r := Tick(env, s);
            && r.pendingBlock.Some? && r == s.(pendingBlock := r.pendingBlock, ip := r.ip)
            && var had, has := s.pendingBlock.value.catchers, r.pendingBlock.value.catchers;
               && h.0 in has && has[h.0] == env.blocks[h.1]
               && forall t | t != h.0 :: (t in has <==> t in had) && (t in had ==> has[t] == had[t])
  {
    hide Dispatch, Fetch, Tick;
    AtExecutes(env, s, Instr.Catch(h.0, h.1));
    CatchEffect(env, s, h.0, h.1, Fetch(env.text, s.ip).value.after);
    LiveTick(env, s);
  }

  // From `try` over the given handlers to `enter` of an existing block.
  ghost predicate Prepares<D>(env: Env<D>, m: Machine<D>, hs: seq<Handler>, name: Name) {
    && At(env, m, Bare(TRY)) && m.pendingBlock.None?
    && Catches(env, Tick(env, m), hs)
    && At(env, Ticks(env, Tick(env, m), |hs|), Named(ENTER, name)) && name in env.blocks
  }

  // The machine about to enter.
  function Prepared<D>(env: Env<D>, m: Machine<D>, hs: seq<Handler>): Machine<D> {
    Ticks(env, Tick(env, m), |hs|)
  }

  // A block entered has a handler for exactly the types its `catch` instructions name, for each the one
  // named last.
  lemma EnteredBlock<D>(env: Env<D>, m: Machine<D>, hs: seq<Handler>, name: Name)
    requires Prepares(env, m, hs, name)
    ensures var s := Prepared(env, m, hs); var d := Dispatch(env, s);
            && s.frames == m.frames && s.blocks == m.blocks && s.pending == m.pending && Opened(s, d)
            && d.ip == env.blocks[name] && d.blocks[..|m.blocks|] == m.blocks && |d.blocks| == |m.blocks| + 1
            && HandlesAll(env, d.TopBlock().catchers, hs)
  {
    hide Dispatch, Fetch, Tick, HandlesAll;
    var t, s := Tick(env, m), Prepared(env, m, hs);
    AtExecutes(env, m, Bare(TRY));
    TryEffect(env, m, Fetch(env.text, m.ip).value.after);
    assert s.Live();
    AllLive(env, m, hs);
    LiveTick(env, m);
    Gathered(env, t, hs);
    AtExecutes(env, s, Named(ENTER, name));
    EnterEffect(env, s, name, Fetch(env.text, s.ip).value.after);
  }

  lemma AllLive<D>(env: Env<D>, m: Machine<D>, hs: seq<Handler>)
    requires Catches(env, Tick(env, m), hs) && Ticks(env, Tick(env, m), |hs|).Live()
    ensures Tick(env, m).Live()
  {
    hide Tick, Fetch;
    if hs != [] {
      assert At(env, Ticks(env, Tick(env, m), 0), Instr.Catch(hs[0].0, hs[0].1));
    }
  }

  // An object thrown inside such a block and caught by it as a type: the machine goes on at the block
  // that the last `catch` for this type names.
  lemma CaughtWhereNamed<D>(env: Env<D>, m: Machine<D>, hs: seq<Handler>, name: Name, n: nat, j: nat)
    requires Allocates(env) && Sound(m) && Prepares(env, m, hs, name)
    requires ThrownInside(env, Prepared(env, m, hs), n, j)
    ensures var s := Prepared(env, m, hs); var r := Thrown(env, s, n);
            var d := Dispatch(env, Ticks(env, Tick(env, s), n));
            var t := TypesOf(env, d.data, d.thrown.value.Type())[j];
            && r.Live() && r.caught == d.thrown
            && exists k :: 0 <= k < |hs| && IsLast(hs, k) && hs[k].0 == t && hs[k].1 in env.blocks && r.ip == env.blocks[hs[k].1]
  {
    hide Dispatch, Fetch, Tick, HandlesAll, TypesOf, Innermost, ByType, Within, Sound, IsLast, FramesLeft, Settle;
    var s := Prepared(env, m, hs);
    EnteredBlock(env, m, hs, name);
    SoundKept(m, s);
    ThrowStaysWithin(env, s, n, j);
    EnteredTick(env, s);
    var c := Tick(env, s);
    var d := Dispatch(env, Ticks(env, c, n));
    InnermostBounds(d.blocks, TypesOf(env, d.data, d.thrown.value.Type()), |s.blocks|, j);
    var t := TypesOf(env, d.data, d.thrown.value.Type())[j];
    var k := LastOf(env, c.TopBlock().catchers, hs, t);
  }

  lemma SoundKept<D>(m: Machine<D>, s: Machine<D>)
    requires Sound(m) && s.frames == m.frames && s.pending == m.pending
    ensures Sound(s)
  {
  }

  lemma EnteredTick<D>(env: Env<D>, s: Machine<D>)
    requires s.Live() && Opened(s, Dispatch(env, s))
    ensures Tick(env, s).blocks == Dispatch(env, s).blocks
  {
    hide Dispatch, Fetch, After;
    DispatchShape(env, s);
    QuietAfter(env, Dispatch(env, s), s.ip);
  }

  lemma LastOf<D>(env: Env<D>, catchers: map<Name, nat>, hs: seq<Handler>, t: Name) returns (k: nat)
    requires HandlesAll(env, catchers, hs) && t in catchers
    ensures k < |hs| && IsLast(hs, k) && hs[k].0 == t && hs[k].1 in env.blocks && catchers[t] == env.blocks[hs[k].1]
  {
    k := LastAt(hs, t);
  }

  lemma {:induction false} LastAt(hs: seq<Handler>, t: Name) returns (k: nat)
    requires exists k :: 0 <= k < |hs| && hs[k].0 == t
    ensures k < |hs| && IsLast(hs, k) && hs[k].0 == t
  {
    var n := |hs| - 1;
    if hs[n].0 == t {
      k := n;
    } else {
      var j :| 0 <= j < |hs| && hs[j].0 == t;
      assert hs[..n][j].0 == t;
      k := LastAt(hs[..n], t);
      assert forall i | k < i < n :: hs[..n][i] == hs[i];
    }
  }
}
