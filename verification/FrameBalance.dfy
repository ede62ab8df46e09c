// The static check for balanced frames and calls, and what it guarantees at run time
// (src/cg/assembler/verify.cpp:47-93, src/cpu/cpu.cpp:201-230, 265-275).
module FrameBalance {
  import opened Bytes
  import opened Opcodes
  import opened Instructions
  import opened Assembler
  import opened Machine
  import opened Stacks
  import opened Brackets
  import opened Compiler
  import opened Sections
  import opened Files
  import opened Generator
  import opened Building
  import opened Loader
  import opened Jumps
  import opened Addresses
  import opened EndToEnd
  import opened Linker

  // ----- the check -----

  datatype Report =
    | CallWithoutFrame(line: nat)
    | ExcessFrame(line: nat, previous: nat)
    | LeftoverFrame(line: nat, previous: nat)

  predicate IsCall(op: Byte) {
    op == CALL || op == FCALL || op == MSG
  }

  function Effect(op: Byte): int {
    if op == FRAME then 1 else if IsCall(op) then -1 else 0
  }

  function LineEffect(l: Line): int {
    if l.Instruction? then Effect(l.op) else 0
  }

  // Frames spawned minus frames used.
  function Balance(lines: seq<Line>): int {
    if lines == [] then 0 else Balance(lines[..|lines| - 1]) + LineEffect(lines[|lines| - 1])
  }

  predicate GoodLine(lines: seq<Line>, i: nat)
    requires i < |lines|
  {
    && 0 <= Balance(lines[..i + 1]) <= 1
    && (lines[i].Instruction? && lines[i].op == END ==> Balance(lines[..i + 1]) == 0)
  }

  // The line in which the frame that is pending before line i was spawned, or 0.
  function SpawnedAt(lines: seq<Line>, i: nat): nat
    requires i <= |lines|
  {
    if i == 0 then 0
    else if lines[i - 1].Instruction? && lines[i - 1].op == FRAME then i - 1
    else SpawnedAt(lines, i - 1)
  }

  // It is the last `frame` before line i, which nothing has used since.
  lemma {:induction false} SpawnedMeaning(lines: seq<Line>, i: nat)
    requires i <= |lines| && (forall k | 0 <= k < i :: GoodLine(lines, k)) && Balance(lines[..i]) == 1
    ensures var p := SpawnedAt(lines, i);
            && p < i && lines[p].Instruction? && lines[p].op == FRAME
            && forall k | p < k < i && lines[k].Instruction? :: lines[k].op != FRAME && !IsCall(lines[k].op)
  {
    hide Balance;
    if i == 0 {
      assert lines[..0] == [];
      BalanceStep(lines, i);
    } else {
      BalanceStep(lines, i - 1);
      if !(lines[i - 1].Instruction? && lines[i - 1].op == FRAME) {
        assert GoodLine(lines, i - 1);
        if i >= 2 {
          assert GoodLine(lines, i - 2);
        }
        SpawnedMeaning(lines, i - 1);
      }
    }
  }

  lemma BalanceStep(lines: seq<Line>, i: nat)
    requires i <= |lines|
    ensures Balance([]) == 0
    ensures i < |lines| ==> Balance(lines[..i + 1]) == Balance(lines[..i]) + LineEffect(lines[i])
  {
    assert i < |lines| ==> lines[..i + 1][..i] == lines[..i];
  }

  // The first bad line is reported with its reason, and nothing else is.
  predicate Reports(lines: seq<Line>, r: Option<Report>) {
    match r
    case None => forall i | 0 <= i < |lines| :: GoodLine(lines, i)
    case Some(e) =>
      && e.line < |lines| && !GoodLine(lines, e.line) && (forall i | 0 <= i < e.line :: GoodLine(lines, i))
      && match e
         case CallWithoutFrame(i) => Balance(lines[..i + 1]) < 0
         case ExcessFrame(i, p) => Balance(lines[..i + 1]) > 1 && p == SpawnedAt(lines, i)
         case LeftoverFrame(i, p) => Balance(lines[..i + 1]) == 1 && p == SpawnedAt(lines, i)
  }

  method Check(lines: seq<Line>) returns (report: Option<Report>)
    ensures Reports(lines, report)
  {
    var balance, previous := 0, 0;
    for i := 0 to |lines|
      invariant balance == Balance(lines[..i]) && previous == SpawnedAt(lines, i)
      invariant 0 <= balance <= 1
      invariant forall k | 0 <= k < i :: GoodLine(lines, k)
    {
      assert lines[..i + 1][..i] == lines[..i];
      var l := lines[i];
      if !l.Instruction? || !(IsCall(l.op) || l.op == FRAME || l.op == END) {
        continue;
      }
      if IsCall(l.op) {
        balance := balance - 1;
      }
      if l.op == FRAME {
        balance := balance + 1;
      }
      if balance < 0 {
        return Some(CallWithoutFrame(i));
      }
      if balance > 1 {
        return Some(ExcessFrame(i, previous));
      }
      if l.op == END && balance > 0 {
        return Some(LeftoverFrame(i, previous));
      }
      if l.op == FRAME {
        previous := i;
      }
    }
    report := None;
  }

  // ----- the same for code -----

  function CodeBalance(code: Code, k: nat): int
    requires k <= |code|
  {
    if k == 0 then 0 else CodeBalance(code, k - 1) + Effect(code[k - 1].Opcode())
  }

  predicate GoodAt(code: Code, k: nat)
    requires k < |code|
  {
    0 <= CodeBalance(code, k + 1) <= 1 && (code[k].Opcode() == END ==> CodeBalance(code, k + 1) == 0)
  }

  predicate Accepted(code: Code) {
    forall k | 0 <= k < |code| :: GoodAt(code, k)
  }

  // No jumps and no blocks.
  predicate Plain(i: Instr) {
    && !i.Jump? && !i.Branch? && !i.Catch?
    && i.Opcode() != TRY && i.Opcode() != ENTER && i.Opcode() != LEAVE
  }

  // Functions start at the beginning of the code or right behind an `end`.
  predicate StartsBehindEnd(code: Code, s: nat) {
    s == 0 || (s <= |code| && code[s - 1].Opcode() == END)
  }

  ghost predicate Checked<D>(env: Env<D>) {
    && env.text.Indexed? && ValidCode(env.text.code) && Accepted(env.text.code)
    && (forall k | 0 <= k < |env.text.code| :: Plain(env.text.code[k]))
    && forall f <- env.functions :: StartsBehindEnd(env.text.code, env.functions[f])
  }

  // ----- what is guaranteed while such code runs -----

  // A pending frame exists exactly where the balance is 1, so no check for one can fail.
  predicate Balanced<D>(env: Env<D>, m: Machine<D>)
    requires env.text.Indexed?
  {
    && m.ip < |env.text.code|
    && (m.pending.Some? <==> CodeBalance(env.text.code, m.ip) == 1)
    && (env.text.code[m.ip].Opcode() == FRAME ==> m.pending.None?)
    && (IsCall(env.text.code[m.ip].Opcode()) ==> m.pending.Some?)
  }

  predicate ReturnsBalanced<D>(env: Env<D>, frames: seq<Frame>)
    requires env.text.Indexed?
  {
    forall k | 0 <= k < |frames| ::
      frames[k].return_ <= |env.text.code| && CodeBalance(env.text.code, frames[k].return_) == 0
  }

  predicate Holding<D>(env: Env<D>, m: Machine<D>)
    requires env.text.Indexed?
  {
    m.Live() ==>
      && m.blocks == [] && ReturnsBalanced(env, m.frames)
      && m.ip < |env.text.code| && (m.pending.Some? <==> CodeBalance(env.text.code, m.ip) == 1)
  }

  lemma BalanceBefore(code: Code, k: nat)
    requires Accepted(code) && k <= |code|
    ensures 0 <= CodeBalance(code, k) <= 1
    ensures k < |code| ==> CodeBalance(code, k + 1) == CodeBalance(code, k) + Effect(code[k].Opcode())
    ensures StartsBehindEnd(code, k) ==> CodeBalance(code, k) == 0
    ensures k < |code| && code[k].Opcode() == END ==> CodeBalance(code, k) == 0
  {
    if k > 0 {
      assert GoodAt(code, k - 1);
    }
    if k < |code| {
      assert GoodAt(code, k);
    }
  }

  lemma HoldingIsBalanced<D>(env: Env<D>, m: Machine<D>)
    requires Checked(env) && Holding(env, m) && m.Live()
    ensures Balanced(env, m)
  {
    BalanceBefore(env.text.code, m.ip);
    BalanceBefore(env.text.code, m.ip + 1);
  }

  // Where an instruction that throws nothing leads, and what it does to the pending frame.
  predicate Leads<D>(env: Env<D>, m: Machine<D>, d: Machine<D>, op: Byte) {
    if op == FRAME then d.ip == m.ip + 1 && d.frames == m.frames && d.pending.Some?
    else if IsCall(op) then
      && |d.frames| == |m.frames| + 1 && d.frames[..|m.frames|] == m.frames && d.Top().return_ == m.ip + 1
      && d.pending.None? && exists f :: f in env.functions && d.ip == env.functions[f]
    else if op == END then
      && m.frames != [] && d.frames == m.frames[..|m.frames| - 1] && d.ip == m.Top().return_
      && (d.pending.Some? <==> m.pending.Some?)
    else d.ip == m.ip + 1 && d.frames == m.frames && (d.pending.Some? <==> m.pending.Some?)
  }

  lemma EnterLeads<D>(env: Env<D>, m: Machine<D>, next: nat, c: Callee)
    requires m.Live() && c.Calls? && Enter(env, m, next, c).Going()
    ensures var d := Enter(env, m, next, c);
            && |d.frames| == |m.frames| + 1 && d.frames[..|m.frames|] == m.frames && d.Top().return_ == next
            && d.pending.None? && d.blocks == m.blocks && c.name in env.functions && d.ip == env.functions[c.name]
  {
  }

  lemma CallLeads<D>(env: Env<D>, m: Machine<D>, i: Instr, next: nat)
    requires m.Live() && Call(env, m, i, next).Going()
    ensures var d := Call(env, m, i, next);
            && |d.frames| == |m.frames| + 1 && d.frames[..|m.frames|] == m.frames && d.Top().return_ == next
            && d.pending.None? && d.blocks == m.blocks && exists f :: f in env.functions && d.ip == env.functions[f]
  {
    hide Enter, ViewOf;
    var c := if i.Text? && i.op == CALL then Calls(i.text, i.a.ref, i.a.index, None)
             else env.sem.callee(i, ViewOf(env, m), m.data);
    EnterLeads(env, m, next, c);
    assert c.name in env.functions;
  }

  lemma BareLeads<D>(env: Env<D>, m: Machine<D>, op: Byte, next: nat)
    requires m.Live() && op != TRY && op != LEAVE && HandleBare(env, m, op, next).Going()
    ensures var d := HandleBare(env, m, op, next);
            && d.blocks == m.blocks && (d.pending.Some? <==> m.pending.Some?)
            && (op == END ==> d.frames == m.frames[..|m.frames| - 1] && d.ip == m.Top().return_)
            && (op != END ==> d.frames == m.frames && d.ip == next)
  {
    hide ViewOf;
  }

  lemma PlainLeads<D>(env: Env<D>, m: Machine<D>, i: Instr, next: nat)
    requires m.Live()
    ensures var d := Ordinary(env, m, i, next);
            d.Going() ==> d.blocks == m.blocks && d.frames == m.frames && d.ip == next && d.pending == m.pending
    ensures var d := NewFrame(env, m, i, next);
            d.Going() ==> d.blocks == m.blocks && d.frames == m.frames && d.ip == next && d.pending.Some?
    ensures var d := Pull(env, m, i, next);
            d.Going() ==> d.blocks == m.blocks && d.frames == m.frames && d.ip == next && d.pending == m.pending
    ensures !ThrowObject(env, m, i, next).Going()
    ensures forall n: Int32 :: var d := Select(env, m, i, n, next);
            d.Going() ==> d.blocks == m.blocks && d.frames == m.frames && d.ip == next && d.pending == m.pending
  {
    hide ViewOf;
  }

  lemma HandleLeads<D>(env: Env<D>, m: Machine<D>, i: Instr, next: nat)
    requires m.Live() && i.Valid() && Plain(i) && Handle(env, m, i, next).Going() && next == m.ip + 1
    ensures var d := Handle(env, m, i, next); d.blocks == m.blocks && Leads(env, m, d, i.Opcode())
  {
    hide HandleBare, Call, NewFrame, ThrowObject, Pull, Ordinary, Select, EnterBlock, Register, JumpTo, BranchTo;
    PlainLeads(env, m, i, next);
    if i.Bare? {
      BareLeads(env, m, i.op, next);
    } else if IsCall(i.Opcode()) {
      CallLeads(env, m, i, next);
    }
  }

  lemma DispatchHolds<D>(env: Env<D>, m: Machine<D>)
    requires Checked(env) && Holding(env, m) && m.Live() && Dispatch(env, m).Going()
    ensures var d := Dispatch(env, m);
            && d.blocks == [] && ReturnsBalanced(env, d.frames)
            && (d.ip < |env.text.code| ==> (d.pending.Some? <==> CodeBalance(env.text.code, d.ip) == 1))
  {
    hide Handle, Instr.Valid, Plain;
    var code, k := env.text.code, m.ip;
    HandleLeads(env, m, code[k], k + 1);
    var d := Dispatch(env, m);
    BalanceBefore(code, k);
    if k + 1 <= |code| {
      BalanceBefore(code, k + 1);
    }
    if IsCall(code[k].Opcode()) {
      var f :| f in env.functions && d.ip == env.functions[f];
      if d.ip <= |code| {
        BalanceBefore(code, d.ip);
      }
      assert forall j | 0 <= j < |d.frames| :: d.frames[j] == if j < |m.frames| then d.frames[..|m.frames|][j] else d.Top();
    }
  }

  lemma NothingCaught<D>(env: Env<D>, d: Machine<D>)
    requires d.frames != [] && d.blocks == [] && d.thrown.Some?
    ensures !Settle(env, d).Live()
  {
  }

  lemma LiveInside<D>(env: Env<D>, d: Machine<D>, previous: nat)
    ensures d.Going() && After(env, d, previous).Live() ==> d.ip < env.text.End()
  {
  }

  lemma StoppedStays<D>(env: Env<D>, d: Machine<D>, previous: nat)
    requires !d.status.Running? && d.blocks == []
    ensures !After(env, d, previous).Live()
  {
  }

  lemma NoBlocksOpened<D>(env: Env<D>, m: Machine<D>)
    requires Checked(env) && m.Live() && m.blocks == [] && m.ip < |env.text.code|
    ensures Dispatch(env, m).blocks == []
  {
    hide Dispatch, Accepted, Instr.Valid;
    DispatchShape(env, m);
  }

  lemma TickHolds<D>(env: Env<D>, m: Machine<D>)
    requires Checked(env) && Holding(env, m)
    ensures Holding(env, Tick(env, m))
  {
    hide Dispatch, Accepted, Plain, Instr.Valid, ReturnsBalanced, CodeBalance, Settle;
    if m.Live() {
      var d := Dispatch(env, m);
      NoBlocksOpened(env, m);
      if d.Going() {
        DispatchHolds(env, m);
        QuietAfter(env, d, m.ip);
        LiveInside(env, d, m.ip);
        assert env.text.End() == |env.text.code|;
      } else if !d.status.Running? {
        StoppedStays(env, d, m.ip);
      } else if d.frames != [] {
        NothingCaught(env, d);
      }
    }
  }

  // If the check accepts a program without jumps and blocks whose functions end in `end`, then in
  // every run a frame is pending exactly where the balance is 1: no frame is requested while one
  // is unused, and nothing is called without a frame.
  lemma {:induction false} RunBalanced<D>(env: Env<D>, m: Machine<D>, n: nat)
    requires Checked(env) && Holding(env, m)
    ensures Holding(env, Ticks(env, m, n))
    ensures Ticks(env, m, n).Live() ==> Balanced(env, Ticks(env, m, n))
  {
    hide Tick, Checked, Holding, Balanced;
    if n > 0 {
      RunBalanced(env, m, n - 1);
      TickHolds(env, Ticks(env, m, n - 1));
    }
    if Ticks(env, m, n).Live() {
      HoldingIsBalanced(env, Ticks(env, m, n));
    }
  }

  lemma LoadedHolds<D>(env: Env<D>, name: Name, data: D)
    requires Checked(env) && name in env.functions && env.functions[name] < |env.text.code|
    ensures Holding(env, Loaded(env.functions[name], name, data))
  {
    BalanceBefore(env.text.code, env.functions[name]);
  }

  // ----- from source lines to code -----

  predicate AllGood(lines: seq<Line>) {
    forall i | 0 <= i < |lines| :: GoodLine(lines, i)
  }

  lemma {:induction false} BalanceConcat(a: seq<Line>, b: seq<Line>)
    ensures Balance(a + b) == Balance(a) + Balance(b)
  {
    if b == [] {
      assert a + b == a;
    } else {
      var n := |b| - 1;
      BalanceConcat(a, b[..n]);
      assert (a + b)[..|a + b| - 1] == a + b[..n];
    }
  }

  lemma GoodPrefix(a: seq<Line>, b: seq<Line>)
    requires AllGood(a + b)
    ensures AllGood(a)
  {
    forall i | 0 <= i < |a|
      ensures GoodLine(a, i)
    {
      assert GoodLine(a + b, i);
      assert (a + b)[..i + 1] == a[..i + 1];
    }
  }

  lemma GoodKept(a: seq<Line>, l: Line, i: nat)
    requires i < |a|
    ensures GoodLine(a + [l], i) <==> GoodLine(a, i)
  {
    hide Balance;
    assert (a + [l])[..i + 1] == a[..i + 1];
  }

  lemma GoodLast(a: seq<Line>, l: Line)
    ensures Balance(a + [l]) == Balance(a) + LineEffect(l)
    ensures GoodLine(a + [l], |a|) <==>
            0 <= Balance(a) + LineEffect(l) <= 1 && (l.Instruction? && l.op == END ==> Balance(a) + LineEffect(l) == 0)
  {
    assert (a + [l])[..|a|] == a && (a + [l])[..|a| + 1] == a + [l];
  }

  lemma GoodSnoc(a: seq<Line>, l: Line)
    ensures AllGood(a + [l]) <==> AllGood(a) && GoodLine(a + [l], |a|)
    ensures GoodLine(a + [l], |a|) <==>
            0 <= Balance(a) + LineEffect(l) <= 1 && (l.Instruction? && l.op == END ==> Balance(a) + LineEffect(l) == 0)
    ensures Balance(a + [l]) == Balance(a) + LineEffect(l)
  {
    hide Balance, GoodLine;
    GoodLast(a, l);
    forall i | 0 <= i < |a|
      ensures GoodLine(a + [l], i) <==> GoodLine(a, i)
    {
      GoodKept(a, l, i);
    }
  }

  // The lines that are instructions, wherever they stand.
  function OnlyInstructions(lines: seq<Line>): seq<Line> {
    if lines == [] then []
    else OnlyInstructions(lines[..|lines| - 1]) + (if lines[|lines| - 1].Instruction? then [lines[|lines| - 1]] else [])
  }

  // Other lines do not matter to the check.
  lemma {:induction false} KeptGood(lines: seq<Line>)
    ensures Balance(OnlyInstructions(lines)) == Balance(lines)
    ensures AllGood(lines) ==> AllGood(OnlyInstructions(lines))
  {
    hide Balance, GoodLine;
    if lines == [] {
      NothingGood();
    } else {
      var n := |lines| - 1;
      KeptGood(lines[..n]);
      assert lines == lines[..n] + [lines[n]];
      GoodSnoc(lines[..n], lines[n]);
      GoodSnoc(OnlyInstructions(lines[..n]), lines[n]);
      if !lines[n].Instruction? {
        assert OnlyInstructions(lines) == OnlyInstructions(lines[..n]);
      }
    }
  }

  lemma NothingGood()
    ensures Balance([]) == 0 && AllGood([])
  {
  }

  // The lines kept of all bodies, one after the other.
  function ProgramLines(bs: Bodies): seq<Line> {
    if bs == [] then [] else ProgramLines(bs[..|bs| - 1]) + InstructionLines(bs[|bs| - 1])
  }

  lemma ProgramSnoc(bs: Bodies, x: seq<Line>)
    ensures ProgramLines(bs + [x]) == ProgramLines(bs) + InstructionLines(x)
  {
    hide InstructionLines;
    assert (bs + [x])[..|bs|] == bs;
  }

  // Every instruction of the file stands in a function.
  predicate InstructionsInFunctions(file: seq<Line>) {
    forall k | 0 <= k < |file| :: file[k].Instruction? ==> OpenOf(file[..k], FunctionDefinition)
  }

  // Then the instructions of the file in textual order are those of its functions in their order.
  lemma {:induction false} FileInstructions(file: seq<Line>)
    requires BodiesFlat(file, FunctionDefinition) && InstructionsInFunctions(file)
    ensures OnlyInstructions(file) == ProgramLines(BodyList(Definitions(file, FunctionDefinition)))
  {
    hide OpenOf, Definitions, InstructionLines, StillOpen, ProgramLines, NoDefinitions;
    if file == [] {
      NothingDefined(FunctionDefinition);
      assert BodyList([]) == [];
      NoProgram();
    } else {
      var n := |file| - 1;
      assert file[..n + 1] == file;
      FlatStep(file, n, FunctionDefinition);
      assert InstructionsInFunctions(file[..n]) by {
        assert forall k | 0 <= k < n :: file[..n][..k] == file[..k];
      }
      FileInstructions(file[..n]);
      DefinitionStep(file, n, FunctionDefinition);
      DefinitionLine(Definitions(file[..n], FunctionDefinition), file[n]);
    }
  }

  lemma NoProgram()
    ensures ProgramLines([]) == []
  {
  }

  // What one more line of the last definition, or one more definition, adds to the program.
  lemma DefinitionLine(d: seq<(Name, seq<Line>)>, l: Line)
    requires forall k | 0 <= k < |d| :: NoDefinitions(d[k].1)
    ensures l.Opening? ==> ProgramLines(BodyList(d + [(l.name, [])])) == ProgramLines(BodyList(d))
    ensures d != [] && !l.Closing? ==>
              ProgramLines(BodyList(d[..|d| - 1] + [(d[|d| - 1].0, d[|d| - 1].1 + [l])])) ==
              ProgramLines(BodyList(d)) + (if l.Instruction? then [l] else [])
  {
    hide InstructionLines, StillOpen, ProgramLines;
    if l.Opening? {
      assert BodyList(d + [(l.name, [])]) == BodyList(d) + [[]];
      ProgramSnoc(BodyList(d), []);
      NothingAtAll();
    }
    if d != [] {
      var n := |d| - 1;
      var init, body := d[..n], d[n].1;
      assert BodyList(init + [(d[n].0, body + [l])]) == BodyList(init) + [body + [l]];
      assert BodyList(d) == BodyList(init) + [body];
      ProgramSnoc(BodyList(init), body + [l]);
      ProgramSnoc(BodyList(init), body);
      NothingOpen(body, |body|);
      assert (body + [l])[..|body|] == body && (body + [l])[..|body| + 1] == body + [l] && body[..|body|] == body;
      NextLine(body + [l], |body|);
    }
  }

  // Instruction k has the opcode of line k, so code balances like its lines.
  lemma {:induction false} AssembledBalance(lines: seq<Line>, marks: map<Name, nat>, k: nat)
    requires AssembleAll(lines, marks).Ok? && k <= |lines|
    ensures CodeBalance(AssembleAll(lines, marks).value, k) == Balance(lines[..k])
    ensures forall j | 0 <= j < |lines| :: AssembleAll(lines, marks).value[j].Opcode() == lines[j].op
    decreases |lines|
  {
    hide Assemble, LineBytes, Encode;
    if lines != [] {
      var n := |lines| - 1;
      var code, init := AssembleAll(lines, marks).value, AssembleAll(lines[..n], marks).value;
      LineBytesIsSize(lines[n].op, lines[n].operands, marks, n);
      assert code == init + [code[n]];
      AssembledBalance(lines[..n], marks, if k <= n then k else n);
      BalancePrefix(init, code, if k <= n then k else n);
      if k <= n {
        assert lines[..n][..k] == lines[..k];
      } else {
        assert lines[..k] == lines && lines[..n][..n] == lines[..n];
      }
    }
  }

  lemma {:induction false} BalancePrefix(a: Code, b: Code, k: nat)
    requires a <= b && k <= |a|
    ensures CodeBalance(b, k) == CodeBalance(a, k)
  {
    if k > 0 {
      BalancePrefix(a, b, k - 1);
    }
  }

  lemma {:induction false} BalanceSuffix(a: Code, b: Code, k: nat)
    requires k <= |b|
    ensures CodeBalance(a + b, |a| + k) == CodeBalance(a, |a|) + CodeBalance(b, k)
  {
    if k == 0 {
      BalancePrefix(a, a + b, |a|);
    } else {
      BalanceSuffix(a, b, k - 1);
    }
  }

  predicate AcceptedWith(code: Code, balance: int) {
    Accepted(code) && CodeBalance(code, |code|) == balance
  }

  lemma {:induction false} FiledBalance(code: Code, k: nat)
    requires k <= |code|
    ensures CodeBalance(Filed(code), k) == CodeBalance(code, k)
  {
    if k > 0 {
      FiledBalance(code, k - 1);
    }
  }

  // The code of a body balances like its instruction lines.
  lemma BodyBalance(x: seq<Line>, k: nat)
    requires Assembles(x) && k <= |CodeOf(x)|
    ensures |CodeOf(x)| == |InstructionLines(x)|
    ensures CodeBalance(CodeOf(x), k) == Balance(InstructionLines(x)[..k])
    ensures forall j | 0 <= j < |CodeOf(x)| ::
              InstructionLines(x)[j].Instruction? && CodeOf(x)[j].Opcode() == InstructionLines(x)[j].op
  {
    hide AssembleAll, Balance, CodeBalance, InstructionLines, Marks;
    AssembledBalance(InstructionLines(x), Marks(x), k);
    FiledBalance(Assembled(x).value, k);
  }

  // Instruction k of a body is as good as its line.
  lemma InstructionGood(init: seq<Line>, x: seq<Line>, a: Code, k: nat)
    requires AllGood(init + InstructionLines(x)) && Assembles(x) && CodeBalance(a, |a|) == Balance(init) && k < |CodeOf(x)|
    ensures 0 <= CodeBalance(a + CodeOf(x), |a| + k + 1) <= 1
    ensures CodeOf(x)[k].Opcode() == END ==> CodeBalance(a + CodeOf(x), |a| + k + 1) == 0
  {
    hide Assembles, CodeOf, Balance, CodeBalance, InstructionLines;
    BodyBalance(x, k + 1);
    BalanceSuffix(a, CodeOf(x), k + 1);
    var lines, i := InstructionLines(x), |init| + k;
    BalanceConcat(init, lines[..k + 1]);
    assert (init + lines)[i] == lines[k] && (init + lines)[..i + 1] == init + lines[..k + 1];
    assert GoodLine(init + lines, i);
  }

  // The code of a body goes on balancing as its lines do.
  lemma BodyAccepted(init: seq<Line>, x: seq<Line>, a: Code)
    requires AllGood(init + InstructionLines(x)) && Assembles(x) && AcceptedWith(a, Balance(init))
    ensures AcceptedWith(a + CodeOf(x), Balance(init + InstructionLines(x)))
  {
    hide AllGood, Assembles, CodeOf, Balance, CodeBalance, InstructionLines;
    var all, lines := a + CodeOf(x), InstructionLines(x);
    BodyBalance(x, |CodeOf(x)|);
    assert lines[..|lines|] == lines;
    BalanceSuffix(a, CodeOf(x), |CodeOf(x)|);
    BalanceConcat(init, lines);
    forall k | 0 <= k < |all|
      ensures GoodAt(all, k)
    {
      if k < |a| {
        BalancePrefix(a, all, k + 1);
        assert GoodAt(a, k);
      } else {
        InstructionGood(init, x, a, k - |a|);
      }
    }
  }

  // What the check accepts line by line holds of the code generated from the lines.
  lemma {:induction false} SourceAccepted(bs: Bodies)
    requires AllAssemble(bs) && AllGood(ProgramLines(bs))
    ensures AcceptedWith(Flat(bs), Balance(ProgramLines(bs)))
  {
    hide Assembles, CodeOf, Balance, InstructionLines;
    if bs == [] {
      NothingBalances();
    } else {
      var init, x := bs[..|bs| - 1], bs[|bs| - 1];
      GoodPrefix(ProgramLines(init), InstructionLines(x));
      SourceAccepted(init);
      BodyAccepted(ProgramLines(init), x, Flat(init));
    }
  }

  lemma NothingBalances()
    ensures AcceptedWith([], Balance([]))
  {
  }

  // ----- the whole program -----

  // No jumps and no blocks, every body holds an instruction, and each but the last ends in `end`.
  predicate PlainProgram(bs: Bodies)
    requires AllAssemble(bs)
  {
    && (forall k | 0 <= k < |Flat(bs)| :: Plain(Flat(bs)[k]))
    && (forall k | 0 <= k < |bs| :: CodeOf(bs[k]) != [])
    && forall k | 0 <= k < |bs| - 1 :: EndsInEnd(CodeOf(bs[k]))
  }

  predicate EndsInEnd(code: Code) {
    code != [] && code[|code| - 1].Opcode() == END
  }

  lemma {:induction false} NoBranches(bs: Bodies)
    requires AllAssemble(bs) && forall k | 0 <= k < |Flat(bs)| :: !Flat(bs)[k].Branch?
    ensures AllConsistent(bs)
  {
    hide Assembled, Assembles, CodeOf;
    if bs != [] {
      var n := |bs| - 1;
      assert forall k | 0 <= k < |Flat(bs[..n])| :: Flat(bs[..n])[k] == Flat(bs)[k];
      NoBranches(bs[..n]);
      forall k | 0 <= k < |CodeOf(bs[n])|
        ensures !CodeOf(bs[n])[k].Branch?
      {
        assert CodeOf(bs[n])[k] == Flat(bs)[|Flat(bs[..n])| + k];
      }
      NoBranch(bs[n]);
    }
  }

  lemma NoBranch(x: seq<Line>)
    requires Assembles(x) && forall k | 0 <= k < |CodeOf(x)| :: !CodeOf(x)[k].Branch?
    ensures Consistent(x)
  {
    hide Assembled;
    forall k | 0 <= k < |CodeOf(x)|
      ensures KindsAgree(Assembled(x).value[k])
    {
      assert CodeOf(x)[k] == FiledInstr(Assembled(x).value[k]);
    }
  }

  lemma PlainIsMeant(bs: Bodies)
    requires AllAssemble(bs) && PlainProgram(bs)
    ensures ByIndex(Meant(bs)) == Flat(bs)
  {
    hide AllAssemble, Flat, Linked, Meant, AllConsistent;
    NoBranches(bs);
    MeantIsLinked(bs);
    LinkedFromFlat(bs);
  }

  // The code of the first k bodies ends in `end` when there is another one behind them.
  lemma PrefixEnds(bs: Bodies, k: nat)
    requires AllAssemble(bs) && PlainProgram(bs) && 0 < k < |bs|
    ensures AllAssemble(bs[..k]) && EndsInEnd(Flat(bs[..k]))
  {
    hide Assembles, CodeOf;
    var a, last := bs[..k - 1], bs[k - 1];
    assert bs[..k][..k - 1] == a && bs[..k][k - 1] == last;
    assert Flat(bs[..k]) == Flat(a) + CodeOf(last);
    LastOf(Flat(a), CodeOf(last));
  }

  lemma LastOf(a: Code, b: Code)
    requires b != []
    ensures a + b != [] && (a + b)[|a + b| - 1] == b[|b| - 1]
  {
  }

  lemma EndsBehind(bs: Bodies, k: nat)
    requires AllAssemble(bs) && PlainProgram(bs) && k < |bs|
    ensures AllAssemble(bs[..k]) && StartsBehindEnd(Flat(bs), |Flat(bs[..k])|) && |Flat(bs[..k])| < |Flat(bs)|
  {
    hide CodeOf, Assembles;
    assert bs == bs[..k] + bs[k..];
    AssembleConcat(bs[..k], bs[k..]);
    SomeCode(bs[k..], |bs| - k - 1);
    if k > 0 {
      PrefixEnds(bs, k);
    }
    hide Flat, AllAssemble;
    FlatConcat(bs[..k], bs[k..], 0);
    if k == 0 {
      assert bs[..k] == [];
      FlatNothing(0);
    }
  }

  lemma {:induction false} SomeCode(bs: Bodies, n: nat)
    requires AllAssemble(bs) && n == |bs| - 1 && CodeOf(bs[n]) != []
    ensures |Flat(bs)| > 0
  {
    hide CodeOf;
  }

  lemma {:induction false} MappingValue(entries: seq<(Name, nat)>, f: Name) returns (k: nat)
    requires f in Mapping(entries)
    ensures k < |entries| && entries[k] == (f, Mapping(entries)[f])
  {
    var n := |entries| - 1;
    if entries[n].0 == f {
      k := n;
    } else {
      k := MappingValue(entries[..n], f);
    }
  }

  // ----- the entry function -----

  // A file of functions only, without jumps: every instruction stands in one of them.
  ghost predicate PlainFile(job: Job) {
    && !job.asLib && WellFormed(job.file) && InstructionsInFunctions(job.file)
    && Definitions(job.file, BlockDefinition) == []
    && AllAssemble(LocalBodies(job)) && PlainProgram(LocalBodies(job))
  }

  lemma {:induction false} NothingOnTop(file: seq<Line>)
    requires InstructionsInFunctions(file) && forall l <- InstructionLines(file) :: l.Instruction?
    ensures InstructionLines(file) == []
  {
    hide OpenOf, StillOpen;
    if file != [] {
      var n := |file| - 1;
      assert InstructionsInFunctions(file[..n]) by {
        assert forall k | 0 <= k < n :: file[..n][..k] == file[..k];
      }
      NothingOnTop(file[..n]);
      LastKept(file);
      OpenSome(file[..n]);
    }
  }

  lemma LastKept(file: seq<Line>)
    requires file != []
    ensures StillOpen(file[..|file| - 1]).None? && IsKept(file[|file| - 1]) ==> file[|file| - 1] in InstructionLines(file)
  {
    hide StillOpen;
  }

  // The last function ends in `end`, so the balance is 0 where the entry function starts.
  lemma BalancedFunctions(fs: Bodies)
    requires AllAssemble(fs) && AllGood(ProgramLines(fs))
    requires fs != [] ==> EndsInEnd(CodeOf(fs[|fs| - 1]))
    ensures Balance(ProgramLines(fs)) == 0
  {
    hide Assembles, CodeOf, InstructionLines, Balance, CodeBalance;
    SourceAccepted(fs);
    if fs == [] {
      NothingGood();
    } else {
      var code, n := Flat(fs), |fs| - 1;
      LastOf(Flat(fs[..n]), CodeOf(fs[n]));
      assert GoodAt(code, |code| - 1);
    }
  }

  // The generated lines are good behind lines that balance.
  lemma EntryGood(lines: seq<Line>, main: Name)
    requires AllGood(lines) && Balance(lines) == 0
    ensures AllGood(lines + PROLOGUE + Epilogue(main))
  {
    hide Balance, GoodLine, AllGood;
    var e := Epilogue(main);
    var a := lines + [PROLOGUE[0]];
    GoodSnoc(lines, PROLOGUE[0]);
    GoodSnoc(a, e[0]);
    GoodSnoc(a + [e[0]], e[1]);
    GoodSnoc(a + [e[0]] + [e[1]], e[2]);
    GoodSnoc(a + [e[0]] + [e[1]] + [e[2]], e[3]);
    GoodSnoc(a + [e[0]] + [e[1]] + [e[2]] + [e[3]], e[4]);
    assert lines + PROLOGUE + e == a + [e[0]] + [e[1]] + [e[2]] + [e[3]] + [e[4]];
  }

  function FunctionList(job: Job): Bodies {
    BodyList(Definitions(job.file, FunctionDefinition))
  }

  // The elements of such a file.
  lemma PlainElements(job: Job)
    requires PlainFile(job)
    ensures var fs, entry := FunctionList(job), EntryLines(job.file, job.main);
            && LocalBodies(job) == fs + [entry] && AllAssemble(fs) && AllAssemble(fs + [entry]) && Assembles(entry)
            && (fs != [] ==> EndsInEnd(CodeOf(fs[|fs| - 1])))
  {
    hide Definitions, WellFormed, Flat, CodeOf, Assembles, OpenOf, EntryLines, InstructionsInFunctions;
    var fs, entry := FunctionList(job), EntryLines(job.file, job.main);
    assert LocalBodies(job) == fs + [entry];
    AssembleConcat(fs, [entry]);
    assert fs != [] ==> LocalBodies(job)[|fs| - 1] == fs[|fs| - 1];
    assert LocalBodies(job)[|fs|] == entry;
  }

  // The lines of the entry function when nothing stands on the top level.
  lemma EntryOnly(file: seq<Line>, main: Name)
    requires AllClosed(file) && InstructionsInFunctions(file) && Assembles(EntryLines(file, main))
    ensures InstructionLines(EntryLines(file, main)) == PROLOGUE + Epilogue(main)
  {
    hide StillOpen, OpenOf, InstructionLines, EntryLines, Epilogue, Assembles, InstructionsInFunctions;
    var entry := EntryLines(file, main);
    EntryMeaning(file, main);
    EntryKept(entry);
    assert forall l <- InstructionLines(file) :: l in InstructionLines(entry);
    NothingOnTop(file);
    assert PROLOGUE + [] == PROLOGUE;
  }

  lemma EntryKept(x: seq<Line>)
    requires Assembles(x)
    ensures forall l <- InstructionLines(x) :: l.Instruction?
  {
    hide AssembleAll, InstructionLines, Marks;
  }

  lemma PlainLines(job: Job)
    requires PlainFile(job) && AllAssemble(FunctionList(job)) && Assembles(EntryLines(job.file, job.main))
    ensures var fs, entry := FunctionList(job), EntryLines(job.file, job.main);
            ProgramLines(fs + [entry]) == ProgramLines(fs) + PROLOGUE + Epilogue(job.main)
  {
    hide Definitions, Flat, CodeOf, Assembles, ProgramLines, OpenOf, InstructionLines, EntryLines, Epilogue, StillOpen,
      InstructionsInFunctions, PlainProgram, AllAssemble;
    FlatFile(job.file);
    ClosedFile(job.file);
    EntryOnly(job.file, job.main);
    ProgramSnoc(FunctionList(job), EntryLines(job.file, job.main));
    assert ProgramLines(FunctionList(job)) + PROLOGUE + Epilogue(job.main) ==
           ProgramLines(FunctionList(job)) + (PROLOGUE + Epilogue(job.main));
  }

  // Functions accepted by the check, followed by the entry function, form accepted code.
  lemma EntryAccepted(job: Job)
    requires PlainFile(job) && AllGood(job.file)
    ensures Accepted(Flat(LocalBodies(job)))
  {
    hide OnlyInstructions, Balance, AllGood, Definitions, WellFormed, EntryLines, Flat, CodeOf, Assembles, ProgramLines,
      Accepted, OpenOf, LocalBodies, PlainProgram, Epilogue;
    var fs, entry := FunctionList(job), EntryLines(job.file, job.main);
    PlainElements(job);
    PlainLines(job);
    FlatFile(job.file);
    KeptGood(job.file);
    FileInstructions(job.file);
    BalancedFunctions(fs);
    EntryGood(ProgramLines(fs), job.main);
    SourceAccepted(fs + [entry]);
  }

  lemma ProgramChecked<D>(job: Job, sem: Semantics<D>)
    requires PlainFile(job) && AllGood(job.file)
    ensures Sourced(job, NONE)
    ensures var env := FileEnv(job, NONE, sem);
            && Checked(env) && ENTRY in env.functions
            && forall f <- env.functions :: env.functions[f] < |env.text.code|
  {
    hide Assembles, Flat, Meant, CodeOf, AllGood, Mapping, Accepted, Plain, Instr.Valid, Definitions, WellFormed, EntryLines,
      InstructionsInFunctions, AllAssemble;
    var bs := LocalBodies(job);
    assert AllOf(job, NONE) == bs && BlockBodies(job) == [];
    var env := FileEnv(job, NONE, sem);
    EntryAccepted(job);
    PlainIsMeant(bs);
    FlatAgrees(bs);
    var names := Functions(job).names;
    var entries := Indexes(names, bs, 0) + ExportIndexes(bs, |bs|, []);
    assert entries == Indexes(names, bs, 0);
    forall f | f in env.functions
      ensures StartsBehindEnd(env.text.code, env.functions[f]) && env.functions[f] < |env.text.code|
    {
      var k := MappingValue(entries, f);
      EndsBehind(bs, k);
    }
    var last := |names| - 1;
    assert names[last] == ENTRY;
    MappingHas(entries, last);
    IndexName(bs, names[last], last);
  }

  lemma {:induction false} MappingHas(entries: seq<(Name, nat)>, k: nat)
    requires k < |entries|
    ensures entries[k].0 in Mapping(entries)
  {
    if k < |entries| - 1 {
      MappingHas(entries[..|entries| - 1], k);
    }
  }

  // The static check is sound: when it reports nothing about a file of plain functions, then in every
  // run of the assembled program, from the entry function or any other and whatever instructions do to
  // registers, a frame is pending exactly where the balance is 1.
  lemma CheckIsSound<D>(job: Job, sem: Semantics<D>, name: Name, data: D, n: nat)
    requires PlainFile(job) && Reports(job.file, None)
    ensures Sourced(job, NONE) && ENTRY in FileEnv(job, NONE, sem).functions
    ensures name in FileEnv(job, NONE, sem).functions ==>
              var env := FileEnv(job, NONE, sem);
              var m := Ticks(env, Loaded(env.functions[name], name, data), n);
              m.Live() ==> Balanced(env, m)
  {
    hide PlainFile, Checked, Holding, Balanced, Ticks, FileEnv, Sourced;
    ProgramChecked(job, sem);
    var env := FileEnv(job, NONE, sem);
    if name in env.functions {
      LoadedHolds(env, name, data);
      RunBalanced(env, Loaded(env.functions[name], name, data), n);
    }
  }
}
