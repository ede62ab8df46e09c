// What one tick of the machine does (src/cpu/cpu.cpp:201-293, 567-690, src/cpu/dispatch.cpp and
// the handlers of control instructions in src/cpu/instr).  Registers and their objects are an
// abstract value; frames, blocks, thrown and caught objects and addresses are concrete.
module Machine {
  import opened Bytes
  import opened Opcodes
  import opened Instructions
  import opened Disassembler

  const MAX_STACK_SIZE: nat := 8192

  // "Exception"
  const EXCEPTION: Name := [69, 120, 99, 101, 112, 116, 105, 111, 110]

  // ----- state -----

  datatype Cause =
    | UnknownInstruction | JumpToItself | FrameUnused | NoFrame | StackExceeded | UndefinedFunction
    | NothingToEnd | BlockUnused | UndefinedBlock | NoBlock | NothingCaught | BadRegisterSet

  // A thrown object: an exception raised by the machine, or an object from a register.
  datatype Object = Raised(cause: Cause) | Value(type_: Name, detailed: Name, handle: nat)
  {
    function Type(): Name {
      if Raised? then EXCEPTION else type_
    }

    function Detailed(): Name {
      if Raised? then EXCEPTION else detailed
    }
  }

  // The register set instructions work on.
  datatype RegisterSet = Global | Local(frame: nat) | Static(function_: Name) | Captured(closure: nat)

  datatype Frame = Frame(id: nat, return_: nat, name: Name, resolve: bool, result: Int32)

  datatype Block = Block(return_: nat, frame: nat, name: Name, catchers: map<Name, nat>)

  datatype Status =
    | Running
    | Halted
    | OutOfBounds
    | Unchanged
    | Unhandled(object: Object)
    | Crashed   // undefined behaviour, or a C++ exception nobody catches

  datatype Machine<D> = Machine(
    ip: nat,
    frames: seq<Frame>,
    pending: Option<Frame>,
    blocks: seq<Block>,
    pendingBlock: Option<Block>,
    thrown: Option<Object>,
    caught: Option<Object>,
    selected: RegisterSet,
    requests: nat,
    data: D,
    status: Status)
  {
    // Between ticks of a run.
    predicate Live() {
      status.Running? && frames != [] && thrown.None?
    }

    // While an instruction executes.
    predicate Going() {
      status.Running? && thrown.None?
    }

    function Top(): Frame
      requires frames != []
    {
      frames[|frames| - 1]
    }

    function TopBlock(): Block
      requires blocks != []
    {
      blocks[|blocks| - 1]
    }

    function LiveIds(): set<nat> {
      (set k | 0 <= k < |frames| :: frames[k].id) + (if pending.Some? then {pending.value.id} else {})
    }
  }

  // ----- what instructions do to registers -----

  datatype Outcome<D> = Done(data: D) | Raises(data: D, object: Object) | Lost

  datatype Test = Verdict(yes: bool) | Refused(object: Object) | Broken

  datatype Callee = Calls(name: Name, resolve: bool, result: Int32, closure: Option<nat>) | NoCallee(object: Object) | NoObject

  datatype Source<D> = Taken(data: D, object: Object) | NotTaken(data: D, object: Object) | Missing

  // What instructions see of the machine beside the registers.
  datatype View = View(selected: RegisterSet, top: nat, function_: Name, pending: Option<nat>, address: nat)

  datatype Semantics<!D> = Semantics(
    run: (Instr, View, D) -> Outcome<D>,            // everything else, operands of `frame` included
    test: (Operand, View, D) -> Test,               // the condition of a branch
    callee: (Instr, View, D) -> Callee,             // the function of a call by object or message
    source: (Instr, View, D) -> Source<D>,          // the object to throw
    pull: (Instr, Object, View, D) -> Outcome<D>,   // put a caught object in a register
    take: (View, D) -> Source<D>,                   // the return value in register 0
    place: (Object, bool, Int32, View, D) -> Outcome<D>,  // put it where the ended frame says
    drop: (nat, D) -> D,                            // destroy the registers of a frame
    chain: (Name, D) -> Option<seq<Name>>,          // ancestors of a registered type
    allocate: (set<nat>, nat) -> nat)               // the address of the n-th frame requested

  // ----- programs -----

  // Bytecode as loaded, or instructions whose jump targets are indexes of instructions.
  datatype Text = Bytecode(image: seq<Byte>) | Indexed(code: Code)
  {
    function End(): nat {
      match this
      case Bytecode(image) => |image|
      case Indexed(code) => |code|
    }
  }

  function OpcodeOf(text: Text, at: nat): Byte
    requires at < text.End()
  {
    match text
    case Bytecode(image) => image[at]
    case Indexed(code) => code[at].Opcode()
  }

  // An instruction and where its handler has moved to when it has read it.
  datatype Fetched = Fetched(instr: Instr, after: nat)

  // The bytes the handler of an instruction moves over: the opcode, a flag and four bytes for every
  // register operand, four bytes for every number, and every text with its NUL.  The handlers of
  // `import`, `link` and `enter` stop at the NUL of their name.
  function Consumed(i: Instr): nat {
    1 + match i
        case Bare(_) => 0
        case One(_, _) => 5
        case Two(_, _, _) => 5 + 5
        case Three(_, _, _, _) => 5 + 5 + 5
        case FloatStore(_, _) => 5 + 4
        case ByteStore(_, _, _) => 5 + 1 + 1
        case SelectRegisters(_) => 4
        case Jump(_, _) => 4
        case Branch(_, _, _, _, _) => 5 + 4 + 4
        case Text(_, _, text) => 5 + |text| + 1
        case Named(_, name) => |name|
        case Attach(_, f, m) => 5 + |f| + 1 + |m| + 1
        case Catch(t, b) => |t| + 1 + |b| + 1
  }

  function Decode(b: seq<Byte>, at: nat): Option<Instr>
    requires at < |b|
  {
    var op := b[at];
    if TakesNothing(op) then Some(Bare(op))
    else if TakesName(op) then Some(Named(op, ReadText(b, at + 1)))
    else if op == CATCH then
      var type_ := ReadText(b, at + 1);
      if at + 1 + |type_| + 1 <= |b| then Some(Catch(type_, ReadText(b, at + 1 + |type_| + 1))) else None
    else if op == JUMP || op == RESS then
      if at + 5 > |b| then None
      else if op == JUMP then Some(Jump(ReadInt(b, at + 1), ToByte))
      else Some(SelectRegisters(ReadInt(b, at + 1)))
    else if at + 6 > |b| then None
    else
      var a := ReadOperand(b, at + 1);
      if TakesOne(op) then Some(One(op, a))
      else if TakesText(op) then Some(Text(op, a, ReadText(b, at + 6)))
      else if op == ATTACH then
        var f := ReadText(b, at + 6);
        if at + 6 + |f| + 1 <= |b| then Some(Attach(a, f, ReadText(b, at + 6 + |f| + 1))) else None
      else if TakesTwo(op) then
        if at + 11 <= |b| then Some(Two(op, a, ReadOperand(b, at + 6))) else None
      else if TakesThree(op) then
        if at + 16 <= |b| then Some(Three(op, a, ReadOperand(b, at + 6), ReadOperand(b, at + 11))) else None
      else if op == BRANCH then
        if at + 14 <= |b| then Some(Branch(a, ReadInt(b, at + 6), ToByte, ReadInt(b, at + 10), ToByte)) else None
      else if op == FSTORE then
        if at + 10 <= |b| then Some(FloatStore(a, ReadInt(b, at + 6))) else None
      else if op == BSTORE then
        if at + 8 <= |b| then Some(ByteStore(a, b[at + 6] != 0, b[at + 7])) else None
      else None
  }

  function Fetch(text: Text, at: nat): Option<Fetched> {
    match text
    case Indexed(code) => if at < |code| then Some(Fetched(code[at], at + 1)) else None
    case Bytecode(b) =>
      if at >= |b| then None
      else
        match Decode(b, at)
        case Some(i) => Some(Fetched(i, at + Consumed(i)))
        case None => None
  }

  // Instructions that may leave the instruction pointer where it is: in bytecode only `end`.  A
  // block returns to the byte before the next instruction, which has no index of its own.
  predicate MayStay(text: Text, at: nat) {
    at < text.End() && (OpcodeOf(text, at) == END || (text.Indexed? && OpcodeOf(text, at) == LEAVE))
  }

  datatype Env<!D> = Env(text: Text, functions: map<Name, nat>, blocks: map<Name, nat>, sem: Semantics<D>)

  // ----- frames -----

  function Throw<D>(m: Machine<D>, cause: Cause): Machine<D> {
    m.(thrown := Some(Raised(cause)))
  }

  function ViewOf<D>(env: Env<D>, m: Machine<D>): View
    requires m.frames != []
  {
    View(m.selected, m.Top().id, m.Top().name, if m.pending.Some? then Some(m.pending.value.id) else None,
         env.sem.allocate(m.LiveIds(), m.requests))
  }

  // An instruction that only touches registers.
  function Run<D>(env: Env<D>, m: Machine<D>, i: Instr): Machine<D>
    requires m.frames != []
  {
    match env.sem.run(i, ViewOf(env, m), m.data)
    case Done(d) => m.(data := d)
    case Raises(d, o) => m.(data := d, thrown := Some(o))
    case Lost => m.(status := Crashed)
  }

  function RequestNewFrame<D>(env: Env<D>, m: Machine<D>): Machine<D> {
    if m.pending.Some? then Throw(m, FrameUnused)
    else
      m.(pending := Some(Frame(env.sem.allocate(m.LiveIds(), m.requests), 0, [], false, 0)), requests := m.requests + 1)
  }

  function PushFrame<D>(m: Machine<D>): Machine<D>
    requires m.pending.Some?
  {
    if |m.frames| > MAX_STACK_SIZE then Throw(m, StackExceeded)
    else if exists k | 0 <= k < |m.frames| :: m.frames[k].id == m.pending.value.id then m.(status := Crashed)
    else
      m.(frames := m.frames + [m.pending.value], pending := None, selected := Local(m.pending.value.id))
  }

  function DropFrame<D>(env: Env<D>, m: Machine<D>): Machine<D>
    requires m.frames != []
  {
    var rest := m.frames[..|m.frames| - 1];
    m.(frames := rest, data := env.sem.drop(m.Top().id, m.data),
       selected := if rest == [] then Global else Local(rest[|rest| - 1].id))
  }

  // ----- calls -----

  // callNative and the second half of fcall: the pending frame becomes the current one.
  function Enter<D>(env: Env<D>, m: Machine<D>, return_: nat, c: Callee): Machine<D>
    requires c.Calls?
  {
    if c.name !in env.functions then Throw(m, UndefinedFunction)
    else if m.pending.None? then Throw(m, NoFrame)
    else
      var f := m.pending.value.(name := c.name, return_ := return_, resolve := c.resolve, result := c.result);
      var p := PushFrame(m.(pending := Some(f)));
      if !p.Going() then p
      else p.(ip := env.functions[c.name], selected := if c.closure.Some? then Captured(c.closure.value) else p.selected)
  }

  function Call<D>(env: Env<D>, m: Machine<D>, i: Instr, next: nat): Machine<D>
    requires m.frames != []
  {
    match if i.Text? && i.op == CALL then Calls(i.text, i.a.ref, i.a.index, None)
          else env.sem.callee(i, ViewOf(env, m), m.data)
    case NoCallee(o) => m.(thrown := Some(o))
    case NoObject => m.(status := Crashed)
    case c => if i.Text? && i.op == MSG && m.pending.None? then m.(status := Crashed) else Enter(env, m, next, c)
  }

  // Place the return value o of the frame f that has just been dropped.
  function EndWith<D>(env: Env<D>, m: Machine<D>, o: Object, f: Frame): Machine<D> {
    if m.frames == [] then m.(ip := f.return_)
    else
      match env.sem.place(o, f.resolve, f.result, ViewOf(env, m), m.data)
      case Done(d) => m.(data := d, ip := f.return_)
      case Raises(d, e) => m.(data := d, thrown := Some(e))
      case Lost => m.(status := Crashed)
  }

  function End<D>(env: Env<D>, m: Machine<D>): Machine<D>
    requires m.frames != []
  {
    var f := m.Top();
    if f.result == 0 then DropFrame(env, m).(ip := f.return_)
    else
      match env.sem.take(ViewOf(env, m), m.data)
      case Missing => m.(status := Crashed)
      case NotTaken(d, o) => m.(data := d, thrown := Some(o))
      case Taken(d, o) => EndWith(env, DropFrame(env, m.(data := d)), o, f)
  }

  // ----- blocks -----

  function Try<D>(m: Machine<D>, next: nat): Machine<D> {
    if m.pendingBlock.Some? then Throw(m, BlockUnused)
    else m.(pendingBlock := Some(Block(0, 0, [], map[])), ip := next)
  }

  function Register<D>(env: Env<D>, m: Machine<D>, type_: Name, block: Name, next: nat): Machine<D> {
    if block !in env.blocks then Throw(m, UndefinedBlock)
    else if m.pendingBlock.None? then m.(status := Crashed)
    else
      var b := m.pendingBlock.value;
      m.(pendingBlock := Some(b.(catchers := b.catchers[type_ := env.blocks[block]])), ip := next)
  }

  function EnterBlock<D>(env: Env<D>, m: Machine<D>, name: Name, resume: nat): Machine<D>
    requires m.frames != []
  {
    if name !in env.blocks then Throw(m, UndefinedBlock)
    else if m.pendingBlock.None? then m.(status := Crashed)
    else
      var b := m.pendingBlock.value.(return_ := resume, frame := m.Top().id, name := name);
      m.(blocks := m.blocks + [b], pendingBlock := None, ip := env.blocks[name])
  }

  function Leave<D>(m: Machine<D>): Machine<D> {
    if m.blocks == [] then Throw(m, NoBlock)
    else m.(ip := m.TopBlock().return_, blocks := m.blocks[..|m.blocks| - 1])
  }

  function ThrowObject<D>(env: Env<D>, m: Machine<D>, i: Instr, next: nat): Machine<D>
    requires m.frames != []
  {
    match env.sem.source(i, ViewOf(env, m), m.data)
    case Taken(d, o) => m.(data := d, thrown := Some(o), ip := next)
    case NotTaken(d, o) => m.(data := d, thrown := Some(o))
    case Missing => m.(status := Crashed)
  }

  function Pull<D>(env: Env<D>, m: Machine<D>, i: Instr, next: nat): Machine<D>
    requires m.frames != []
  {
    if m.caught.None? then
      var r := Run(env, m, i);
      if r.Going() then Throw(r, NothingCaught) else r
    else
      match env.sem.pull(i, m.caught.value, ViewOf(env, m), m.data)
      case Done(d) => m.(data := d, caught := None, ip := next)
      case Raises(d, o) => m.(data := d, thrown := Some(o))
      case Lost => m.(status := Crashed)
  }

  // ----- dispatch -----

  function Select<D>(env: Env<D>, m: Machine<D>, i: Instr, n: Int32, next: nat): Machine<D>
    requires m.frames != []
  {
    if n == 0 then m.(selected := Global, ip := next)
    else if n == 1 then m.(selected := Local(m.Top().id), ip := next)
    else if n == 2 then
      var r := Run(env, m, i);
      if r.Going() then r.(selected := Static(m.Top().name), ip := next) else r
    else Throw(m, BadRegisterSet)
  }

  function JumpTo<D>(env: Env<D>, m: Machine<D>, target: int): Machine<D> {
    if env.text.Bytecode? && target == m.ip + 1 then Throw(m, JumpToItself)
    else Goto(m, target)
  }

  function Goto<D>(m: Machine<D>, target: int): Machine<D> {
    if target < 0 then m.(status := Crashed) else m.(ip := target)
  }

  function BranchTo<D>(env: Env<D>, m: Machine<D>, condition: Operand, yes: int, no: int): Machine<D>
    requires m.frames != []
  {
    match env.sem.test(condition, ViewOf(env, m), m.data)
    case Verdict(v) => Goto(m, if v then yes else no)
    case Refused(o) => m.(thrown := Some(o))
    case Broken => m.(status := Crashed)
  }

  function Ordinary<D>(env: Env<D>, m: Machine<D>, i: Instr, next: nat): Machine<D>
    requires m.frames != []
  {
    var r := Run(env, m, i);
    if r.Going() then r.(ip := next) else r
  }

  function NewFrame<D>(env: Env<D>, m: Machine<D>, i: Instr, next: nat): Machine<D>
    requires m.frames != []
  {
    var r := Run(env, m, i);
    if !r.Going() then r
    else
      var q := RequestNewFrame(env, m);
      if q.Going() then q.(data := r.data, ip := next) else q
  }

  // Instructions without operands.
  function HandleBare<D>(env: Env<D>, m: Machine<D>, op: Byte, next: nat): Machine<D>
    requires m.frames != []
  {
    if op == NOP then m.(ip := next)
    else if op == HALT then m.(status := Halted)
    else if op == END then End(env, m)
    else if op == TRY then Try(m, next)
    else if op == LEAVE then Leave(m)
    else m.(status := Crashed)
  }

  function Handle<D>(env: Env<D>, m: Machine<D>, i: Instr, next: nat): Machine<D>
    requires m.frames != []
  {
    var op := i.Opcode();
    match i
    case Bare(_) => HandleBare(env, m, op, next)
    case Jump(t, _) => JumpTo(env, m, t)
    case Branch(c, yes, _, no, _) => BranchTo(env, m, c, yes, no)
    case SelectRegisters(n) => Select(env, m, i, n, next)
    case Catch(t, b) => Register(env, m, t, b, next)
    case Named(_, name) =>
      if op == ENTER then EnterBlock(env, m, name, next) else Ordinary(env, m, i, next)
    case _ =>
      if op == CALL || op == FCALL || op == MSG then Call(env, m, i, next)
      else if op == FRAME then NewFrame(env, m, i, next)
      else if op == THROW then ThrowObject(env, m, i, next)
      else if op == PULL then Pull(env, m, i, next)
      else Ordinary(env, m, i, next)
  }

  function Dispatch<D>(env: Env<D>, m: Machine<D>): Machine<D>
    requires m.frames != []
  {
    if m.ip >= env.text.End() then m.(status := Crashed)
    else if !Implemented(OpcodeOf(env.text, m.ip)) then Throw(m, UnknownInstruction)
    else
      match Fetch(env.text, m.ip)
      case None => m.(status := Crashed)
      case Some(Fetched(i, after)) => Handle(env, m, i, after)
  }

  // ----- handlers and unwinding -----

  // The topmost block that has a catcher for exactly t.
  function TopmostFor(blocks: seq<Block>, t: Name): (r: Option<nat>)
    ensures r.Some? ==> r.value < |blocks| && t in blocks[r.value].catchers
    ensures forall k | (if r.Some? then r.value else -1) < k < |blocks| :: t !in blocks[k].catchers
  {
    if blocks == [] then None
    else if t in blocks[|blocks| - 1].catchers then Some(|blocks| - 1)
    else TopmostFor(blocks[..|blocks| - 1], t)
  }

  // Exceptions are first looked up by their detailed type, and nothing is unwound for them.
  function CatchDetailed<D>(m: Machine<D>): Machine<D> {
    if m.thrown.None? || m.thrown.value.Type() != EXCEPTION then m
    else
      match TopmostFor(m.blocks, m.thrown.value.Detailed())
      case None => m
      case Some(k) =>
        m.(ip := m.blocks[k].catchers[m.thrown.value.Detailed()], caught := m.thrown, thrown := None)
  }

  // The first of the types that has a catcher.
  function FirstCaught(catchers: map<Name, nat>, types: seq<Name>): (r: Option<nat>)
    ensures r.Some? ==> r.value < |types| && types[r.value] in catchers
    ensures forall j | 0 <= j < (if r.Some? then r.value else |types|) :: types[j] !in catchers
  {
    if types == [] then None
    else if types[0] in catchers then Some(0)
    else
      match FirstCaught(catchers, types[1..])
      case None => None
      case Some(k) => Some(k + 1)
  }

  // The topmost block that catches any of the types.
  function Catching(blocks: seq<Block>, types: seq<Name>): (r: Option<nat>)
    ensures r.Some? ==> r.value < |blocks| && FirstCaught(blocks[r.value].catchers, types).Some?
    ensures forall k | (if r.Some? then r.value else -1) < k < |blocks| :: FirstCaught(blocks[k].catchers, types).None?
  {
    if blocks == [] then None
    else if FirstCaught(blocks[|blocks| - 1].catchers, types).Some? then Some(|blocks| - 1)
    else Catching(blocks[..|blocks| - 1], types)
  }

  // The types an object of type t can be caught by, best first.
  function TypesOf<D>(env: Env<D>, d: D, t: Name): (types: seq<Name>)
    ensures types != []
  {
    match env.sem.chain(t, d)
    case None => [t]
    case Some(ancestors) => [t] + ancestors
  }

  // How many frames are dropped to get to the frame id; the search stops at index 1.
  function Distance(frames: seq<Frame>, id: nat, j: nat): (n: nat)
    requires j < |frames|
    ensures n <= j
  {
    if j <= 1 || frames[j].id == id then 0 else 1 + Distance(frames, id, j - 1)
  }

  function DropFrames<D>(env: Env<D>, m: Machine<D>, n: nat): (r: Machine<D>)
    requires n <= |m.frames|
    ensures r.frames == m.frames[..|m.frames| - n]
    decreases n
  {
    if n == 0 then m else DropFrames(env, DropFrame(env, m), n - 1)
  }

  lemma DropOneMore<D>(env: Env<D>, m: Machine<D>, n: nat)
    requires n <= |m.frames|
    ensures n == 0 ==> DropFrames(env, m, n) == m
    ensures n > 0 ==> |DropFrame(env, m).frames| == |m.frames| - 1
    ensures n > 0 ==> DropFrames(env, m, n) == DropFrames(env, DropFrame(env, m), n - 1)
  {
  }

  // Unwind to block k and go on at its handler for t.
  function UnwindTo<D>(env: Env<D>, m: Machine<D>, k: nat, t: Name): Machine<D>
    requires m.frames != [] && k < |m.blocks| && t in m.blocks[k].catchers
  {
    var b := m.blocks[k];
    var u := DropFrames(env, m, Distance(m.frames, b.frame, |m.frames| - 1));
    u.(ip := b.catchers[t], blocks := m.blocks[..k + 1], caught := m.thrown, thrown := None)
  }

  function CatchByType<D>(env: Env<D>, m: Machine<D>): Machine<D>
    requires m.frames != []
  {
    if m.thrown.None? then m
    else
      var types := TypesOf(env, m.data, m.thrown.value.Type());
      match Catching(m.blocks, types)
      case None => m
      case Some(k) => UnwindTo(env, m, k, types[FirstCaught(m.blocks[k].catchers, types).value])
  }

  function Settle<D>(env: Env<D>, m: Machine<D>): Machine<D>
    requires m.frames != []
  {
    var c := CatchByType(env, CatchDetailed(m));
    if c.thrown.Some? then c.(status := Unhandled(c.thrown.value)) else c
  }

  // What follows the dispatch of the instruction at `previous`.
  function After<D>(env: Env<D>, m: Machine<D>, previous: nat): Machine<D> {
    if m.status.Crashed? then m
    else if m.status.Halted? || m.frames == [] then m.(status := Halted)
    else if m.ip >= env.text.End() then m.(status := OutOfBounds)
    else if m.ip == previous && !MayStay(env.text, m.ip) && m.thrown.None? then m.(status := Unchanged)
    else Settle(env, m)
  }

  function Tick<D>(env: Env<D>, m: Machine<D>): Machine<D> {
    if m.Live() then After(env, Dispatch(env, m), m.ip) else m
  }

  function Ticks<D>(env: Env<D>, m: Machine<D>, n: nat): Machine<D> {
    if n == 0 then m else Tick(env, Ticks(env, m, n - 1))
  }

  // The machine about to execute the function at `entry`.
  function Loaded<D>(entry: nat, name: Name, data: D): Machine<D> {
    var f := Frame(0, 0, name, false, 0);
    Machine(entry, [f], None, [], None, None, None, Local(0), 0, data, Running)
  }
}
