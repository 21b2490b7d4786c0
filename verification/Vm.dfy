/** The bytecode machine: blocks of code, an operand stack, a stack of variable references and a
    stack of call frames. */
module Vm {
  import opened Wrappers
  import opened Varint

  const SHIFT: nat := 0x1_0000        // an IP is block number * SHIFT + offset in the block
  const WORD: nat := 0x1_0000_0000    // unsigned arithmetic of the source wraps here

  datatype Frame = Frame(fp: nat, vp: nat, ret: nat)

  /** A variable on the operand stack, or one that is known under a number, with an argument. */
  datatype Ref = Operand(index: nat) | External(guid: nat, arg: nat)

  /** A static variable keeps its value in the machine, any other one belongs to the world. */
  datatype Variable = Static(value: int) | Foreign

  /** What the world is asked to create: states is None for a bool. */
  datatype Request = Request(name: seq<byte>, block: nat, states: Option<nat>)

  /** The machine's dealings with variables outside its stacks: `home` is the block the run started
      in, `text` the string accumulator, `known` the variables with a number.  `world` is what the world
      is going to answer, one entry each time it is asked: a value, or None for a failure; `requests` is
      what it was asked to create so far. */
  datatype Outside = Outside(
    home: nat, text: seq<byte>, known: map<nat, Variable>, world: seq<Option<int>>, requests: seq<Request>)

  /** `ip` is the offset in the current block. */
  datatype State = State(
    blocks: seq<seq<byte>>, block: nat, ip: int,
    ops: seq<int>, vars: seq<Ref>, calls: seq<Frame>, fp: nat, preamble: bool, out: Outside)
  {
    function Code(): seq<byte>
      requires block < |blocks|
    {
      blocks[block]
    }
  }

  /** At most 256 blocks, each shorter than SHIFT, as set_block_code demands; the frame pointer
      is the one of the innermost frame. */
  ghost predicate Valid(m: State) {
    && |m.blocks| <= 256 && m.block < |m.blocks|
    && (forall b | 0 <= b < |m.blocks| :: |m.blocks[b]| < SHIFT)
    && |m.calls| >= 1 && m.fp == m.calls[|m.calls| - 1].fp
  }

  // ----- Addresses -----

  function Address(block: nat, ofs: nat): nat { block * SHIFT + ofs }

  /** A jump to an invalid target is ignored. */
  function JumpTo(m: State, target: nat): State {
    var b, ofs := target / SHIFT, target % SHIFT;
    if b >= |m.blocks| || ofs > |m.blocks[b]| then m else m.(block := b, ip := ofs)
  }

  function Wrap(x: int): nat { x % WORD }

  /** Encoding a position and jumping there comes back to it. */
  lemma JumpToAddress(m: State, block: nat, ofs: nat)
    requires block < |m.blocks| && ofs <= |m.blocks[block]| < SHIFT
    ensures JumpTo(m, Address(block, ofs)) == m.(block := block, ip := ofs)
  {
    assert Address(block, ofs) / SHIFT == block && Address(block, ofs) % SHIFT == ofs;
  }

  // ----- Instructions -----

  datatype Instr =
    | Terminate | Push(value: int) | PushTop | Pop | Enter(count: int) | Leave(count: int)
    | CheckLength(count: int) | StoreRel(ofs: int) | LoadRel(ofs: int)
    | IndirectLoad | IndirectStore | CreateIndirect(ofs: int)
    | Binary(op: BinaryOp) | Not | Project
    | IfPreamble | Jump(rel: int) | Call(args: int) | Ret | TestFalse(rel: int) | TestTrue(rel: int)
    | LoadString(text: seq<byte>) | CreateVar(guid: int, states: int) | CreateStatic(guid: int) | ImportVar
    | PrintNum | PrintStr | Nop

  datatype BinaryOp = Plus | Minus | Mul | Div | Mod | BoolEq | BoolNeq | Leq | Geq | Lt | Gt | Eq | Neq

  datatype Fetched = Got(instr: Instr, next: nat) | Truncated | Unknown

  /** Opcodes that take one number. */
  predicate TakesArg(op: byte) {
    op == 1 || 6 <= op <= 10 || op == 18 || op == 20 || op == 38 || op == 39 || op == 41 || op == 42
  }

  function InstrWithArg(op: byte, v: int): Instr
    requires TakesArg(op)
  {
    match op
    case 1 => Push(v)
    case 6 => Enter(v)
    case 7 => Leave(v)
    case 8 => CheckLength(v)
    case 9 => StoreRel(v)
    case 10 => LoadRel(v)
    case 18 => CreateStatic(v)
    case 20 => CreateIndirect(v)
    case 38 => Jump(v)
    case 39 => Call(v)
    case 41 => TestFalse(v)
    case _ => TestTrue(v)
  }

  function PlainInstr(op: byte): Option<Instr> {
    match op
    case 0 => Some(Terminate)
    case 2 => Some(Push(0))
    case 3 => Some(Push(1))
    case 4 => Some(PushTop)
    case 5 => Some(Pop)
    case 11 => Some(IndirectLoad)
    case 12 => Some(IndirectStore)
    case 19 => Some(ImportVar)
    case 21 => Some(Binary(Plus))
    case 22 => Some(Binary(Minus))
    case 23 => Some(Binary(Mul))
    case 24 => Some(Binary(Div))
    case 25 => Some(Binary(Mod))
    case 26 => Some(Binary(BoolEq))
    case 27 => Some(Binary(BoolNeq))
    case 28 => Some(Binary(Leq))
    case 29 => Some(Binary(Geq))
    case 30 => Some(Binary(Lt))
    case 31 => Some(Binary(Gt))
    case 32 => Some(Binary(Eq))
    case 33 => Some(Binary(Neq))
    case 35 => Some(Not)
    case 36 => Some(Project)
    case 37 => Some(IfPreamble)
    case 40 => Some(Ret)
    case 43 => Some(PrintNum)
    case 44 => Some(PrintStr)
    case 255 => Some(Nop)
    case _ => None
  }

  /** The instruction at `at`: LOAD_STRING has a length and as many bytes, CREATE_VAR two numbers. */
  function Fetch(code: seq<byte>, at: nat): Fetched
    requires at < |code|
  {
    var op, next := code[at], at + 1;
    if TakesArg(op) || op == 16 || op == 17 then
      (match Decode(code, next)
       case None => Truncated
       case Some((v, end)) =>
         if op == 16 then
           if v < 0 || end + v > |code| then Truncated else Got(LoadString(code[end..end + v]), end + v)
         else if op == 17 then
           (match Decode(code, end)
            case None => Truncated
            case Some((states, end')) => Got(CreateVar(v, states), end'))
         else Got(InstrWithArg(op, v), end))
    else
      (match PlainInstr(op)
       case None => Unknown
       case Some(i) => Got(i, next))
  }

  lemma FetchMovesOn(code: seq<byte>, at: nat)
    requires at < |code| && Fetch(code, at).Got?
    ensures at < Fetch(code, at).next <= |code|
  {
    DecodeMovesOn(code, at + 1);
    if code[at] == 17 && Decode(code, at + 1).Some? {
      DecodeMovesOn(code, Decode(code, at + 1).value.1);
    }
  }

  lemma DecodeMovesOn(code: seq<byte>, at: nat)
    ensures Decode(code, at).Some? ==> at < Decode(code, at).value.1 <= |code|
  {
    if at < |code| {
      DecodeMoreMovesOn(code, at, code[at] % 64, 64, if code[at] % 128 >= 64 then -1 else 0);
    }
  }

  lemma {:induction false} DecodeMoreMovesOn(code: seq<byte>, at: nat, low: int, weight: nat, sign: int)
    requires at < |code|
    ensures DecodeMore(code, at, low, weight, sign).Some? ==> at < DecodeMore(code, at, low, weight, sign).value.1 <= |code|
    decreases |code| - at
  {
    if code[at] >= 128 && at + 1 < |code| {
      DecodeMoreMovesOn(code, at + 1, low + (code[at + 1] % 128) * weight, weight * 128, sign);
    }
  }

  // ----- One step -----

  /** Done: the program ended well.  Error: the machine reports an error and stops. */
  datatype Outcome = Next(m: State) | Done | Error

  function Top(s: seq<int>): int
    requires s != []
  {
    s[|s| - 1]
  }

  function Drop(s: seq<int>, n: nat): seq<int>
    requires n <= |s|
  {
    s[..|s| - n]
  }

  /** A stack cut to n entries, or filled up with zeros. */
  function Resize<T>(s: seq<T>, n: nat, zero: T): (r: seq<T>)
    ensures |r| == n && (n <= |s| ==> r == s[..n])
  {
    if n <= |s| then s[..n] else s + seq(n - |s|, _ => zero)
  }

  function TruncDiv(a: int, b: int): int
    requires b != 0
  {
    if a >= 0 then a / b else -((-a) / b)
  }

  predicate IsStatic(m: State, guid: nat) { guid in m.out.known && m.out.known[guid].Static? }

  /** Pushes what a reference leads to: an operand, a static variable, or what the world says. */
  function LoadFrom(m: State, ref: Ref): Outcome {
    match ref
    case Operand(k) => if k >= |m.ops| then Error else Next(m.(ops := m.ops + [m.ops[k]]))
    case External(guid, _) =>
      if IsStatic(m, guid) then Next(m.(ops := m.ops + [m.out.known[guid].value]))
      else if Refused(m.out.world) then Error
      else Next(m.(ops := m.ops + [m.out.world[0].value], out := m.out.(world := m.out.world[1..])))
  }

  function StoreTo(m: State, ref: Ref, value: int): Outcome {
    match ref
    case Operand(k) => if k >= |m.ops| then Error else Next(m.(ops := m.ops[k := value]))
    case External(guid, _) =>
      if IsStatic(m, guid) then Next(m.(out := m.out.(known := m.out.known[guid := Static(value)])))
      else if Refused(m.out.world) then Error
      else Next(m.(out := m.out.(world := m.out.world[1..])))
  }

  /** The world fails, or has nothing more to say. */
  predicate Refused(world: seq<Option<int>>) { world == [] || world[0].None? }

  function Bool(b: bool): int { if b then 1 else 0 }

  /** None for a division by zero. */
  function Compute(op: BinaryOp, lhs: int, rhs: int): Option<int> {
    match op
    case Plus => Some(lhs + rhs)
    case Minus => Some(lhs - rhs)
    case Mul => Some(lhs * rhs)
    case Div => if rhs == 0 then None else Some(TruncDiv(lhs, rhs))
    case Mod => if rhs == 0 then None else Some(lhs - TruncDiv(lhs, rhs) * rhs)
    case BoolEq => Some(Bool((lhs != 0) == (rhs != 0)))
    case BoolNeq => Some(Bool((lhs != 0) != (rhs != 0)))
    case Leq => Some(Bool(lhs <= rhs))
    case Geq => Some(Bool(lhs >= rhs))
    case Lt => Some(Bool(lhs < rhs))
    case Gt => Some(Bool(lhs > rhs))
    case Eq => Some(Bool(lhs == rhs))
    case Neq => Some(Bool(lhs != rhs))
  }

  function EnterFrame(m: State, args: int): Outcome
    requires |m.calls| >= 1
  {
    if m.fp != m.calls[|m.calls| - 1].fp || m.ops == [] || m.ip < 0 then Error
    else
      var ops := Drop(m.ops, 1);
      var frame := Frame(Wrap(|ops| - args), |m.vars|, Address(m.block, m.ip));
      Next(JumpTo(m.(ops := ops, calls := m.calls + [frame], fp := frame.fp), Wrap(Top(m.ops))))
  }

  function LeaveFrame(m: State): Outcome
    requires |m.calls| >= 1
  {
    if |m.calls| <= 1 then Error
    else
      var frame, calls := m.calls[|m.calls| - 1], m.calls[..|m.calls| - 1];
      Next(JumpTo(m.(vars := Resize(m.vars, frame.vp, Operand(0)), ops := Resize(m.ops, frame.fp, 0),
                     calls := calls, fp := calls[|calls| - 1].fp), frame.ret))
  }

  /** The effect of an instruction other than CALL and RET; `m.ip` is already behind it. */
  function Effect(m: State, i: Instr): Outcome
    requires !i.Call? && !i.Ret?
  {
    var n := |m.ops|;
    match i
    case Terminate => Done
    case Push(v) => Next(m.(ops := m.ops + [v]))
    case PushTop => if n < 1 then Error else Next(m.(ops := m.ops + [Top(m.ops)]))
    case Pop => if n < 1 then Error else Next(m.(ops := Drop(m.ops, 1)))
    case Enter(r) => if n + r < 0 then Error else Next(m.(ops := Resize(m.ops, n + r, 0)))
    case Leave(r) => if r < 0 || r > n then Error else Next(m.(ops := Resize(m.ops, n - r, 0)))
    case CheckLength(r) => if n != Wrap(m.fp + r) then Error else Next(m)
    case StoreRel(r) =>
      if n < 1 || Wrap(m.fp + r) >= n - 1 then Error
      else Next(m.(ops := Drop(m.ops, 1)[Wrap(m.fp + r) := Top(m.ops)]))
    case LoadRel(r) => if Wrap(m.fp + r) >= n then Error else Next(m.(ops := m.ops + [m.ops[Wrap(m.fp + r)]]))
    case IndirectLoad =>
      if n < 1 || Top(m.ops) < 0 || Top(m.ops) >= |m.vars| then Error
      else LoadFrom(m.(ops := Drop(m.ops, 1)), m.vars[Top(m.ops)])
    case IndirectStore =>
      if n < 2 || Top(m.ops) < 0 || Top(m.ops) >= |m.vars| then Error
      else StoreTo(m.(ops := Drop(m.ops, 2)), m.vars[Top(m.ops)], m.ops[n - 2])
    case CreateIndirect(r) => Next(m.(vars := m.vars + [Operand(Wrap(m.fp + r))], ops := m.ops + [|m.vars|]))
    case LoadString(text) => Next(m.(out := m.out.(text := text)))
    case CreateVar(guid, states) =>
      var asked := m.out.requests + [Request(m.out.text, m.out.home, if states >= 0 then Some(states) else None)];
      if Refused(m.out.world) then Error
      else Next(m.(out := m.out.(text := [], known := m.out.known[Wrap(guid) := Foreign], world := m.out.world[1..],
                                 requests := asked)))
    case CreateStatic(guid) =>
      Next(m.(vars := m.vars + [External(Wrap(guid), 0)], ops := m.ops + [|m.vars|, Bool(Wrap(guid) !in m.out.known)],
              out := if Wrap(guid) in m.out.known then m.out
                     else m.out.(known := m.out.known[Wrap(guid) := Static(0)])))
    case ImportVar =>
      if n < 2 || Wrap(m.ops[n - 2]) !in m.out.known then Error
      else Next(m.(vars := m.vars + [External(Wrap(m.ops[n - 2]), Wrap(m.ops[n - 1]))],
                   ops := Drop(m.ops, 2) + [|m.vars|]))
    case Binary(op) =>
      if n < 2 then Error
      else (match Compute(op, m.ops[n - 2], m.ops[n - 1])
            case None => Error
            case Some(v) => Next(m.(ops := Drop(m.ops, 2) + [v])))
    case Not => if n < 1 then Error else Next(m.(ops := Drop(m.ops, 1) + [Bool(Top(m.ops) == 0)]))
    case Project => if n < 1 then Error else Next(m.(ops := Drop(m.ops, 1) + [Bool(Top(m.ops) != 0)]))
    case IfPreamble => Next(m.(ops := m.ops + [Bool(m.preamble)]))
    case Jump(r) => if m.ip < 0 then Error else Next(JumpTo(m, Wrap(Address(m.block, m.ip) + r)))
    case TestFalse(r) =>
      if n < 1 then Error
      else Next(m.(ops := Drop(m.ops, 1), ip := if Top(m.ops) == 0 then m.ip + r else m.ip))
    case TestTrue(r) =>
      if n < 1 then Error
      else Next(m.(ops := Drop(m.ops, 1), ip := if Top(m.ops) != 0 then m.ip + r else m.ip))
    case PrintNum => if n < 1 then Error else Next(m.(ops := Drop(m.ops, 1)))
    case PrintStr => Next(m)
    case Nop => Next(m)
  }

  function Execute(m: State, i: Instr): Outcome
    requires |m.calls| >= 1
  {
    if i.Call? then EnterFrame(m, i.args) else if i.Ret? then LeaveFrame(m) else Effect(m, i)
  }

  /** One turn of the loop of execute(). */
  function Step(m: State): Outcome
    requires Valid(m)
  {
    if m.ip >= |m.Code()| then Done
    else if m.ip < 0 then Error  // a relative jump left the block at the front
    else
      match Fetch(m.Code(), m.ip)
      case Got(i, next) => Execute(m.(ip := next), i)
      case _ => Error
  }

  function NextInstr(m: State): Option<(Instr, nat)>
    requires Valid(m)
  {
    if m.ip < 0 || m.ip >= |m.Code()| then None
    else match Fetch(m.Code(), m.ip)
      case Got(i, next) => Some((i, next))
      case _ => None
  }

  // ----- What a step keeps -----

  /** Outside CALL and RET the frames stay and variable references are only added. */
  lemma EffectKeeps(m: State, i: Instr)
    requires !i.Call? && !i.Ret? && Effect(m, i).Next?
    ensures var m' := Effect(m, i).m;
            && m'.calls == m.calls && m'.fp == m.fp && m'.blocks == m.blocks && m'.preamble == m.preamble
            && m.vars <= m'.vars
            && (m.block < |m.blocks| ==> m'.block < |m.blocks|)
  {
  }

  lemma StepKeepsValid(m: State)
    requires Valid(m) && Step(m).Next?
    ensures Valid(Step(m).m) && Step(m).m.blocks == m.blocks
  {
    var Got(i, next) := Fetch(m.Code(), m.ip);
    if !i.Call? && !i.Ret? {
      EffectKeeps(m.(ip := next), i);
    }
  }

  // ----- Runs -----

  ghost predicate IsRun(trace: seq<State>) {
    && (forall k | 0 <= k < |trace| :: Valid(trace[k]))
    && (forall k | 0 < k < |trace| :: Step(trace[k - 1]) == Next(trace[k]))
  }

  /** A cleared machine starting a block. */
  function Cleared(blocks: seq<seq<byte>>, block: nat, preamble: bool, known: map<nat, Variable>, world: seq<Option<int>>): State {
    State(blocks, block, 0, [], [], [Frame(0, 0, 0)], 0, preamble, Outside(block, [], known, world, []))
  }

  function StepsFrom(m: State, k: nat): (o: Outcome)
    requires Valid(m)
    ensures o.Next? ==> Valid(o.m)
    decreases k
  {
    if k == 0 then Next(m)
    else if Step(m).Next? then StepKeepsValid(m); StepsFrom(Step(m).m, k - 1)
    else Step(m)
  }

  lemma TopFrameEnters(m: State, args: int)
    requires Valid(m)
    ensures m.ops != [] && m.ip >= 0 ==> EnterFrame(m, args).Next?
  {
  }

  /** Main result: in every run the frame pointer is that of the top frame, so the fp check of
      CALL never fails. */
  lemma {:induction false} FramePointerIsTop(start: State, k: nat, args: int)
    requires start == Cleared(start.blocks, start.block, start.preamble, start.out.known, start.out.world)
    requires Valid(start) && StepsFrom(start, k).Next?
    ensures var m := StepsFrom(start, k).m;
            && |m.calls| >= 1 && m.fp == m.calls[|m.calls| - 1].fp
            && (m.ops != [] && m.ip >= 0 ==> EnterFrame(m, args).Next?)
  {
    TopFrameEnters(StepsFrom(start, k).m, args);
  }

  /** A value stored through one reference to a static variable is loaded through every other. */
  lemma StaticReadsBack(m: State, guid: nat, a: nat, b: nat)
    requires |m.ops| >= 2 && guid in m.out.known && m.out.known[guid].Static?
    requires a < |m.vars| && m.vars[a] == External(guid, 0) && Top(m.ops) == a
    requires b < |m.vars| && m.vars[b] == External(guid, 0)
    ensures var stored := Effect(m, IndirectStore).m;
            && Effect(m, IndirectStore).Next? && Effect(stored, Push(b)).Next?
            && Effect(Effect(stored, Push(b)).m, IndirectLoad) == Next(stored.(ops := stored.ops + [m.ops[|m.ops| - 2]]))
  {
    var stored := Effect(m, IndirectStore).m;
    assert Drop(stored.ops + [b as int], 1) == stored.ops;
  }

  // ----- Matched CALL and RET -----

  /** m is inside the call that `caller` made: the caller's frames and the new frame are
      untouched, deeper frames were made later, and the caller's variables are still there. */
  ghost predicate Inside(m: State, caller: State, frame: Frame) {
    var d := |caller.calls|;
    && Valid(m) && m.blocks == caller.blocks && m.preamble == caller.preamble
    && |m.calls| > d && m.calls[..d + 1] == caller.calls + [frame]
    && (forall k | d < k < |m.calls| :: m.calls[k].vp >= frame.vp)
    && frame.vp == |caller.vars| && caller.vars <= m.vars
  }

  lemma CallGoesInside(caller: State, args: int, next: nat)
    requires Valid(caller) && NextInstr(caller) == Some((Call(args), next)) && Step(caller).Next?
    ensures var m := Step(caller).m;
            Inside(m, caller, Frame(Wrap(|caller.ops| - 1 - args), |caller.vars|, Address(caller.block, next)))
  {
    StepKeepsValid(caller);
  }

  /** How a step changes the frames and the variables: a CALL adds a frame, a RET removes one and
      cuts the variables, and everything else only adds variables. */
  ghost predicate FramesMove(m: State, m': State) {
    var n := |m.calls|;
    || (m.vars <= m'.vars && m'.calls == m.calls)
    || (m'.vars == m.vars && |m'.calls| == n + 1 && m'.calls[..n] == m.calls && m'.calls[n].vp == |m.vars|)
    || (n > 1 && m'.calls == m.calls[..n - 1] && m'.vars == Resize(m.vars, m.calls[n - 1].vp, Operand(0)))
  }

  lemma StepMovesFrames(m: State)
    requires Valid(m) && Step(m).Next?
    ensures FramesMove(m, Step(m).m) && Step(m).m.preamble == m.preamble
  {
    var Got(i, next) := Fetch(m.Code(), m.ip);
    if !i.Call? && !i.Ret? {
      EffectKeeps(m.(ip := next), i);
    }
  }

  lemma FramesMoveInside(m: State, m': State, caller: State, frame: Frame)
    requires Inside(m, caller, frame) && Valid(m') && FramesMove(m, m') && |m'.calls| > |caller.calls|
    requires m'.blocks == m.blocks && m'.preamble == m.preamble
    ensures Inside(m', caller, frame)
  {
    assert m'.calls[..|caller.calls| + 1] == m.calls[..|caller.calls| + 1];
  }

  /** A step that does not return below the call stays inside. */
  lemma StepStaysInside(m: State, caller: State, frame: Frame)
    requires Inside(m, caller, frame) && Step(m).Next? && |Step(m).m.calls| > |caller.calls|
    ensures Inside(Step(m).m, caller, frame)
  {
    StepKeepsValid(m);
    StepMovesFrames(m);
    FramesMoveInside(m, Step(m).m, caller, frame);
  }

  /** The step that leaves the call is its RET. */
  lemma {:induction false} StepLeavesCall(m: State, caller: State, frame: Frame, ofs: nat)
    requires Inside(m, caller, frame) && Step(m).Next? && |Step(m).m.calls| <= |caller.calls|
    requires Valid(caller) && frame.ret == Address(caller.block, ofs) && ofs <= |caller.Code()|
    ensures var m' := Step(m).m;
            && m'.calls == caller.calls && m'.fp == caller.fp && m'.vars == caller.vars
            && m'.block == caller.block && m'.ip == ofs && m'.ops == Resize(m.ops, frame.fp, 0)
  {
    var Got(i, next) := Fetch(m.Code(), m.ip);
    var d := |caller.calls|;
    if i.Ret? {
      assert |m.calls| == d + 1;
      assert m.calls == caller.calls + [frame];
      var m1 := m.(ip := next, vars := Resize(m.vars, frame.vp, Operand(0)), ops := Resize(m.ops, frame.fp, 0),
                   calls := caller.calls, fp := caller.fp);
      assert m.calls[..|m.calls| - 1] == caller.calls;
      JumpToAddress(m1, caller.block, ofs);
    } else if !i.Call? {
      EffectKeeps(m.(ip := next), i);
    }
  }

  lemma {:induction false} RunStaysInside(trace: seq<State>, frame: Frame, k: nat)
    requires IsRun(trace) && 1 <= k < |trace| && Inside(trace[1], trace[0], frame)
    requires forall j | 1 <= j <= k :: |trace[j].calls| > |trace[0].calls|
    ensures Inside(trace[k], trace[0], frame)
    decreases k
  {
    if k > 1 {
      RunStaysInside(trace, frame, k - 1);
      assert Step(trace[k - 1]) == Next(trace[k]);
      StepStaysInside(trace[k - 1], trace[0], frame);
    }
  }

  /** A stretch of a run from a CALL with a proper number of arguments to the step that brings
      the call depth back. */
  ghost predicate MatchedCall(trace: seq<State>, args: int, next: nat) {
    && IsRun(trace) && |trace| >= 3
    && NextInstr(trace[0]) == Some((Call(args), next)) && 0 <= args < |trace[0].ops| < WORD
    && (forall j | 1 <= j < |trace| - 1 :: |trace[j].calls| > |trace[0].calls|)
    && |trace[|trace| - 1].calls| == |trace[0].calls|
  }

  /** Where the caller's operands end and the arguments begin. */
  function Base(caller: State, args: int): int { |caller.ops| - 1 - args }

  lemma WrapSmall(x: nat)
    requires x < WORD
    ensures Wrap(x) == x
  {
  }

  lemma CallEnters(caller: State, args: int, next: nat, m: State)
    requires Valid(caller) && NextInstr(caller) == Some((Call(args), next)) && Step(caller) == Next(m)
    requires 0 <= args < |caller.ops| < WORD
    ensures Inside(m, caller, Frame(Base(caller, args), |caller.vars|, Address(caller.block, next)))
  {
    WrapSmall(Base(caller, args));
    CallGoesInside(caller, args, next);
  }

  lemma MatchedInside(trace: seq<State>, args: int, next: nat)
    requires MatchedCall(trace, args, next)
    ensures Inside(trace[|trace| - 2], trace[0],
                   Frame(Base(trace[0], args), |trace[0].vars|, Address(trace[0].block, next)))
  {
    assert Step(trace[0]) == Next(trace[1]);
    CallEnters(trace[0], args, next, trace[1]);
    RunStaysInside(trace, Frame(Base(trace[0], args), |trace[0].vars|, Address(trace[0].block, next)), |trace| - 2);
  }

  /** Main result: whatever the callee does, calls and recursion included, the step that brings
      the call depth back resumes right after the CALL with the caller's frames, frame pointer
      and variables, and with the operand stack cut to what lay below the arguments. */
  lemma MatchedReturn(trace: seq<State>, args: int, next: nat)
    requires MatchedCall(trace, args, next)
    ensures var caller, callee, after := trace[0], trace[|trace| - 2], trace[|trace| - 1];
            && after.block == caller.block && after.ip == next
            && after.calls == caller.calls && after.fp == caller.fp && after.vars == caller.vars
            && after.ops == Resize(callee.ops, Base(caller, args), 0)
  {
    var caller, callee := trace[0], trace[|trace| - 2];
    var frame := Frame(Base(caller, args), |caller.vars|, Address(caller.block, next));
    MatchedInside(trace, args, next);
    assert Step(callee) == Next(trace[|trace| - 1]);
    FetchMovesOn(caller.Code(), caller.ip);
    StepLeavesCall(callee, caller, frame, next);
  }

  lemma CallKeepsBase(caller: State, args: int, next: nat)
    requires Valid(caller) && NextInstr(caller) == Some((Call(args), next)) && 0 <= args < |caller.ops|
    requires Step(caller).Next?
    ensures |Step(caller).m.ops| >= Base(caller, args)
    ensures Step(caller).m.ops[..Base(caller, args)] == caller.ops[..Base(caller, args)]
  {
  }

  /** If the callee never reaches below its arguments, the caller finds its own operands again. */
  lemma CalleeKeepsCallersOperands(trace: seq<State>, args: int, next: nat)
    requires MatchedCall(trace, args, next)
    requires forall j | 1 <= j < |trace| - 1 :: Above(trace[j], Base(trace[0], args))
    ensures trace[|trace| - 1].ops == trace[0].ops[..Base(trace[0], args)]
  {
    var base := Base(trace[0], args);
    MatchedReturn(trace, args, next);
    assert Step(trace[0]) == Next(trace[1]);
    CallKeepsBase(trace[0], args, next);
    RunStaysAbove(trace, base, |trace| - 2);
  }

  /** The instruction neither drops below entry `base` of the operand stack nor writes below it. */
  predicate InstrAbove(m: State, i: Instr, base: nat) {
    |m.ops| >= base &&
    match i
    case Enter(r) => |m.ops| + r >= base
    case Leave(r) => |m.ops| - r >= base
    case StoreRel(r) => |m.ops| >= base + 1 && Wrap(m.fp + r) >= base
    case IndirectStore =>
      |m.ops| >= base + 2
      && (0 <= Top(m.ops) < |m.vars| && m.vars[Top(m.ops)].Operand? ==> m.vars[Top(m.ops)].index >= base)
    case ImportVar => |m.ops| >= base + 2
    case Binary(_) => |m.ops| >= base + 2
    case Ret => m.fp >= base
    case Pop => |m.ops| >= base + 1
    case IndirectLoad => |m.ops| >= base + 1
    case Not => |m.ops| >= base + 1
    case Project => |m.ops| >= base + 1
    case Call(_) => |m.ops| >= base + 1
    case TestFalse(_) => |m.ops| >= base + 1
    case TestTrue(_) => |m.ops| >= base + 1
    case PrintNum => |m.ops| >= base + 1
    case _ => true
  }

  predicate Above(m: State, base: nat)
    requires Valid(m)
  {
    match NextInstr(m)
    case None => |m.ops| >= base
    case Some((i, next)) => InstrAbove(m.(ip := next), i, base)
  }

  lemma StepStaysAbove(m: State, base: nat)
    requires Valid(m) && Above(m, base) && Step(m).Next?
    ensures |Step(m).m.ops| >= base && Step(m).m.ops[..base] == m.ops[..base]
  {
    var Got(i, next) := Fetch(m.Code(), m.ip);
    if !i.Call? && !i.Ret? {
      EffectStaysAbove(m.(ip := next), i, base);
    }
  }

  lemma EffectStaysAbove(m: State, i: Instr, base: nat)
    requires !i.Call? && !i.Ret? && Effect(m, i).Next? && InstrAbove(m, i, base)
    ensures |Effect(m, i).m.ops| >= base && Effect(m, i).m.ops[..base] == m.ops[..base]
  {
  }

  lemma {:induction false} RunStaysAbove(trace: seq<State>, base: nat, k: nat)
    requires IsRun(trace) && 1 <= k < |trace|
    requires forall j | 1 <= j < k :: Above(trace[j], base)
    requires |trace[1].ops| >= base
    ensures |trace[k].ops| >= base && trace[k].ops[..base] == trace[1].ops[..base]
    decreases k
  {
    if k > 1 {
      RunStaysAbove(trace, base, k - 1);
      assert Step(trace[k - 1]) == Next(trace[k]);
      StepStaysAbove(trace[k - 1], base);
    }
  }
}
