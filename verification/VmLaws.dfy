/** What the instructions compute, as laws between them.  They are stated over steps of the machine
    at the bytes of the instructions, wherever those stand in the code. */
module VmLaws {
  import opened Wrappers
  import opened Varint
  import opened Vm
  import opened Opcodes
  import Arith

  // ----- Instructions as bytes -----

  function With(op: byte, v: int): seq<byte> { [op] + Encode(v) }

  /** The machine is about to run these bytes. */
  ghost predicate Ready(m: State, bytes: seq<byte>) {
    Valid(m) && m.ip >= 0 && StandsAt(m.Code(), m.ip, bytes)
  }

  /** The machine behind `size` bytes of code. */
  function Behind(m: State, size: nat): State { m.(ip := m.ip + size) }

  /** The next instruction is i, and it takes this many bytes. */
  predicate Fetches(m: State, i: Instr, size: nat) {
    m.block < |m.blocks| && 0 <= m.ip < |m.Code()| && Fetch(m.Code(), m.ip) == Got(i, m.ip + size)
  }

  lemma FetchesStep(m: State, i: Instr, size: nat)
    requires Valid(m) && Fetches(m, i, size)
    ensures Step(m) == Execute(Behind(m, size), i)
  {
  }

  lemma PlainFetch(m: State, op: byte)
    requires Ready(m, [op]) && !TakesArg(op) && op != LOAD_STRING && op != CREATE_VAR && PlainInstr(op).Some?
    ensures Fetches(m, PlainInstr(op).value, 1)
  {
    assert m.Code()[m.ip + 0] == [op][0];
  }

  lemma PlainStep(m: State, op: byte, i: Instr)
    requires Ready(m, [op]) && !TakesArg(op) && op != LOAD_STRING && op != CREATE_VAR && PlainInstr(op) == Some(i)
    ensures Step(m) == Execute(Behind(m, 1), i)
  {
    PlainFetch(m, op);
    FetchesStep(m, i, 1);
  }

  lemma ArgFetch(m: State, op: byte, v: int)
    requires Ready(m, With(op, v)) && TakesArg(op)
    ensures Fetches(m, InstrWithArg(op, v), |With(op, v)|)
  {
    SplitStanding(m.Code(), m.ip, [op], Encode(v));
    assert m.Code()[m.ip + 0] == [op][0];
    RoundTrip(m.Code(), m.ip + 1, v);
  }

  lemma ArgStep(m: State, op: byte, v: int, i: Instr)
    requires Ready(m, With(op, v)) && TakesArg(op) && i == InstrWithArg(op, v)
    ensures Step(m) == Execute(Behind(m, |With(op, v)|), i)
  {
    ArgFetch(m, op, v);
    FetchesStep(m, i, |With(op, v)|);
  }

  /** Of two instructions in a row the second stands behind the first. */
  lemma ReadyBoth(m: State, first: seq<byte>, second: seq<byte>)
    requires Ready(m, first + second)
    ensures Ready(m, first) && Ready(Behind(m, |first|), second)
  {
    SplitStanding(m.Code(), m.ip, first, second);
  }

  /** Two steps in a row. */
  lemma InARow(m: State, m1: State, m2: State)
    requires Valid(m) && Step(m) == Next(m1) && Valid(m1) && Step(m1) == Next(m2)
    ensures StepsFrom(m, 2) == Next(m2)
  {
    StepKeepsValid(m1);
    assert StepsFrom(m2, 0) == Next(m2);
    assert StepsFrom(m1, 1) == Next(m2);
  }

  // ----- Two operands -----

  /** Wherever the instruction stands and whatever else is in the machine, it takes the operands a and
      b off the stack, puts x there, and changes nothing else. */
  ghost predicate Computes(op: byte, a: int, b: int, x: int) {
    forall m | Ready(m, [op]) && EndsIn(m.ops, a, b) :: Step(m) == Next(Behind(m, 1).(ops := Drop(m.ops, 2) + [x]))
  }

  /** The instruction is an error for these operands. */
  ghost predicate Fails(op: byte, a: int, b: int) {
    forall m | Ready(m, [op]) && EndsIn(m.ops, a, b) :: Step(m) == Error
  }

  predicate EndsIn(ops: seq<int>, a: int, b: int) { |ops| >= 2 && ops[|ops| - 2] == a && ops[|ops| - 1] == b }

  /** A machine with nothing but these operands and this one instruction. */
  function Small(op: byte, ops: seq<int>): State {
    State([[op]], 0, 0, ops, [], [Frame(0, 0, 0)], 0, false, Outside(0, [], map[], [], []))
  }

  lemma BinaryStep(m: State, op: byte, bin: BinaryOp)
    requires NUMERIC_PLUS <= op <= NUMERIC_NEQ && PlainInstr(op) == Some(Binary(bin)) && Ready(m, [op]) && |m.ops| >= 2
    ensures Step(m) == match Compute(bin, m.ops[|m.ops| - 2], m.ops[|m.ops| - 1])
                       case None => Error
                       case Some(x) => Next(Behind(m, 1).(ops := Drop(m.ops, 2) + [x]))
  {
    PlainStep(m, op, Binary(bin));
    BinaryEffect(Behind(m, 1), bin);
  }

  lemma BinaryEffect(m: State, bin: BinaryOp)
    requires |m.calls| >= 1 && |m.ops| >= 2
    ensures Execute(m, Binary(bin)) == match Compute(bin, m.ops[|m.ops| - 2], m.ops[|m.ops| - 1])
                                       case None => Error
                                       case Some(x) => Next(m.(ops := Drop(m.ops, 2) + [x]))
  {
  }

  lemma BinaryComputes(op: byte, a: int, b: int)
    requires NUMERIC_PLUS <= op <= NUMERIC_NEQ
    ensures PlainInstr(op).Some? && PlainInstr(op).value.Binary?
    ensures match Compute(PlainInstr(op).value.op, a, b)
            case None => Fails(op, a, b) && forall y :: !Computes(op, a, b, y)
            case Some(x) => forall y :: Computes(op, a, b, y) <==> y == x
  {
    var bin := PlainInstr(op).value.op;
    forall m | Ready(m, [op]) && |m.ops| >= 2 {
      BinaryStep(m, op, bin);
    }
    var small := Small(op, [a, b]);
    assert Ready(small, [op]) && EndsIn(small.ops, a, b);
    BinaryStep(small, op, bin);
    forall y | Computes(op, a, b, y) ensures Compute(PlainInstr(op).value.op, a, b) == Some(y) {
      var Next(m') := Step(small);
      assert m'.ops[|m'.ops| - 1] == y;
    }
  }

  /** What the instruction computes; None if nothing. */
  ghost function Answer(op: byte, a: int, b: int): Option<int> {
    if y :| Computes(op, a, b, y) then Some(y) else None
  }

  lemma BinaryAnswer(op: byte, a: int, b: int)
    requires NUMERIC_PLUS <= op <= NUMERIC_NEQ
    ensures PlainInstr(op).Some? && PlainInstr(op).value.Binary?
    ensures Answer(op, a, b) == Compute(PlainInstr(op).value.op, a, b)
  {
    BinaryComputes(op, a, b);
    var c := Compute(PlainInstr(op).value.op, a, b);
    assert c.Some? ==> Computes(op, a, b, c.value);
  }

  /** Every instruction with two operands computes one value for them, except NUMERIC_DIV and NUMERIC_MOD by zero,
      which fail. */
  lemma AnswersExactly(op: byte, a: int, b: int)
    requires NUMERIC_PLUS <= op <= NUMERIC_NEQ
    ensures match Answer(op, a, b) case Some(x) => Computes(op, a, b, x) case None => Fails(op, a, b)
    ensures Answer(op, a, b).None? <==> (op == NUMERIC_DIV || op == NUMERIC_MOD) && b == 0
  {
    BinaryComputes(op, a, b);
    BinaryAnswer(op, a, b);
    NoAnswerExactly(op, a, b);
  }

  lemma NoAnswerExactly(op: byte, a: int, b: int)
    requires NUMERIC_PLUS <= op <= NUMERIC_NEQ && PlainInstr(op).Some? && PlainInstr(op).value.Binary?
    ensures Compute(PlainInstr(op).value.op, a, b).None? <==> (op == NUMERIC_DIV || op == NUMERIC_MOD) && b == 0
  {
  }

  /** NUMERIC_MINUS undoes NUMERIC_PLUS, and NUMERIC_PLUS counts up by one with its right operand, from the left one. */
  lemma MinusUndoesPlus(a: int, b: int, x: int)
    ensures Answer(NUMERIC_PLUS, a, b) == Some(x) <==> Answer(NUMERIC_MINUS, x, b) == Some(a)
    ensures Answer(NUMERIC_PLUS, a, 0) == Some(a)
    ensures Answer(NUMERIC_PLUS, a, b) == Some(x) <==> Answer(NUMERIC_PLUS, a, b + 1) == Some(x + 1)
  {
    BinaryAnswer(NUMERIC_PLUS, a, b);
    BinaryAnswer(NUMERIC_PLUS, a, 0);
    BinaryAnswer(NUMERIC_PLUS, a, b + 1);
    BinaryAnswer(NUMERIC_MINUS, x, b);
  }

  /** NUMERIC_MUL is repeated NUMERIC_PLUS. */
  lemma MulRepeatsPlus(a: int, b: int, x: int)
    requires Answer(NUMERIC_MUL, a, b) == Some(x)
    ensures Answer(NUMERIC_MUL, a, 0) == Some(0)
    ensures Answer(NUMERIC_MUL, a, b + 1) == Answer(NUMERIC_PLUS, x, a)
  {
    BinaryAnswer(NUMERIC_MUL, a, 0);
    BinaryAnswer(NUMERIC_MUL, a, b);
    BinaryAnswer(NUMERIC_MUL, a, b + 1);
    BinaryAnswer(NUMERIC_PLUS, x, a);
    Arith.Distribute(b, 1, a);
  }

  function Abs(x: int): nat { if x < 0 then -x else x }

  /** NUMERIC_DIV and NUMERIC_MOD together divide, truncating toward zero: the remainder is smaller than the divisor
      and has the sign of the dividend. */
  lemma DivAndMod(a: int, b: int)
    requires b != 0
    ensures Answer(NUMERIC_DIV, a, b).Some? && Answer(NUMERIC_MOD, a, b).Some?
    ensures var q, r := Answer(NUMERIC_DIV, a, b).value, Answer(NUMERIC_MOD, a, b).value;
            a == q * b + r && Abs(r) < Abs(b) && (r == 0 || (r > 0 <==> a > 0))
  {
    BinaryAnswer(NUMERIC_DIV, a, b);
    BinaryAnswer(NUMERIC_MOD, a, b);
    TruncDivRest(a, b);
  }

  lemma TruncDivRest(a: int, b: int)
    requires b != 0
    ensures var r := a - TruncDiv(a, b) * b; Abs(r) < Abs(b) && (r == 0 || (r > 0 <==> a > 0))
  {
    var q := Abs(a) / b;
    DivisionRest(Abs(a), b);
    MinusTimes(q, b);
    SignedRest(a, Abs(b), q * b, TruncDiv(a, b) * b);
  }

  lemma SignedRest(a: int, limit: int, p: int, t: int)
    requires t == (if a >= 0 then p else -p) && 0 <= Abs(a) - p < limit && (a == 0 ==> p == 0)
    ensures Abs(a - t) < limit && (a - t == 0 || (a - t > 0 <==> a > 0))
  {
  }

  lemma MinusTimes(q: int, b: int)
    ensures (-q) * b == -(q * b)
  {
  }

  lemma DivisionRest(a: nat, b: int)
    requires b != 0
    ensures 0 <= a - a / b * b < Abs(b)
  {
    var q, r := a / b, a % b;
    assert a == q * b + r;
  }

  predicate Opposite(op: byte, other: byte) {
    (op == NUMERIC_LT && other == NUMERIC_GEQ) || (op == NUMERIC_GT && other == NUMERIC_LEQ)
    || (op == NUMERIC_EQ && other == NUMERIC_NEQ)
  }

  /** A comparison answers 0 or 1, and its opposite the other one. */
  lemma ComparisonsAreOpposite(op: byte, opposite: byte, a: int, b: int)
    requires Opposite(op, opposite)
    ensures Answer(op, a, b) == Some(0) || Answer(op, a, b) == Some(1)
    ensures Answer(opposite, a, b) == if Answer(op, a, b) == Some(0) then Some(1) else Some(0)
  {
    BinaryAnswer(op, a, b);
    BinaryAnswer(opposite, a, b);
  }

  /** NUMERIC_LEQ and NUMERIC_GEQ hold both exactly for equal operands, and so does NUMERIC_EQ. */
  lemma ComparisonsAgree(a: int, b: int)
    ensures Answer(NUMERIC_LEQ, a, b) == Some(1) && Answer(NUMERIC_GEQ, a, b) == Some(1) <==> a == b
    ensures Answer(NUMERIC_EQ, a, b) == Some(1) <==> a == b
  {
    BinaryAnswer(NUMERIC_LEQ, a, b);
    BinaryAnswer(NUMERIC_GEQ, a, b);
    BinaryAnswer(NUMERIC_EQ, a, b);
  }

  /** NUMERIC_GT is NUMERIC_LT with the operands the other way round. */
  lemma ComparisonsMirror(a: int, b: int)
    ensures Answer(NUMERIC_LT, a, b) == Answer(NUMERIC_GT, b, a)
  {
    BinaryAnswer(NUMERIC_LT, a, b);
    BinaryAnswer(NUMERIC_GT, b, a);
  }

  /** NUMERIC_LT holds exactly when NUMERIC_PLUS of something positive leads from the left operand to the right one. */
  lemma LessIsReach(a: int, b: int)
    ensures Answer(NUMERIC_LT, a, b) == Some(1) <==> exists d :: d > 0 && Answer(NUMERIC_PLUS, a, d) == Some(b)
  {
    BinaryAnswer(NUMERIC_LT, a, b);
    BinaryAnswer(NUMERIC_PLUS, a, b - a);
    forall d {
      BinaryAnswer(NUMERIC_PLUS, a, d);
    }
    assert b > a ==> b - a > 0 && Answer(NUMERIC_PLUS, a, b - a) == Some(b);
  }

  // ----- One operand -----

  /** The same for an instruction with one operand. */
  ghost predicate Turns(op: byte, a: int, x: int) {
    forall m | Ready(m, [op]) && m.ops != [] && Top(m.ops) == a ::
      Step(m) == Next(Behind(m, 1).(ops := Drop(m.ops, 1) + [x]))
  }

  ghost function Turned(op: byte, a: int): Option<int> {
    if x :| Turns(op, a, x) then Some(x) else None
  }

  lemma UnaryAnswer(op: byte, a: int)
    requires op == BOOL_NOT || op == BOOL_PROJECT
    ensures Turned(op, a) == Some(Bool((a != 0) == (op == BOOL_PROJECT)))
    ensures Turns(op, a, Turned(op, a).value)
  {
    forall m | Ready(m, [op]) && m.ops != [] {
      UnaryStep(m, op);
    }
    var small := Small(op, [a]);
    assert Ready(small, [op]) && Top(small.ops) == a;
    UnaryStep(small, op);
    assert Turns(op, a, Bool((a != 0) == (op == BOOL_PROJECT)));
    var x := Turned(op, a).value;
    var Next(m') := Step(small);
    assert m'.ops[|m'.ops| - 1] == x;
  }

  lemma UnaryStep(m: State, op: byte)
    requires (op == BOOL_NOT || op == BOOL_PROJECT) && Ready(m, [op]) && m.ops != []
    ensures Step(m) == Next(Behind(m, 1).(ops := Drop(m.ops, 1) + [Bool((Top(m.ops) != 0) == (op == BOOL_PROJECT))]))
  {
    if op == BOOL_NOT {
      PlainStep(m, BOOL_NOT, Not);
    } else {
      PlainStep(m, BOOL_PROJECT, Project);
    }
  }

  /** BOOL_PROJECT says whether its operand differs from zero, BOOL_NOT whether it does not; twice
      BOOL_NOT is BOOL_PROJECT. */
  lemma TruthValues(a: int)
    ensures Turned(BOOL_PROJECT, a) == Answer(NUMERIC_NEQ, a, 0)
    ensures Turned(BOOL_NOT, a) == Answer(NUMERIC_EQ, a, 0)
    ensures Turned(BOOL_NOT, a).Some? && Turned(BOOL_NOT, Turned(BOOL_NOT, a).value) == Turned(BOOL_PROJECT, a)
  {
    UnaryAnswer(BOOL_PROJECT, a);
    UnaryAnswer(BOOL_NOT, a);
    UnaryAnswer(BOOL_NOT, Turned(BOOL_NOT, a).value);
    BinaryAnswer(NUMERIC_NEQ, a, 0);
    BinaryAnswer(NUMERIC_EQ, a, 0);
  }

  /** BOOL_EQ and BOOL_NEQ compare what BOOL_PROJECT answers. */
  lemma TruthIsCompared(compare: byte, op: byte, a: int, b: int, p: int, q: int)
    requires (compare == BOOL_EQ && op == NUMERIC_EQ) || (compare == BOOL_NEQ && op == NUMERIC_NEQ)
    requires Turned(BOOL_PROJECT, a) == Some(p) && Turned(BOOL_PROJECT, b) == Some(q)
    ensures Answer(compare, a, b) == Answer(op, p, q)
  {
    UnaryAnswer(BOOL_PROJECT, a);
    UnaryAnswer(BOOL_PROJECT, b);
    BinaryAnswer(compare, a, b);
    BinaryAnswer(op, p, q);
  }

  // ----- Stack instructions -----

  /** PUSH_CONSTANT pushes its number. */
  lemma PushStep(m: State, v: int)
    requires Ready(m, With(PUSH_CONSTANT, v))
    ensures Step(m) == Next(Behind(m, |With(PUSH_CONSTANT, v)|).(ops := m.ops + [v]))
  {
    ArgStep(m, PUSH_CONSTANT, v, Push(v));
  }

  /** PUSH_CONSTANT_0 and PUSH_CONSTANT_1 push what their names say, PUSH_TOP what is on top. */
  lemma ShortPushes(m: State)
    ensures Ready(m, [PUSH_CONSTANT_0]) ==> Step(m) == Next(Behind(m, 1).(ops := m.ops + [0]))
    ensures Ready(m, [PUSH_CONSTANT_1]) ==> Step(m) == Next(Behind(m, 1).(ops := m.ops + [1]))
    ensures Ready(m, [PUSH_TOP]) && m.ops != [] ==> Step(m) == Next(Behind(m, 1).(ops := m.ops + [m.ops[|m.ops| - 1]]))
  {
    if Ready(m, [PUSH_CONSTANT_0]) {
      PlainStep(m, PUSH_CONSTANT_0, Push(0));
    }
    if Ready(m, [PUSH_CONSTANT_1]) {
      PlainStep(m, PUSH_CONSTANT_1, Push(1));
    }
    if Ready(m, [PUSH_TOP]) {
      PlainStep(m, PUSH_TOP, PushTop);
    }
  }

  /** A stack that grew by one entry loses it again with POP_OP. */
  lemma PopStep(m: State, ops: seq<int>, x: int)
    requires Ready(m, [POP_OP]) && m.ops == ops + [x]
    ensures Step(m) == Next(Behind(m, 1).(ops := ops))
  {
    PlainStep(m, POP_OP, Pop);
    assert Drop(m.ops, 1) == ops;
  }

  /** ENTER makes room filled with zeros. */
  lemma EnterStep(m: State, n: nat)
    requires Ready(m, With(ENTER, n))
    ensures Step(m) == Next(Behind(m, |With(ENTER, n)|).(ops := m.ops + seq(n, _ => 0)))
  {
    ArgStep(m, ENTER, n, Enter(n));
    assert Resize(m.ops, |m.ops| + n, 0) == m.ops + seq(n, _ => 0);
  }

  /** LEAVE takes off as many entries as it says; it fails for a negative number and for more than
      there are, and only then. */
  lemma LeaveStep(m: State, n: int)
    requires Ready(m, With(LEAVE, n))
    ensures Step(m) == if n < 0 || n > |m.ops| then Error
                       else Next(Behind(m, |With(LEAVE, n)|).(ops := m.ops[..|m.ops| - n]))
  {
    ArgStep(m, LEAVE, n, Leave(n));
  }

  /** CHECK_STACK_LENGTH lets pass exactly a stack with n entries from the frame on. */
  lemma CheckLengthExactly(m: State, n: nat)
    requires Ready(m, With(CHECK_STACK_LENGTH, n)) && m.fp + n < WORD
    ensures Step(m) == if |m.ops| == m.fp + n then Next(Behind(m, |With(CHECK_STACK_LENGTH, n)|)) else Error
  {
    ArgStep(m, CHECK_STACK_LENGTH, n, CheckLength(n));
    WrapSmall(m.fp + n);
  }

  lemma PushEffect(m: State, v: int)
    requires |m.calls| >= 1
    ensures Execute(m, Push(v)) == Next(m.(ops := m.ops + [v]))
  {
  }

  lemma PopEffect(m: State, ops: seq<int>, x: int)
    requires |m.calls| >= 1 && m.ops == ops + [x]
    ensures Execute(m, Pop) == Next(m.(ops := ops))
  {
    assert Drop(m.ops, 1) == ops;
  }

  lemma EnterEffect(m: State, n: nat)
    requires |m.calls| >= 1
    ensures Execute(m, Enter(n)) == Next(m.(ops := m.ops + seq(n, _ => 0)))
  {
    assert Resize(m.ops, |m.ops| + n, 0) == m.ops + seq(n, _ => 0);
  }

  lemma LeaveEffect(m: State, ops: seq<int>, more: seq<int>)
    requires |m.calls| >= 1 && m.ops == ops + more
    ensures Execute(m, Leave(|more|)) == Next(m.(ops := ops))
  {
    assert Resize(m.ops, |ops|, 0) == ops;
  }

  lemma StoreEffect(m: State, r: int, k: nat, ops: seq<int>, x: int)
    requires |m.calls| >= 1 && m.ops == ops + [x] && k == Wrap(m.fp + r) < |ops|
    ensures Execute(m, StoreRel(r)) == Next(m.(ops := ops[k := x]))
  {
    assert Drop(m.ops, 1) == ops;
  }

  lemma LoadEffect(m: State, r: int, k: nat)
    requires |m.calls| >= 1 && k == Wrap(m.fp + r) < |m.ops|
    ensures Execute(m, LoadRel(r)) == Next(m.(ops := m.ops + [m.ops[k]]))
  {
  }

  lemma StepGives(m: State, i: Instr, p: nat, m': State)
    requires Valid(m) && Fetches(m, i, p) && Execute(Behind(m, p), i) == Next(m')
    ensures Step(m) == Next(m')
  {
  }

  /** The machine fetches the same in a state that differs only in its stacks. */
  lemma FetchesAfter(m: State, m1: State, p: nat, j: Instr, q: nat)
    requires Valid(m) && Fetches(Behind(m, p), j, q)
    requires m1.blocks == m.blocks && m1.block == m.block && m1.ip == m.ip + p && m1.calls == m.calls && m1.fp == m.fp
    ensures Valid(m1) && Fetches(m1, j, q)
  {
  }

  /** POP_OP undoes PUSH_CONSTANT, and LEAVE undoes ENTER. */
  lemma PopUndoesPush(m: State, v: int)
    requires Ready(m, With(PUSH_CONSTANT, v) + [POP_OP])
    ensures StepsFrom(m, 2) == Next(Behind(m, |With(PUSH_CONSTANT, v)| + 1))
  {
    var push := With(PUSH_CONSTANT, v);
    ReadyBoth(m, push, [POP_OP]);
    ArgFetch(m, PUSH_CONSTANT, v);
    PlainFetch(Behind(m, |push|), POP_OP);
    PushPop(m, v, |push|);
  }

  lemma PushPop(m: State, v: int, p: nat)
    requires Valid(m) && Fetches(m, Push(v), p) && Fetches(Behind(m, p), Pop, 1)
    ensures StepsFrom(m, 2) == Next(Behind(m, p + 1))
  {
    var m1 := Behind(m, p).(ops := m.ops + [v]);
    PushEffect(Behind(m, p), v);
    PopEffect(Behind(m1, 1), m.ops, v);
    FetchesAfter(m, m1, p, Pop, 1);
    StepGives(m, Push(v), p, m1);
    StepGives(m1, Pop, 1, Behind(m, p + 1));
    InARow(m, m1, Behind(m, p + 1));
  }

  lemma LeaveUndoesEnter(m: State, n: nat)
    requires Ready(m, With(ENTER, n) + With(LEAVE, n))
    ensures StepsFrom(m, 2) == Next(Behind(m, |With(ENTER, n)| + |With(LEAVE, n)|))
  {
    var enter := With(ENTER, n);
    ReadyBoth(m, enter, With(LEAVE, n));
    ArgFetch(m, ENTER, n);
    ArgFetch(Behind(m, |enter|), LEAVE, n);
    EnterLeave(m, n, |enter|, |With(LEAVE, n)|);
  }

  lemma EnterLeave(m: State, n: nat, p: nat, q: nat)
    requires Valid(m) && Fetches(m, Enter(n), p) && Fetches(Behind(m, p), Leave(n), q)
    ensures StepsFrom(m, 2) == Next(Behind(m, p + q))
  {
    var zeros := seq(n, _ => 0);
    var m1 := Behind(m, p).(ops := m.ops + zeros);
    EnterEffect(Behind(m, p), n);
    LeaveEffect(Behind(m1, q), m.ops, zeros);
    FetchesAfter(m, m1, p, Leave(n), q);
    StepGives(m, Enter(n), p, m1);
    StepGives(m1, Leave(n), q, Behind(m, p + q));
    InARow(m, m1, Behind(m, p + q));
  }

  /** What STORE_FP_REL took off the stack is what LOAD_FP_REL of the same offset brings back, and no
      other entry changes. */
  lemma LoadAfterStore(m: State, r: int, k: nat, ops: seq<int>, x: int)
    requires Ready(m, With(STORE_FP_REL, r) + With(LOAD_FP_REL, r)) && m.ops == ops + [x] && k == Wrap(m.fp + r) < |ops|
    ensures StepsFrom(m, 2)
              == Next(Behind(m, |With(STORE_FP_REL, r)| + |With(LOAD_FP_REL, r)|).(ops := ops[k := x] + [x]))
  {
    var store := With(STORE_FP_REL, r);
    ReadyBoth(m, store, With(LOAD_FP_REL, r));
    ArgFetch(m, STORE_FP_REL, r);
    ArgFetch(Behind(m, |store|), LOAD_FP_REL, r);
    StoreLoad(m, r, k, ops, x, |store|, |With(LOAD_FP_REL, r)|);
  }

  lemma StoreLoad(m: State, r: int, k: nat, ops: seq<int>, x: int, p: nat, q: nat)
    requires Valid(m) && Fetches(m, StoreRel(r), p) && Fetches(Behind(m, p), LoadRel(r), q)
    requires m.ops == ops + [x] && k == Wrap(m.fp + r) < |ops|
    ensures StepsFrom(m, 2) == Next(Behind(m, p + q).(ops := ops[k := x] + [x]))
  {
    var m1 := Behind(m, p).(ops := ops[k := x]);
    StoreEffect(Behind(m, p), r, k, ops, x);
    LoadEffect(Behind(m1, q), r, k);
    FetchesAfter(m, m1, p, LoadRel(r), q);
    StepGives(m, StoreRel(r), p, m1);
    StepGives(m1, LoadRel(r), q, Behind(m, p + q).(ops := ops[k := x] + [x]));
    InARow(m, m1, Behind(m, p + q).(ops := ops[k := x] + [x]));
  }

  /** Storing back what was loaded changes nothing. */
  lemma StoreAfterLoad(m: State, r: int, k: nat)
    requires Ready(m, With(LOAD_FP_REL, r) + With(STORE_FP_REL, r)) && k == Wrap(m.fp + r) < |m.ops|
    ensures StepsFrom(m, 2) == Next(Behind(m, |With(LOAD_FP_REL, r)| + |With(STORE_FP_REL, r)|))
  {
    var load := With(LOAD_FP_REL, r);
    ReadyBoth(m, load, With(STORE_FP_REL, r));
    ArgFetch(m, LOAD_FP_REL, r);
    ArgFetch(Behind(m, |load|), STORE_FP_REL, r);
    LoadStore(m, r, k, |load|, |With(STORE_FP_REL, r)|);
  }

  lemma LoadStore(m: State, r: int, k: nat, p: nat, q: nat)
    requires Valid(m) && Fetches(m, LoadRel(r), p) && Fetches(Behind(m, p), StoreRel(r), q)
    requires k == Wrap(m.fp + r) < |m.ops|
    ensures StepsFrom(m, 2) == Next(Behind(m, p + q))
  {
    var m1 := Behind(m, p).(ops := m.ops + [m.ops[k]]);
    LoadEffect(Behind(m, p), r, k);
    StoreEffect(Behind(m1, q), r, k, m.ops, m.ops[k]);
    assert m.ops[k := m.ops[k]] == m.ops;
    FetchesAfter(m, m1, p, StoreRel(r), q);
    StepGives(m, LoadRel(r), p, m1);
    StepGives(m1, StoreRel(r), q, Behind(m, p + q));
    InARow(m, m1, Behind(m, p + q));
  }

  /** An offset outside the stack, or for a store outside what is left of it, is an error, and nothing
      else is. */
  lemma LoadFailsExactly(m: State, r: int)
    requires Ready(m, With(LOAD_FP_REL, r))
    ensures Step(m) == Error <==> Wrap(m.fp + r) >= |m.ops|
  {
    ArgStep(m, LOAD_FP_REL, r, LoadRel(r));
  }

  lemma StoreFailsExactly(m: State, r: int)
    requires Ready(m, With(STORE_FP_REL, r))
    ensures Step(m) == Error <==> Wrap(m.fp + r) + 1 >= |m.ops|
  {
    ArgStep(m, STORE_FP_REL, r, StoreRel(r));
  }

  // ----- References -----

  lemma CreateEffect(m: State, r: int, k: nat)
    requires |m.calls| >= 1 && k == Wrap(m.fp + r)
    ensures Execute(m, CreateIndirect(r)) == Next(m.(ops := m.ops + [|m.vars|], vars := m.vars + [Operand(k)]))
  {
  }

  lemma LoadThroughEffect(m: State, ops: seq<int>, ref: nat, k: nat)
    requires |m.calls| >= 1 && m.ops == ops + [ref] && ref < |m.vars| && m.vars[ref] == Operand(k) && k < |ops|
    ensures Execute(m, IndirectLoad) == Next(m.(ops := ops + [ops[k]]))
  {
    assert Drop(m.ops, 1) == ops;
  }

  lemma StoreThroughEffect(m: State, ops: seq<int>, x: int, ref: nat, k: nat)
    requires |m.calls| >= 1 && m.ops == (ops + [x]) + [ref] && ref < |m.vars| && m.vars[ref] == Operand(k) && k < |ops|
    ensures Execute(m, IndirectStore) == Next(m.(ops := ops[k := x]))
  {
    assert Drop(m.ops, 2) == ops;
  }

  /** Loading through a new reference to an operand is LOAD_FP_REL; only the reference is left over. */
  lemma ReferenceLoads(m: State, r: int, k: nat)
    requires Ready(m, With(CREATE_INDIRECT_VAR, r) + [INDIRECT_LOAD]) && k == Wrap(m.fp + r) < |m.ops|
    ensures StepsFrom(m, 2) == Next(Behind(m, |With(CREATE_INDIRECT_VAR, r)| + 1).
                                      (ops := m.ops + [m.ops[k]], vars := m.vars + [Operand(k)]))
  {
    var create := With(CREATE_INDIRECT_VAR, r);
    ReadyBoth(m, create, [INDIRECT_LOAD]);
    ArgFetch(m, CREATE_INDIRECT_VAR, r);
    PlainFetch(Behind(m, |create|), INDIRECT_LOAD);
    CreateLoad(m, r, k, |create|);
  }

  lemma CreateLoad(m: State, r: int, k: nat, p: nat)
    requires Valid(m) && Fetches(m, CreateIndirect(r), p) && Fetches(Behind(m, p), IndirectLoad, 1)
    requires k == Wrap(m.fp + r) < |m.ops|
    ensures StepsFrom(m, 2) == Next(Behind(m, p + 1).(ops := m.ops + [m.ops[k]], vars := m.vars + [Operand(k)]))
  {
    var m1 := Behind(m, p).(ops := m.ops + [|m.vars|], vars := m.vars + [Operand(k)]);
    CreateEffect(Behind(m, p), r, k);
    LoadThroughEffect(Behind(m1, 1), m.ops, |m.vars|, k);
    FetchesAfter(m, m1, p, IndirectLoad, 1);
    StepGives(m, CreateIndirect(r), p, m1);
    StepGives(m1, IndirectLoad, 1, Behind(m1, 1).(ops := m.ops + [m.ops[k]]));
    InARow(m, m1, Behind(m1, 1).(ops := m.ops + [m.ops[k]]));
  }

  /** Storing through a new reference to an operand is STORE_FP_REL. */
  lemma ReferenceStores(m: State, r: int, k: nat, ops: seq<int>, x: int)
    requires Ready(m, With(CREATE_INDIRECT_VAR, r) + [INDIRECT_STORE])
    requires m.ops == ops + [x] && k == Wrap(m.fp + r) < |ops|
    ensures StepsFrom(m, 2) == Next(Behind(m, |With(CREATE_INDIRECT_VAR, r)| + 1).
                                      (ops := ops[k := x], vars := m.vars + [Operand(k)]))
  {
    var create := With(CREATE_INDIRECT_VAR, r);
    ReadyBoth(m, create, [INDIRECT_STORE]);
    ArgFetch(m, CREATE_INDIRECT_VAR, r);
    PlainFetch(Behind(m, |create|), INDIRECT_STORE);
    CreateStore(m, r, k, ops, x, |create|);
  }

  lemma CreateStore(m: State, r: int, k: nat, ops: seq<int>, x: int, p: nat)
    requires Valid(m) && Fetches(m, CreateIndirect(r), p) && Fetches(Behind(m, p), IndirectStore, 1)
    requires m.ops == ops + [x] && k == Wrap(m.fp + r) < |ops|
    ensures StepsFrom(m, 2) == Next(Behind(m, p + 1).(ops := ops[k := x], vars := m.vars + [Operand(k)]))
  {
    var m1 := Behind(m, p).(ops := m.ops + [|m.vars|], vars := m.vars + [Operand(k)]);
    CreateEffect(Behind(m, p), r, k);
    StoreThroughEffect(Behind(m1, 1), ops, x, |m.vars|, k);
    FetchesAfter(m, m1, p, IndirectStore, 1);
    StepGives(m, CreateIndirect(r), p, m1);
    StepGives(m1, IndirectStore, 1, Behind(m1, 1).(ops := ops[k := x]));
    InARow(m, m1, Behind(m1, 1).(ops := ops[k := x]));
  }

  // ----- Jumps and calls -----

  /** A jump within the block lands as many bytes behind itself as it says, forwards or backwards. */
  lemma JumpLands(m: State, r: int)
    requires Ready(m, With(JUMP, r)) && 0 <= m.ip + |With(JUMP, r)| + r <= |m.Code()|
    ensures Step(m) == Next(m.(ip := m.ip + |With(JUMP, r)| + r))
  {
    ArgFetch(m, JUMP, r);
    JumpEffect(Behind(m, |With(JUMP, r)|), r, m.ip + |With(JUMP, r)| + r);
    StepGives(m, Jump(r), |With(JUMP, r)|, m.(ip := m.ip + |With(JUMP, r)| + r));
  }

  lemma JumpEffect(m: State, r: int, to: nat)
    requires Valid(m) && m.ip >= 0 && to == m.ip + r <= |m.Code()|
    ensures Execute(m, Jump(r)) == Next(m.(ip := to))
  {
    assert Address(m.block, m.ip) + r == Address(m.block, to);
    assert Address(m.block, to) < WORD;
    WrapSmall(Address(m.block, to));
    JumpToAddress(m, m.block, to);
  }

  /** On the same operand one of the two tests goes on and the other one skips: TEST_JUMP_IF_TRUE skips
      when BOOL_PROJECT would answer 1. */
  lemma TestsSkip(m: State, op: byte, r: int, ops: seq<int>, a: int)
    requires (op == TEST_JUMP_IF_FALSE || op == TEST_JUMP_IF_TRUE) && Ready(m, With(op, r)) && m.ops == ops + [a]
    ensures Turned(BOOL_PROJECT, a).Some?
    ensures var skips := Turned(BOOL_PROJECT, a) == Some(if op == TEST_JUMP_IF_TRUE then 1 else 0);
            Step(m) == Next(m.(ops := ops, ip := m.ip + |With(op, r)| + if skips then r else 0))
  {
    UnaryAnswer(BOOL_PROJECT, a);
    var size := |With(op, r)|;
    ArgFetch(m, op, r);
    TestEffect(Behind(m, size), op, r, ops, a);
    var skip := if (a != 0) == (op == TEST_JUMP_IF_TRUE) then r else 0;
    StepGives(m, InstrWithArg(op, r), size, m.(ops := ops, ip := m.ip + size + skip));
  }

  lemma TestEffect(m: State, op: byte, r: int, ops: seq<int>, a: int)
    requires (op == TEST_JUMP_IF_FALSE || op == TEST_JUMP_IF_TRUE) && |m.calls| >= 1 && m.ops == ops + [a]
    ensures Execute(m, InstrWithArg(op, r))
              == Next(m.(ops := ops, ip := m.ip + if (a != 0) == (op == TEST_JUMP_IF_TRUE) then r else 0))
  {
    assert Drop(m.ops, 1) == ops;
  }

  /** A callee that does nothing but return: CALL and RET lead behind the CALL, with the address and
      the arguments taken off the stack and everything else as it was. */
  lemma CallReturns(m: State, ops: seq<int>, args: seq<int>, block: nat, ofs: nat)
    requires Ready(m, With(CALL, |args|)) && m.ops == (ops + args) + [Address(block, ofs)] && |m.ops| < WORD
    requires block < |m.blocks| && ofs < |m.blocks[block]| && m.blocks[block][ofs] == RET
    ensures StepsFrom(m, 2) == Next(Behind(m, |With(CALL, |args|)|).(ops := ops))
  {
    ArgFetch(m, CALL, |args|);
    FetchMovesOn(m.Code(), m.ip);
    CallAndReturn(m, ops, args, block, ofs, |With(CALL, |args|)|);
  }

  lemma CallAndReturn(m: State, ops: seq<int>, args: seq<int>, block: nat, ofs: nat, size: nat)
    requires Valid(m) && Fetches(m, Call(|args|), size) && m.ip + size <= |m.Code()|
    requires m.ops == (ops + args) + [Address(block, ofs)] && |m.ops| < WORD
    requires block < |m.blocks| && ofs < |m.blocks[block]| && m.blocks[block][ofs] == RET
    ensures StepsFrom(m, 2) == Next(Behind(m, size).(ops := ops))
  {
    var frame := Frame(|ops|, |m.vars|, Address(m.block, m.ip + size));
    var m1 := m.(block := block, ip := ofs, ops := ops + args, calls := m.calls + [frame], fp := |ops|);
    var caller := Behind(m, size).(ops := ops);
    CallStep(m, ops, args, block, ofs, size, m1);
    BehindValid(m, size, ops);
    ReturnStep(m1, caller, args, frame);
    InARow(m, m1, caller);
  }

  lemma BehindValid(m: State, size: nat, ops: seq<int>)
    requires Valid(m) && m.ip >= 0 && m.ip + size <= |m.Code()|
    ensures var m' := Behind(m, size).(ops := ops); Valid(m') && 0 <= m'.ip <= |m'.Code()|
  {
  }

  lemma CallStep(m: State, ops: seq<int>, args: seq<int>, block: nat, ofs: nat, size: nat, m1: State)
    requires Valid(m) && Fetches(m, Call(|args|), size) && m.ip + size <= |m.Code()|
    requires m.ops == (ops + args) + [Address(block, ofs)] && |m.ops| < WORD
    requires block < |m.blocks| && ofs < |m.blocks[block]|
    requires m1 == m.(block := block, ip := ofs, ops := ops + args, fp := |ops|,
                      calls := m.calls + [Frame(|ops|, |m.vars|, Address(m.block, m.ip + size))])
    ensures Step(m) == Next(m1) && Valid(m1)
  {
    CallEffect(Behind(m, size), ops, args, block, ofs, Frame(|ops|, |m.vars|, Address(m.block, m.ip + size)), m1);
    StepGives(m, Call(|args|), size, m1);
  }

  lemma ReturnStep(m: State, caller: State, args: seq<int>, frame: Frame)
    requires Valid(m) && 0 <= m.ip < |m.Code()| && m.Code()[m.ip] == RET
    requires Valid(caller) && 0 <= caller.ip <= |caller.Code()|
    requires frame == Frame(|caller.ops|, |caller.vars|, Address(caller.block, caller.ip))
    requires m.blocks == caller.blocks && m.ops == caller.ops + args && m.vars == caller.vars
    requires m.preamble == caller.preamble
    requires m.calls == caller.calls + [frame] && m.out == caller.out
    ensures Step(m) == Next(caller)
  {
    assert Fetches(m, Ret, 1);
    RetEffect(Behind(m, 1), caller, args, frame);
    StepGives(m, Ret, 1, caller);
  }

  lemma CallEffect(m: State, ops: seq<int>, args: seq<int>, block: nat, ofs: nat, frame: Frame, m1: State)
    requires Valid(m) && m.ip >= 0 && m.ops == (ops + args) + [Address(block, ofs)] && |m.ops| < WORD
    requires block < |m.blocks| && ofs < |m.blocks[block]| && frame == Frame(|ops|, |m.vars|, Address(m.block, m.ip))
    requires m1 == m.(block := block, ip := ofs, ops := ops + args, calls := m.calls + [frame], fp := |ops|)
    ensures Execute(m, Call(|args|)) == Next(m1) && Valid(m1)
  {
    assert Drop(m.ops, 1) == ops + args;
    assert Address(block, ofs) < WORD;
    WrapSmall(Address(block, ofs));
    WrapSmall(|ops|);
    JumpToAddress(m.(ops := ops + args, calls := m.calls + [frame], fp := |ops|), block, ofs);
  }

  lemma RetEffect(m: State, caller: State, args: seq<int>, frame: Frame)
    requires Valid(caller) && 0 <= caller.ip <= |caller.Code()|
    requires frame == Frame(|caller.ops|, |caller.vars|, Address(caller.block, caller.ip))
    requires m.blocks == caller.blocks && m.ops == caller.ops + args && m.vars == caller.vars
    requires m.preamble == caller.preamble
    requires m.calls == caller.calls + [frame] && m.out == caller.out
    ensures Execute(m, Ret) == Next(caller)
  {
    assert m.calls[..|m.calls| - 1] == caller.calls;
    assert Resize(m.ops, frame.fp, 0) == caller.ops && Resize(m.vars, frame.vp, Operand(0)) == caller.vars;
    JumpToAddress(m.(vars := caller.vars, ops := caller.ops, calls := caller.calls, fp := caller.fp),
                  caller.block, caller.ip);
  }

  // ----- Variables of the world -----

  /** LOAD_STRING keeps the bytes that follow its length. */
  lemma LoadStringStep(m: State, text: seq<byte>)
    requires Ready(m, With(LOAD_STRING, |text|) + text)
    ensures Step(m) == Next(Behind(m, |With(LOAD_STRING, |text|)| + |text|).(out := m.out.(text := text)))
  {
    var at, size := m.ip + 1, |Encode(|text|)|;
    SplitStanding(m.Code(), m.ip, With(LOAD_STRING, |text|), text);
    SplitStanding(m.Code(), m.ip, [LOAD_STRING], Encode(|text|));
    assert m.Code()[m.ip + 0] == [LOAD_STRING][0];
    RoundTrip(m.Code(), at, |text|);
    assert m.Code()[at + size..at + size + |text|] == text;
    FetchesStep(m, LoadString(text), 1 + size + |text|);
  }

  /** CREATE_VAR asks the world for a variable with the name loaded before, in the home block, a bool
      for a negative number of states; a variable the world agrees to is known under its number, and
      the name is used up. */
  lemma CreateVarAsks(m: State, guid: nat, states: int)
    requires Ready(m, With(CREATE_VAR, guid) + Encode(states)) && guid < WORD
    requires m.out.world != [] && m.out.world[0].Some?
    ensures var size := |With(CREATE_VAR, guid)| + |Encode(states)|;
            var asked := Request(m.out.text, m.out.home, if states < 0 then None else Some(states));
            Step(m) == Next(Behind(m, size).
                              (out := m.out.(text := [], known := m.out.known[guid := Foreign],
                                             world := m.out.world[1..], requests := m.out.requests + [asked])))
  {
    var at := m.ip + 1;
    SplitStanding(m.Code(), m.ip, With(CREATE_VAR, guid), Encode(states));
    SplitStanding(m.Code(), m.ip, [CREATE_VAR], Encode(guid));
    assert m.Code()[m.ip + 0] == [CREATE_VAR][0];
    RoundTrip(m.Code(), at, guid);
    RoundTrip(m.Code(), at + |Encode(guid)|, states);
    FetchesStep(m, CreateVar(guid, states), |With(CREATE_VAR, guid)| + |Encode(states)|);
    WrapSmall(guid);
  }

  /** IMPORT_VAR makes a reference to the variable of that number, with its argument, exactly when it
      is known. */
  lemma ImportExactly(m: State, ops: seq<int>, guid: nat, arg: nat)
    requires Ready(m, [IMPORT_VAR]) && m.ops == ops + [guid, arg] && guid < WORD && arg < WORD
    ensures Step(m) == if guid !in m.out.known then Error
                       else Next(Behind(m, 1).(ops := ops + [|m.vars|], vars := m.vars + [External(guid, arg)]))
  {
    PlainStep(m, IMPORT_VAR, ImportVar);
    WrapSmall(guid);
    WrapSmall(arg);
    assert Drop(m.ops, 2) == ops;
  }

  /** CREATE_STATIC_VAR makes a reference to the static variable of that number, says whether it is new,
      and leaves any variable that exists alone. */
  lemma CreateStaticOnce(m: State, guid: nat)
    requires Ready(m, With(CREATE_STATIC_VAR, guid)) && guid < WORD
    ensures Step(m).Next?
    ensures var m' := Step(m).m;
            && m'.vars == m.vars + [External(guid, 0)] && m'.ip == m.ip + |With(CREATE_STATIC_VAR, guid)|
            && m'.ops == m.ops + [|m.vars|, if guid in m.out.known then 0 else 1]
            && (forall g | g in m.out.known :: g in m'.out.known && m'.out.known[g] == m.out.known[g])
            && (guid !in m.out.known ==> m'.out.known == m.out.known[guid := Static(0)])
  {
    ArgStep(m, CREATE_STATIC_VAR, guid, CreateStatic(guid));
    WrapSmall(guid);
  }

  /** A variable of the world is asked once for each access: a load pushes what it answers, a store takes
      reference and value off the stack, and a refusal is an error. */
  lemma ForeignLoad(m: State, ops: seq<int>, ref: nat, guid: nat, arg: nat, answer: Option<int>, rest: seq<Option<int>>)
    requires Ready(m, [INDIRECT_LOAD]) && m.ops == ops + [ref] && ref < |m.vars| && m.vars[ref] == External(guid, arg)
    requires !IsStatic(m, guid) && m.out.world == [answer] + rest
    ensures Step(m) == match answer
                       case None => Error
                       case Some(v) => Next(Behind(m, 1).(ops := ops + [v], out := m.out.(world := rest)))
  {
    PlainStep(m, INDIRECT_LOAD, IndirectLoad);
    assert Drop(m.ops, 1) == ops && m.out.world[1..] == rest;
  }

  lemma ForeignStore(m: State, ops: seq<int>, x: int, ref: nat, guid: nat, arg: nat,
                     answer: Option<int>, rest: seq<Option<int>>)
    requires Ready(m, [INDIRECT_STORE]) && m.ops == ops + [x, ref]
    requires ref < |m.vars| && m.vars[ref] == External(guid, arg)
    requires !IsStatic(m, guid) && m.out.world == [answer] + rest
    ensures Step(m) == if answer == None then Error else Next(Behind(m, 1).(ops := ops, out := m.out.(world := rest)))
  {
    PlainStep(m, INDIRECT_STORE, IndirectStore);
    assert Drop(m.ops, 2) == ops && m.out.world[1..] == rest;
  }

  // ----- The rest -----

  /** Printing a number takes it off the stack. */
  lemma PrintStep(m: State, ops: seq<int>, x: int)
    requires Ready(m, [PRINT_NUM]) && m.ops == ops + [x]
    ensures Step(m) == Next(Behind(m, 1).(ops := ops))
  {
    PlainStep(m, PRINT_NUM, PrintNum);
    assert Drop(m.ops, 1) == ops;
  }

  /** Printing the string and NOP change nothing. */
  lemma QuietStep(m: State, op: byte)
    requires (op == PRINT_STR || op == NOP) && Ready(m, [op])
    ensures Step(m) == Next(Behind(m, 1))
  {
    PlainStep(m, op, if op == NOP then Nop else PrintStr);
  }

  /** TERMINATE ends the run. */
  lemma TerminateStep(m: State)
    requires Ready(m, [TERMINATE])
    ensures Step(m) == Done
  {
    PlainStep(m, TERMINATE, Terminate);
  }

  /** The opcodes without an instruction are errors. */
  lemma UnknownOpcode(m: State, op: byte)
    requires Ready(m, [op]) && (13 <= op <= 15 || op == 34 || 45 <= op <= 254)
    ensures Step(m) == Error
  {
    assert m.Code()[m.ip + 0] == [op][0];
  }
}
