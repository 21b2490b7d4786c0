/** The machine as it runs: an object whose fields each instruction updates in place. */
module VmMachine {
  import opened Wrappers
  import opened Varint
  import opened Vm

  /** What the loop of execute() does after an instruction. */
  datatype Status = Running | Ended | Failed

  /** The machine's status and state agree with an outcome of the specification; after an end or
      an error the state no longer matters. */
  ghost predicate Agrees(status: Status, m: State, outcome: Outcome) {
    match outcome
    case Next(m') => status == Running && m == m'
    case Done => status == Ended
    case Error => status == Failed
  }

  /** The machine has reached the goal, or is `left` turns away from it. */
  ghost predicate OnTheWay(goal: Outcome, status: Status, m: State, left: nat) {
    && (status == Running ==> Valid(m) && StepsFrom(m, left) == goal)
    && (status != Running ==> Agrees(status, m, goal))
  }

  lemma AfterOne(goal: Outcome, m: State, left: nat, status: Status, m': State)
    requires left > 0 && OnTheWay(goal, Running, m, left) && Agrees(status, m', Step(m))
    ensures OnTheWay(goal, status, m', left - 1)
  {
    if status == Running {
      StepKeepsValid(m);
    }
  }

  /** What the conditional skips do, by the operand they take. */
  lemma TestEffects(m: State, rel: int)
    ensures m.ops == [] ==> Effect(m, TestFalse(rel)) == Effect(m, TestTrue(rel)) == Error
    ensures forall ops: seq<int>, arg: int | m.ops == ops + [arg] ::
              && Effect(m, TestFalse(rel)) == Next(m.(ops := ops, ip := if arg == 0 then m.ip + rel else m.ip))
              && Effect(m, TestTrue(rel)) == Next(m.(ops := ops, ip := if arg != 0 then m.ip + rel else m.ip))
  {
    forall ops: seq<int>, arg: int | m.ops == ops + [arg] ensures Drop(m.ops, 1) == ops && Top(m.ops) == arg {
    }
  }

  predicate IsStackInstr(i: Instr) {
    i.Push? || i.PushTop? || i.Pop? || i.Enter? || i.Leave? || i.CheckLength? || i.StoreRel? || i.LoadRel?
  }

  class Machine {
    var blocks: seq<seq<byte>>
    var block: nat
    var ip: int
    var ops: seq<int>
    var vars: seq<Ref>
    var calls: seq<Frame>
    var fp: nat
    var preamble: bool
    var text: seq<byte>
    var home: nat
    var known: map<nat, Variable>
    var world: seq<Option<int>>
    ghost var requests: seq<Request>

    ghost function Now(): State
      reads this
    {
      State(blocks, block, ip, ops, vars, calls, fp, preamble, Outside(home, text, known, world, requests))
    }

    /** The state after the machine has been cleared and pointed at the start of a block. */
    constructor (blocks: seq<seq<byte>>, block: nat, preamble: bool, known: map<nat, Variable>, world: seq<Option<int>>)
      ensures Now() == Cleared(blocks, block, preamble, known, world)
    {
      this.blocks, this.block, this.home, this.preamble := blocks, block, block, preamble;
      this.known, this.world, requests := known, world, [];
      ip, ops, vars, calls, fp, text := 0, [], [], [Frame(0, 0, 0)], 0, [];
    }

    method JumpIp(target: nat) returns (ok: bool)
      modifies this`block, this`ip
      ensures Now() == JumpTo(old(Now()), target)
      ensures ok == (target / SHIFT < |blocks| && target % SHIFT <= |blocks[target / SHIFT]|)
    {
      var b := target / SHIFT;
      if b >= |blocks| {
        return false;
      }
      var ofs := target % SHIFT;
      if ofs > |blocks[b]| {
        return false;
      }
      block, ip := b, ofs;
      return true;
    }

    method PopOperand() returns (ok: bool, value: int)
      modifies this`ops
      ensures ok == (old(ops) != [])
      ensures ok ==> old(ops) == ops + [value]
      ensures !ok ==> ops == old(ops)
    {
      if ops == [] {
        return false, 0;
      }
      ok, value := true, ops[|ops| - 1];
      ops := ops[..|ops| - 1];
    }

    /** The two topmost operands, the second one first. */
    method PopTwo() returns (ok: bool, lower: int, upper: int)
      modifies this`ops
      ensures ok == (|old(ops)| >= 2)
      ensures ok ==> old(ops) == ops + [lower, upper] && ops == Drop(old(ops), 2)
      ensures ok ==> upper == Top(old(ops)) && lower == old(ops)[|old(ops)| - 2]
    {
      ok, upper := PopOperand();
      if !ok {
        lower := 0;
        return;
      }
      ok, lower := PopOperand();
    }

    method ExecuteCall(args: int) returns (status: Status)
      requires Valid(Now())
      modifies this
      ensures Agrees(status, Now(), EnterFrame(old(Now()), args))
    {
      if |calls| < 1 || fp != calls[|calls| - 1].fp {
        return Failed;
      }
      var ok, target := PopOperand();
      if !ok || ip < 0 {
        return Failed;
      }
      assert Drop(old(ops), 1) == ops;
      calls := calls + [Frame(Wrap(|ops| - args), |vars|, Address(block, ip))];
      fp := calls[|calls| - 1].fp;
      var _ := JumpIp(Wrap(target));
      status := Running;
    }

    method ExecuteRet() returns (status: Status)
      requires Valid(Now())
      modifies this
      ensures Agrees(status, Now(), LeaveFrame(old(Now())))
    {
      if |calls| <= 1 {
        return Failed;
      }
      var frame := calls[|calls| - 1];
      vars := Resize(vars, frame.vp, Operand(0));
      ops := Resize(ops, frame.fp, 0);
      var _ := JumpIp(frame.ret);
      calls := calls[..|calls| - 1];
      fp := calls[|calls| - 1].fp;
      status := Running;
    }

    method ExecuteStackInstr(i: Instr) returns (status: Status)
      requires IsStackInstr(i)
      modifies this`ops
      ensures Agrees(status, Now(), Effect(old(Now()), i))
    {
      status := Running;
      match i
      case Push(v) => ops := ops + [v];
      case PushTop =>
        if |ops| < 1 { return Failed; }
        ops := ops + [ops[|ops| - 1]];
      case Pop =>
        if |ops| < 1 { return Failed; }
        ops := ops[..|ops| - 1];
      case Enter(r) =>
        if |ops| + r < 0 { return Failed; }
        ops := Resize(ops, |ops| + r, 0);
      case Leave(r) =>
        if r < 0 || r > |ops| { return Failed; }
        ops := Resize(ops, |ops| - r, 0);
      case CheckLength(r) =>
        if |ops| != Wrap(fp + r) { return Failed; }
      case StoreRel(r) =>
        var ok, val := PopOperand();
        if !ok { return Failed; }
        assert Drop(old(ops), 1) == ops;
        var ofs := Wrap(fp + r);
        if ofs >= |ops| { return Failed; }
        ops := ops[ofs := val];
      case LoadRel(r) =>
        var ofs := Wrap(fp + r);
        if ofs >= |ops| { return Failed; }
        ops := ops + [ops[ofs]];
    }

    /** Asks the outside world for a value, or for having something done. */
    method AskWorld() returns (ok: bool, value: int)
      modifies this`world
      ensures ok == !Refused(old(world))
      ensures ok ==> value == old(world)[0].value && world == old(world)[1..]
    {
      if world == [] || world[0].None? {
        return false, 0;
      }
      ok, value := true, world[0].value;
      world := world[1..];
    }

    /** Pushes the value of a variable. */
    method ReadVariable(ref: Ref) returns (status: Status)
      modifies this`ops, this`world
      ensures Agrees(status, Now(), LoadFrom(old(Now()), ref))
    {
      var value := 0;
      match ref {
      case Operand(k) =>
        if k >= |ops| {
          return Failed;
        }
        value := ops[k];
      case External(guid, _) =>
        if guid in known && known[guid].Static? {
          value := known[guid].value;
        } else {
          var ok, answer := AskWorld();
          if !ok {
            return Failed;
          }
          value := answer;
        }
      }
      ops := ops + [value];
      status := Running;
    }

    method WriteVariable(ref: Ref, value: int) returns (status: Status)
      modifies this`ops, this`known, this`world
      ensures Agrees(status, Now(), StoreTo(old(Now()), ref, value))
    {
      match ref {
      case Operand(k) =>
        if k >= |ops| {
          return Failed;
        }
        ops := ops[k := value];
      case External(guid, _) =>
        if guid in known && known[guid].Static? {
          known := known[guid := Static(value)];
        } else {
          var ok, _ := AskWorld();
          if !ok {
            return Failed;
          }
        }
      }
      status := Running;
    }

    method ExecuteIndirectLoad() returns (status: Status)
      modifies this`ops, this`world
      ensures Agrees(status, Now(), Effect(old(Now()), IndirectLoad))
    {
      var ok, index := PopOperand();
      if !ok || index < 0 || index >= |vars| {
        return Failed;
      }
      assert ops == Drop(old(ops), 1);
      status := ReadVariable(vars[index]);
    }

    method ExecuteIndirectStore() returns (status: Status)
      modifies this`ops, this`known, this`world
      ensures Agrees(status, Now(), Effect(old(Now()), IndirectStore))
    {
      var ok, value, index := PopTwo();
      if !ok || index < 0 || index >= |vars| {
        return Failed;
      }
      status := WriteVariable(vars[index], value);
    }

    method ExecuteCreateIndirect(ofs: int) returns (status: Status)
      modifies this`ops, this`vars
      ensures Agrees(status, Now(), Effect(old(Now()), CreateIndirect(ofs)))
    {
      vars := vars + [Operand(Wrap(fp + ofs))];
      ops := ops + [|vars| - 1];
      status := Running;
    }

    method ExecuteCreateVar(guid: int, states: int) returns (status: Status)
      modifies this`text, this`known, this`world, this`requests
      ensures Agrees(status, Now(), Effect(old(Now()), CreateVar(guid, states)))
    {
      requests := requests + [Request(text, home, if states >= 0 then Some(states) else None)];
      text := [];
      var ok, _ := AskWorld();
      if !ok {
        return Failed;
      }
      known := known[Wrap(guid) := Foreign];
      status := Running;
    }

    method ExecuteCreateStatic(guid: int) returns (status: Status)
      modifies this`ops, this`vars, this`known
      ensures Agrees(status, Now(), Effect(old(Now()), CreateStatic(guid)))
    {
      var created := false;
      if Wrap(guid) !in known {
        created := true;
        known := known[Wrap(guid) := Static(0)];
      }
      vars := vars + [External(Wrap(guid), 0)];
      ops := ops + [|vars| - 1];
      ops := ops + [if created then 1 else 0];
      assert ops == old(ops) + [|old(vars)|, Bool(created)];
      status := Running;
    }

    method ExecuteImportVar() returns (status: Status)
      modifies this`ops, this`vars
      ensures Agrees(status, Now(), Effect(old(Now()), ImportVar))
    {
      var ok, guid, arg := PopTwo();
      if !ok || Wrap(guid) !in known {
        return Failed;
      }
      vars := vars + [External(Wrap(guid), Wrap(arg))];
      ops := ops + [|vars| - 1];
      status := Running;
    }

    method ExecuteBinary(op: BinaryOp) returns (status: Status)
      modifies this`ops
      ensures Agrees(status, Now(), Effect(old(Now()), Binary(op)))
    {
      var ok, lhs, rhs := PopTwo();
      if !ok {
        return Failed;
      }
      var result := Compute(op, lhs, rhs);
      if result == None {
        return Failed;
      }
      ops := ops + [result.value];
      status := Running;
    }

    method ExecuteTruth(negated: bool) returns (status: Status)
      modifies this`ops
      ensures Agrees(status, Now(), Effect(old(Now()), if negated then Not else Project))
    {
      var ok, rhs := PopOperand();
      if !ok {
        return Failed;
      }
      assert Drop(old(ops), 1) == ops;
      if (rhs == 0) == negated {
        ops := ops + [1];
      } else {
        ops := ops + [0];
      }
      status := Running;
    }

    method ExecutePrintNum() returns (status: Status)
      modifies this`ops
      ensures Agrees(status, Now(), Effect(old(Now()), PrintNum))
    {
      var ok, _ := PopOperand();
      if !ok {
        return Failed;
      }
      assert Drop(old(ops), 1) == ops;
      status := Running;
    }

    method ExecuteJump(rel: int) returns (status: Status)
      modifies this`ip, this`block
      ensures Agrees(status, Now(), Effect(old(Now()), Jump(rel)))
    {
      if ip < 0 {
        return Failed;
      }
      var _ := JumpIp(Wrap(Address(block, ip) + rel));
      status := Running;
    }

    method ExecuteTestFalse(rel: int) returns (status: Status)
      modifies this`ops, this`ip
      ensures Agrees(status, Now(), Effect(old(Now()), TestFalse(rel)))
    {
      ghost var m := Now();
      TestEffects(m, rel);
      var ok, arg := PopOperand();
      if !ok {
        return Failed;
      }
      if arg == 0 {
        ip := ip + rel;
      }
      status := Running;
    }

    method ExecuteTestTrue(rel: int) returns (status: Status)
      modifies this`ops, this`ip
      ensures Agrees(status, Now(), Effect(old(Now()), TestTrue(rel)))
    {
      ghost var m := Now();
      TestEffects(m, rel);
      var ok, arg := PopOperand();
      if !ok {
        return Failed;
      }
      if arg != 0 {
        ip := ip + rel;
      }
      status := Running;
    }

    /** One turn of the loop of execute(): end of the block, or one instruction. */
    method ExecuteOne() returns (status: Status)
      requires Valid(Now())
      modifies this
      ensures Agrees(status, Now(), Step(old(Now())))
    {
      if ip >= |blocks[block]| {
        return Ended;
      }
      if ip < 0 {
        return Failed;
      }
      var fetched := Fetch(blocks[block], ip);
      if !fetched.Got? {
        return Failed;
      }
      ip := fetched.next;
      var i := fetched.instr;
      if i.Call? {
        status := ExecuteCall(i.args);
      } else if i.Ret? {
        status := ExecuteRet();
      } else if i.Jump? {
        status := ExecuteJump(i.rel);
      } else if IsStackInstr(i) {
        status := ExecuteStackInstr(i);
      } else if i.IndirectLoad? {
        status := ExecuteIndirectLoad();
      } else if i.IndirectStore? {
        status := ExecuteIndirectStore();
      } else if i.CreateIndirect? {
        status := ExecuteCreateIndirect(i.ofs);
      } else if i.CreateVar? {
        status := ExecuteCreateVar(i.guid, i.states);
      } else if i.CreateStatic? {
        status := ExecuteCreateStatic(i.guid);
      } else if i.ImportVar? {
        status := ExecuteImportVar();
      } else if i.LoadString? {
        text := i.text;
        status := Running;
      } else if i.PrintStr? {
        status := Running;
      } else if i.Binary? {
        status := ExecuteBinary(i.op);
      } else if i.Not? || i.Project? {
        status := ExecuteTruth(i.Not?);
      } else if i.IfPreamble? {
        ops := ops + [if preamble then 1 else 0];
        status := Running;
      } else if i.PrintNum? {
        status := ExecutePrintNum();
      } else if i.Nop? {
        status := Running;
      } else if i.TestFalse? {
        status := ExecuteTestFalse(i.rel);
      } else if i.TestTrue? {
        status := ExecuteTestTrue(i.rel);
      } else {
        status := Ended;
      }
    }

    /** The loop, for at most `limit` turns. */
    method Execute(limit: nat) returns (status: Status)
      requires Valid(Now())
      modifies this
      ensures Agrees(status, Now(), StepsFrom(old(Now()), limit))
    {
      ghost var goal, m := StepsFrom(Now(), limit), Now();
      var left: nat := limit;
      status := Running;
      while left > 0 && status == Running
        invariant m == Now() && OnTheWay(goal, status, m, left)
      {
        status := ExecuteOne();
        AfterOne(goal, m, left, status, Now());
        m := Now();
        left := left - 1;
      }
    }
  }
}
