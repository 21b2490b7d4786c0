/** How a compiled program is laid out: a preamble guarded by a computed jump, then the body. */
module ProgramLayout {
  import opened Wrappers
  import opened Varint
  import opened Vm
  import opened Opcodes

  /** What a command emits: its preamble, and its body when that starts at the given offset. */
  datatype Command = Command(preamble: seq<byte>, body: nat -> seq<byte>)

  function Preambles(commands: seq<Command>): seq<byte> {
    if commands == [] then []
    else Preambles(commands[..|commands| - 1]) + commands[|commands| - 1].preamble
  }

  /** The output after the bodies of all the commands. */
  function Bodies(output: seq<byte>, commands: seq<Command>): seq<byte> {
    if commands == [] then output
    else
      var before := Bodies(output, commands[..|commands| - 1]);
      before + commands[|commands| - 1].body(|before|)
  }

  lemma {:induction false} BodiesAppend(output: seq<byte>, commands: seq<Command>)
    ensures output <= Bodies(output, commands)
  {
    if commands != [] {
      BodiesAppend(output, commands[..|commands| - 1]);
    }
  }

  function Guard(size: nat): seq<byte> { [IF_PREAMBLE, TEST_JUMP_IF_FALSE] + Encode(size) }

  method Serialize(output: seq<byte>, commands: seq<Command>) returns (result: seq<byte>)
    ensures var preamble := Preambles(commands) + [TERMINATE];
            result == Bodies(output + Guard(|preamble|) + preamble, commands)
  {
    var text: seq<byte> := [];
    for i := 0 to |commands|
      invariant text == Preambles(commands[..i])
    {
      assert commands[..i + 1][..i] == commands[..i];
      text := text + commands[i].preamble;
    }
    assert commands[..|commands|] == commands;
    text := text + [TERMINATE];
    result := output + [IF_PREAMBLE];
    result := result + [TEST_JUMP_IF_FALSE];
    result := AppendVarint(result, |text|);
    result := result + text;
    ghost var head := result;
    assert head == output + Guard(|text|) + text;
    for i := 0 to |commands|
      invariant result == Bodies(head, commands[..i])
    {
      assert commands[..i + 1][..i] == commands[..i];
      result := result + commands[i].body(|result|);
    }
    assert commands[..|commands|] == commands;
  }

  /** Where the preamble starts and ends when the program is put behind `at` bytes. */
  function PreambleStart(at: nat, commands: seq<Command>): nat {
    at + |Guard(|Preambles(commands)| + 1)|
  }

  function PreambleEnd(at: nat, commands: seq<Command>): nat {
    PreambleStart(at, commands) + |Preambles(commands)| + 1
  }

  /** The sum of the lengths of the first k preambles. */
  function PreamblesLength(commands: seq<Command>, k: nat): nat
    requires k <= |commands|
  {
    if k == 0 then 0 else PreamblesLength(commands, k - 1) + |commands[k - 1].preamble|
  }

  /** Where the body of command k starts when the first one starts at `at`. */
  function BodyStart(at: nat, commands: seq<Command>, k: nat): nat
    requires k <= |commands|
  {
    if k == 0 then at
    else
      var before := BodyStart(at, commands, k - 1);
      before + |commands[k - 1].body(before)|
  }

  lemma {:induction false} PreamblesInOrder(commands: seq<Command>, k: nat)
    requires k < |commands|
    ensures var at, all := PreamblesLength(commands, k), Preambles(commands);
            at + |commands[k].preamble| <= |all| && all[at..at + |commands[k].preamble|] == commands[k].preamble
    ensures |Preambles(commands)| == PreamblesLength(commands, |commands|)
    decreases |commands|
  {
    var last := |commands| - 1;
    var init := commands[..last];
    PreamblesLengthInit(commands, last, last);
    if last > 0 {
      PreamblesInOrder(init, if k < last then k else 0);
    }
    if k < last {
      PreamblesLengthInit(commands, last, k);
      assert init[k] == commands[k];
    }
  }

  lemma {:induction false} PreamblesLengthInit(commands: seq<Command>, n: nat, k: nat)
    requires k <= n <= |commands|
    ensures PreamblesLength(commands[..n], k) == PreamblesLength(commands, k)
    decreases k
  {
    if k > 0 {
      PreamblesLengthInit(commands, n, k - 1);
    }
  }

  lemma {:induction false} BodyStartInit(at: nat, commands: seq<Command>, n: nat, k: nat)
    requires k <= n <= |commands|
    ensures BodyStart(at, commands[..n], k) == BodyStart(at, commands, k)
    decreases k
  {
    if k > 0 {
      BodyStartInit(at, commands, n, k - 1);
    }
  }

  lemma {:induction false} BodiesInOrder(output: seq<byte>, commands: seq<Command>, k: nat)
    requires k < |commands|
    ensures var at, all := BodyStart(|output|, commands, k), Bodies(output, commands);
            at + |commands[k].body(at)| <= |all| && all[at..at + |commands[k].body(at)|] == commands[k].body(at)
    ensures |Bodies(output, commands)| == BodyStart(|output|, commands, |commands|)
    decreases |commands|
  {
    var last := |commands| - 1;
    var init := commands[..last];
    BodyStartInit(|output|, commands, last, last);
    if last > 0 {
      BodiesInOrder(output, init, if k < last then k else 0);
    }
    if k < last {
      BodyStartInit(|output|, commands, last, k);
      assert init[k] == commands[k];
    }
  }

  /** The machine is about to run the program that `commands` left behind `output`. */
  ghost predicate AtProgram(m: State, output: seq<byte>, commands: seq<Command>) {
    var preamble := Preambles(commands) + [TERMINATE];
    Valid(m) && m.ip == |output|
    && m.Code() == Bodies(output + Guard(|preamble|) + preamble, commands)
  }

  lemma PartOfPrefix(code: seq<byte>, head: seq<byte>, at: nat, part: seq<byte>)
    requires head <= code && at + |part| <= |head| && head[at..at + |part|] == part
    ensures StandsAt(code, at, part) && code[at..at + |part|] == part
  {
    assert code[at..at + |part|] == head[at..at + |part|];
    forall i | 0 <= i < |part| ensures code[at + i] == part[i] {
      assert head[at..at + |part|][i] == head[at + i];
    }
  }

  lemma Layout(m: State, output: seq<byte>, commands: seq<Command>)
    requires AtProgram(m, output, commands)
    ensures var at, start, end := |output|, PreambleStart(|output|, commands), PreambleEnd(|output|, commands);
            && |output| + 2 < start < end <= |m.Code()|
            && m.Code()[at] == IF_PREAMBLE && m.Code()[at + 1] == TEST_JUMP_IF_FALSE
            && StandsAt(m.Code(), at + 2, Encode(end - start)) && start == at + 2 + |Encode(end - start)|
            && m.Code()[start..end] == Preambles(commands) + [TERMINATE]
            && m.Code()[end - 1] == TERMINATE
  {
    var preamble := Preambles(commands) + [TERMINATE];
    BodiesAppend(output + Guard(|preamble|) + preamble, commands);
    LayoutOf(m.Code(), output, Encode(|preamble|), preamble, output + Guard(|preamble|) + preamble);
  }

  /** The preambles of the commands stand behind the guard one after the other. */
  lemma PreamblesStand(m: State, output: seq<byte>, commands: seq<Command>, k: nat)
    requires AtProgram(m, output, commands) && k < |commands|
    ensures var p, size := PreambleStart(|output|, commands) + PreamblesLength(commands, k), |commands[k].preamble|;
            && p + size < PreambleEnd(|output|, commands) <= |m.Code()|
            && m.Code()[p..p + size] == commands[k].preamble
  {
    Layout(m, output, commands);
    PreamblesInOrder(commands, k);
    PartOfPart(m.Code(), PreambleStart(|output|, commands), PreambleEnd(|output|, commands), Preambles(commands),
               PreamblesLength(commands, k), commands[k].preamble);
  }

  lemma PartOfPart(code: seq<byte>, start: nat, end: nat, all: seq<byte>, p: nat, part: seq<byte>)
    requires start < end <= |code| && code[start..end] == all + [TERMINATE]
    requires p + |part| <= |all| && all[p..p + |part|] == part
    ensures start + p + |part| < end && code[start + p..start + p + |part|] == part
  {
    assert |code[start..end]| == |all| + 1;
    forall i | 0 <= i < |part| ensures code[start + p + i] == part[i] {
      assert code[start..end][p + i] == code[start + (p + i)];
      assert all[p..p + |part|][i] == all[p + i];
    }
  }

  /** Main result: the bodies stand behind the preamble one after the other, up to the end of the
      code, each made for the very offset where it stands. */
  lemma BodiesStand(m: State, output: seq<byte>, commands: seq<Command>, k: nat)
    requires AtProgram(m, output, commands) && k < |commands|
    ensures var b := BodyStart(PreambleEnd(|output|, commands), commands, k);
            && b + |commands[k].body(b)| <= |m.Code()| && m.Code()[b..b + |commands[k].body(b)|] == commands[k].body(b)
            && |m.Code()| == BodyStart(PreambleEnd(|output|, commands), commands, |commands|)
  {
    var preamble := Preambles(commands) + [TERMINATE];
    var head := output + Guard(|preamble|) + preamble;
    assert |head| == PreambleEnd(|output|, commands);
    BodiesInOrder(head, commands, k);
  }

  lemma LayoutOf(code: seq<byte>, output: seq<byte>, enc: seq<byte>, preamble: seq<byte>, head: seq<byte>)
    requires head == output + ([IF_PREAMBLE, TEST_JUMP_IF_FALSE] + enc) + preamble && head <= code
    requires preamble != [] && preamble[|preamble| - 1] == TERMINATE
    ensures var at, start := |output|, |output| + 2 + |enc|;
            && start + |preamble| <= |code|
            && code[at] == IF_PREAMBLE && code[at + 1] == TEST_JUMP_IF_FALSE && StandsAt(code, at + 2, enc)
            && code[start..start + |preamble|] == preamble && code[start + |preamble| - 1] == TERMINATE
  {
    var at, start := |output|, |output| + 2 + |enc|;
    HeadParts(output, enc, preamble, head);
    PartOfPrefix(code, head, at, [IF_PREAMBLE, TEST_JUMP_IF_FALSE]);
    PartOfPrefix(code, head, at + 2, enc);
    PartOfPrefix(code, head, start, preamble);
    LayoutBytes(code, at, start, preamble);
  }

  lemma HeadParts(output: seq<byte>, enc: seq<byte>, preamble: seq<byte>, head: seq<byte>)
    requires head == output + ([IF_PREAMBLE, TEST_JUMP_IF_FALSE] + enc) + preamble
    ensures |head| == |output| + 2 + |enc| + |preamble|
    ensures head[|output|..|output| + 2] == [IF_PREAMBLE, TEST_JUMP_IF_FALSE]
    ensures head[|output| + 2..|output| + 2 + |enc|] == enc
    ensures head[|output| + 2 + |enc|..|output| + 2 + |enc| + |preamble|] == preamble
  {
  }

  lemma LayoutBytes(code: seq<byte>, at: nat, start: nat, preamble: seq<byte>)
    requires StandsAt(code, at, [IF_PREAMBLE, TEST_JUMP_IF_FALSE]) && StandsAt(code, start, preamble)
    requires preamble != [] && preamble[|preamble| - 1] == TERMINATE
    ensures code[at] == IF_PREAMBLE && code[at + 1] == TEST_JUMP_IF_FALSE && code[start + |preamble| - 1] == TERMINATE
  {
    var guard := [IF_PREAMBLE, TEST_JUMP_IF_FALSE];
    assert code[at + 0] == guard[0] && code[at + 1] == guard[1];
    assert code[start + (|preamble| - 1)] == preamble[|preamble| - 1];
  }

  ghost predicate TwoSteps(m: State, m': State)
    requires Valid(m)
  {
    Step(m).Next? && Valid(Step(m).m) && Step(Step(m).m) == Next(m')
  }

  lemma AsksForMode(m: State)
    requires Valid(m) && 0 <= m.ip < |m.Code()| && m.Code()[m.ip] == IF_PREAMBLE
    ensures Step(m) == Next(m.(ip := m.ip + 1, ops := m.ops + [Bool(m.preamble)]))
  {
    assert Fetch(m.Code(), m.ip) == Got(IfPreamble, m.ip + 1);
  }

  lemma SkipsOrNot(m: State, ops: seq<int>, arg: int, size: nat)
    requires Valid(m) && 0 <= m.ip < |m.Code()| && m.Code()[m.ip] == TEST_JUMP_IF_FALSE
    requires StandsAt(m.Code(), m.ip + 1, Encode(size)) && m.ops == ops + [arg]
    ensures Step(m) == Next(m.(ip := m.ip + 1 + |Encode(size)| + if arg == 0 then size else 0, ops := ops))
  {
    RoundTrip(m.Code(), m.ip + 1, size);
    assert Fetch(m.Code(), m.ip) == Got(TestFalse(size), m.ip + 1 + |Encode(size)|);
    assert Drop(m.ops, 1) == ops;
  }

  /** Main result: whatever the program and wherever it stands, two steps reach the first byte of
      the body in normal mode and the first byte of the preamble in preamble mode, with every
      stack as it was. */
  lemma ProgramStartsRight(m: State, output: seq<byte>, commands: seq<Command>)
    requires AtProgram(m, output, commands)
    ensures TwoSteps(m, m.(ip := if m.preamble then PreambleStart(|output|, commands) else PreambleEnd(|output|, commands)))
  {
    Layout(m, output, commands);
    AsksForMode(m);
    StepKeepsValid(m);
    SkipsOrNot(m.(ip := m.ip + 1, ops := m.ops + [Bool(m.preamble)]), m.ops, Bool(m.preamble), |Preambles(commands)| + 1);
  }

  /** The preamble ends in an instruction that ends the run, whatever the stacks hold by then. */
  lemma PreambleEnds(m: State, output: seq<byte>, commands: seq<Command>, m': State)
    requires AtProgram(m, output, commands)
    requires Valid(m') && m'.Code() == m.Code() && m'.ip == PreambleEnd(|output|, commands) - 1
    ensures Step(m') == Done
  {
    Layout(m, output, commands);
  }
}
