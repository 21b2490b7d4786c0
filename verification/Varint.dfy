/** Signed variable-length integers: six bits and the sign in the first byte, seven bits in
    every byte after it, and the top bit of a byte set while more bytes follow. */
module Varint {
  import opened Wrappers

  /** Low seven-bit groups of a value, until only copies of the sign are left. */
  function Groups(value: int, sign: int): (g: seq<byte>)
    requires (sign == 0 && value >= 0) || (sign == -1 && value < 0)
    ensures forall i | 0 <= i < |g| :: g[i] < 128
    decreases if value < 0 then -value else value
  {
    if value == sign then [] else [value % 128] + Groups(value / 128, sign)
  }

  /** Marks every group but the last as followed by more. */
  function Marked(g: seq<byte>): (s: seq<byte>)
    requires forall i | 0 <= i < |g| :: g[i] < 128
    ensures |s| == |g|
  {
    if |g| <= 1 then g else [g[0] + 128] + Marked(g[1..])
  }

  function Sign(value: int): int { if value < 0 then -1 else 0 }

  function FirstGroup(value: int): (b: byte)
    ensures b < 128
  {
    (if value < 0 then 64 else 0) + value % 64
  }

  function Encode(value: int): (s: seq<byte>)
    ensures |s| >= 1
  {
    Marked([FirstGroup(value)] + Groups(value / 64, Sign(value)))
  }

  /** The rest of a varint whose byte at `at` has just been read: `low` holds the bits so far,
      `weight` is worth one more bit, and `sign` fills the bits not yet read. */
  function DecodeMore(code: seq<byte>, at: nat, low: int, weight: nat, sign: int): Option<(int, nat)>
    requires at < |code|
    decreases |code| - at
  {
    if code[at] < 128 then Some((low + sign * weight, at + 1))
    else if at + 1 >= |code| then None
    else DecodeMore(code, at + 1, low + (code[at + 1] % 128) * weight, weight * 128, sign)
  }

  /** The value of the varint at `at`, and the position after it; None when the code ends first. */
  function Decode(code: seq<byte>, at: nat): Option<(int, nat)> {
    if at >= |code| then None
    else DecodeMore(code, at, code[at] % 64, 64, if code[at] % 128 >= 64 then -1 else 0)
  }

  /** The bytes s stand at position `at` of the code. */
  ghost predicate StandsAt(code: seq<byte>, at: nat, s: seq<byte>) {
    at + |s| <= |code| && forall i | 0 <= i < |s| :: code[at + i] == s[i]
  }

  lemma MarkedCons(g: seq<byte>)
    requires |g| > 1 && forall i | 0 <= i < |g| :: g[i] < 128
    ensures Marked(g) == [g[0] + 128] + Marked(g[1..])
  {
  }

  lemma FirstMarked(g: seq<byte>)
    requires g != [] && forall i | 0 <= i < |g| :: g[i] < 128
    ensures Marked(g)[0] == g[0] || Marked(g)[0] == g[0] + 128
  {
  }

  lemma LowBits(x: nat, low: nat)
    requires low < 128 && (x == low || x == low + 128)
    ensures x % 128 == low
  {
  }

  lemma MarkedStep(code: seq<byte>, at: nat, head: byte, value: int, sign: int)
    requires (sign == 0 && value >= 0) || (sign == -1 && value < 0)
    requires head < 128 && value != sign
    requires StandsAt(code, at, Marked([head] + Groups(value, sign)))
    ensures at + 1 < |code| && code[at] == head + 128 && code[at + 1] % 128 == value % 128
    ensures StandsAt(code, at + 1, Marked([value % 128] + Groups(value / 128, sign)))
  {
    var rest := Groups(value, sign);
    assert rest == [value % 128] + Groups(value / 128, sign);
    var g := [head] + rest;
    assert g[1..] == rest && g[0] == head;
    MarkedCons(g);
    FirstMarked(rest);
    LowBits(Marked(rest)[0], rest[0]);
    FirstStands(code, at, head + 128, Marked(rest));
  }

  lemma FirstStands(code: seq<byte>, at: nat, first: byte, rest: seq<byte>)
    requires StandsAt(code, at, [first] + rest) && rest != []
    ensures at + 1 < |code| && code[at] == first && code[at + 1] == rest[0] && StandsAt(code, at + 1, rest)
  {
    SplitStanding(code, at, [first], rest);
    assert code[at + 0] == [first][0];
    assert code[at + 1 + 0] == rest[0];
  }

  /** Decoding walks through the groups of whatever is left of the value. */
  lemma {:induction false} DecodeGroups(code: seq<byte>, at: nat, low: int, weight: nat, sign: int, value: int, head: byte)
    requires (sign == 0 && value >= 0) || (sign == -1 && value < 0)
    requires head < 128 && StandsAt(code, at, Marked([head] + Groups(value, sign)))
    ensures at < |code| && DecodeMore(code, at, low, weight, sign)
                        == Some((low + weight * value, at + |Groups(value, sign)| + 1))
    decreases if value < 0 then -value else value
  {
    if value == sign {
      assert code[at + 0] == head;
      assert sign * weight == weight * value;
    } else {
      MarkedStep(code, at, head, value, sign);
      var low' := low + (code[at + 1] % 128) * weight;
      DecodeGroups(code, at + 1, low', weight * 128, sign, value / 128, value % 128);
      assert low' + (weight * 128) * (value / 128) == low + weight * value by {
        Weigh(low, weight, value);
      }
    }
  }

  lemma Weigh(low: int, weight: nat, value: int)
    ensures (low + (value % 128) * weight) + (weight * 128) * (value / 128) == low + weight * value
  {
    var q, r := value / 128, value % 128;
    assert value == 128 * q + r;
    assert weight * value == weight * (128 * q + r) == weight * 128 * q + weight * r;
  }

  /** Main result: a varint is decoded exactly, wherever it stands and whatever follows it. */
  lemma RoundTrip(code: seq<byte>, at: nat, value: int)
    requires StandsAt(code, at, Encode(value))
    ensures Decode(code, at) == Some((value, at + |Encode(value)|))
  {
    var head, rest, sign := FirstGroup(value), value / 64, Sign(value);
    assert code[at + 0] == Encode(value)[0];
    assert code[at] % 128 == head && code[at] % 64 == value % 64;
    DecodeGroups(code, at, value % 64, 64, sign, rest, head);
  }

  function EncodeAll(values: seq<int>): seq<byte> {
    if values == [] then [] else Encode(values[0]) + EncodeAll(values[1..])
  }

  /** Decodes `count` varints in a row. */
  function DecodeAll(code: seq<byte>, at: nat, count: nat): Option<(seq<int>, nat)>
    decreases count
  {
    if count == 0 then Some(([], at))
    else match Decode(code, at)
      case None => None
      case Some((v, next)) =>
        match DecodeAll(code, next, count - 1)
        case None => None
        case Some((vs, end)) => Some(([v] + vs, end))
  }

  /** Main result: a concatenation of encoded integers decodes to the same list and to the end. */
  lemma {:induction false} ListRoundTrip(code: seq<byte>, at: nat, values: seq<int>)
    requires StandsAt(code, at, EncodeAll(values))
    ensures DecodeAll(code, at, |values|) == Some((values, at + |EncodeAll(values)|))
    decreases |values|
  {
    if values != [] {
      var first, rest := Encode(values[0]), EncodeAll(values[1..]);
      SplitStanding(code, at, first, rest);
      RoundTrip(code, at, values[0]);
      ListRoundTrip(code, at + |first|, values[1..]);
      assert values == [values[0]] + values[1..];
    }
  }

  lemma SplitStanding(code: seq<byte>, at: nat, first: seq<byte>, rest: seq<byte>)
    requires StandsAt(code, at, first + rest)
    ensures StandsAt(code, at, first) && StandsAt(code, at + |first|, rest)
  {
    assert forall i | 0 <= i < |first| :: (first + rest)[i] == first[i];
    forall i | 0 <= i < |rest| ensures code[at + |first| + i] == rest[i] {
      assert code[at + (|first| + i)] == (first + rest)[|first| + i];
    }
  }

  /** No encoding is a prefix of another one, and different integers have different encodings. */
  lemma PrefixFree(a: int, b: int)
    requires Encode(a) <= Encode(b)
    ensures a == b
  {
    RoundTrip(Encode(b), 0, a);
    RoundTrip(Encode(b), 0, b);
  }

  // ----- The code in place -----

  /** What is appended: `body` so far, whose last byte is not marked yet, then the groups left. */
  ghost predicate Appending(body: seq<byte>, left: int, sign: int, value: int) {
    && ((sign == 0 && left >= 0) || (sign == -1 && left < 0))
    && |body| >= 1 && body[|body| - 1] < 128
    && body[..|body| - 1] + Marked([body[|body| - 1]] + Groups(left, sign)) == Encode(value)
  }

  lemma AppendGroup(body: seq<byte>, left: int, sign: int, value: int)
    requires Appending(body, left, sign, value) && left != sign
    ensures Appending(body[..|body| - 1] + [body[|body| - 1] + 128, left % 128], left / 128, sign, value)
  {
    var init, last, g := body[..|body| - 1], body[|body| - 1], Groups(left / 128, sign);
    var body' := init + [last + 128, left % 128];
    assert ([last] + ([left % 128] + g))[1..] == [left % 128] + g;
    assert Marked([last] + Groups(left, sign)) == [last + 128] + Marked([left % 128] + g);
    assert body'[..|body'| - 1] == init + [last + 128];
    assert init + ([last + 128] + Marked([left % 128] + g)) == (init + [last + 128]) + Marked([left % 128] + g);
  }

  lemma AppendDone(body: seq<byte>, sign: int, value: int)
    requires Appending(body, sign, sign, value)
    ensures body == Encode(value)
  {
    assert Marked([body[|body| - 1]] + []) == [body[|body| - 1]];
  }

  /** Appends the encoding, setting the mark on the last byte whenever another one follows. */
  method AppendVarint(output: seq<byte>, value: int) returns (result: seq<byte>)
    ensures result == output + Encode(value)
  {
    if value == 0 {
      assert Encode(0) == [0];
      return output + [0];
    }
    var sign := if value > 0 then 0 else -1;
    var first: byte := if value > 0 then value % 64 else 64 + value % 64;
    var left := value / 64;
    var body: seq<byte> := [first];
    assert body[..0] + Marked([first] + Groups(left, sign)) == Encode(value);
    while left != sign
      invariant Appending(body, left, sign, value)
      decreases if left < 0 then -left else left
    {
      AppendGroup(body, left, sign, value);
      body := body[..|body| - 1] + [body[|body| - 1] + 128, left % 128];
      left := left / 128;
    }
    AppendDone(body, sign, value);
    result := output + body;
  }

  /** Reads the varint at `ip`; not ok when the code ends first. */
  method ParseVarint(code: seq<byte>, ip: nat) returns (ok: bool, value: int, next: nat)
    ensures match Decode(code, ip)
            case None => !ok
            case Some((v, end)) => ok && value == v && next == end
  {
    value, next := 0, ip;
    if ip >= |code| {
      return false, 0, ip;
    }
    var sign: int := if code[ip] % 128 >= 64 then -1 else 0;
    var low: int, weight: nat := code[ip] % 64, 64;
    while code[next] >= 128
      invariant ip <= next < |code|
      invariant Decode(code, ip) == DecodeMore(code, next, low, weight, sign)
      decreases |code| - next
    {
      next := next + 1;
      if next >= |code| {
        return false, 0, next;
      }
      low := low + (code[next] % 128) * weight;
      weight := weight * 128;
    }
    ok, value, next := true, low + sign * weight, next + 1;
  }
}
