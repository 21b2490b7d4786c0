/** Finding a train by the digits typed on a throttle: a query carries six nibbles, those up to 9
    are digits, and they are looked for in the address and at each group of digits in the name. */
module FindProtocol {
  import opened Wrappers
  import opened Arith
  import opened DriveModes
  import FdiXml

  const EXACT: nat := 0x40
  const ADDRESS_ONLY: nat := 0x20
  const MATCH_ANY: nat := 0x01

  /** Query nibbles stand at places LOWEST up to below HIGHEST of the event. */
  const LOWEST: nat := 2
  const HIGHEST: nat := 8

  const UNUSED: nat := 15

  function Weight(place: nat): (w: nat)
    ensures w > 0
  {
    if place == 0 then 1 else 16 * Weight(place - 1)
  }

  function Nibble(event: nat, place: nat): nat { event / Weight(place) % 16 }

  /** The query's nibbles, least significant first. */
  function Query(event: nat): (q: seq<nat>)
    ensures |q| == HIGHEST - LOWEST
  {
    seq<nat>(HIGHEST - LOWEST, k requires k >= 0 => Nibble(event, LOWEST + k))
  }

  /** The digits among nibbles, most significant first. */
  function DigitsOf(nibbles: seq<nat>): seq<nat> {
    if nibbles == [] then []
    else DigitsOf(nibbles[1..]) + if nibbles[0] <= 9 then [nibbles[0]] else []
  }

  lemma {:induction false} DigitsOfTail(nibbles: seq<nat>, k: nat)
    requires k <= |nibbles|
    ensures DigitsOf(nibbles[k..]) <= DigitsOf(nibbles)
  {
    if k > 0 {
      assert nibbles[k..] == nibbles[1..][k - 1..];
      DigitsOfTail(nibbles[1..], k - 1);
    } else {
      assert nibbles[0..] == nibbles;
    }
  }

  lemma DigitsOfStep(nibbles: seq<nat>, k: nat)
    requires k < |nibbles|
    ensures DigitsOf(nibbles[k..]) == DigitsOf(nibbles[k + 1..]) + if nibbles[k] <= 9 then [nibbles[k]] else []
  {
    assert nibbles[k..][1..] == nibbles[k + 1..];
  }

  // ----- Names -----

  predicate IsNumber(c: char) { '0' <= c <= '9' }

  function Digits(s: string): seq<nat> {
    if s == [] then []
    else (if IsNumber(s[0]) then [s[0] as nat - '0' as nat] else []) + Digits(s[1..])
  }

  lemma {:induction false} DigitsConcat(a: string, b: string)
    ensures Digits(a + b) == Digits(a) + Digits(b)
  {
    if a != [] {
      assert (a + b)[1..] == a[1..] + b;
      DigitsConcat(a[1..], b);
    } else {
      assert a + b == b;
    }
  }

  lemma DigitsSplit(name: string, from: nat, pos: nat)
    requires from <= pos <= |name|
    ensures Digits(name[from..]) == Digits(name[from..pos]) + Digits(name[pos..])
  {
    assert name[from..] == name[from..pos] + name[pos..];
    DigitsConcat(name[from..pos], name[pos..]);
  }

  lemma DigitsNext(name: string, from: nat, pos: nat)
    requires from <= pos < |name|
    ensures Digits(name[from..pos + 1])
         == Digits(name[from..pos]) + if IsNumber(name[pos]) then [name[pos] as nat - '0' as nat] else []
  {
    assert name[from..pos + 1] == name[from..pos] + [name[pos]];
    assert [name[pos]][1..] == [];
    DigitsConcat(name[from..pos], [name[pos]]);
  }

  /** What a query says about the digits found: nothing, a longer number, or just this number. */
  function Outcome(query: seq<nat>, found: seq<nat>, exact: bool): nat {
    if query == [] || !(query <= found) then 0
    else if query == found then EXACT + MATCH_ANY
    else if exact then 0
    else MATCH_ANY
  }

  /** The digits of a character are those of the alphabet, and printed numbers have the digits of the
      number. */
  lemma DigitCharacters(c: char)
    ensures IsNumber(c) <==> c in "0123456789"
  {
    var all := "0123456789";
    if IsNumber(c) {
      assert all[c as nat - '0' as nat] == c;
    }
  }

  predicate Flag(event: nat, bit: nat)
    requires bit > 0
  {
    event / bit % 2 == 1
  }

  function OutcomeAt(event: nat, name: string, p: nat): nat
    requires p <= |name|
  {
    Outcome(DigitsOf(Query(event)), Digits(name[p..]), Flag(event, EXACT))
  }

  lemma Mismatch(nibbles: seq<nat>, k: nat, before: seq<nat>, found: seq<nat>)
    requires k < |nibbles| && nibbles[k] <= 9 && before == DigitsOf(nibbles[k + 1..])
    requires found == [] || found[0] != nibbles[k]
    ensures !(DigitsOf(nibbles) <= before + found)
  {
    DigitsOfTail(nibbles, k);
    assert nibbles[k..][1..] == nibbles[k + 1..];
    var longer := DigitsOf(nibbles[k..]);
    assert longer == before + [nibbles[k]];
    assert DigitsOf(nibbles)[|before|] == longer[|before|] == nibbles[k];
    assert found != [] ==> (before + found)[|before|] == found[0];
  }

  /** Moves over characters that are not digits. */
  method SkipToDigit(name: string, from: nat, pos: nat) returns (next: nat)
    requires from <= pos <= |name|
    ensures pos <= next <= |name| && (next < |name| ==> IsNumber(name[next]))
    ensures Digits(name[from..next]) == Digits(name[from..pos])
    ensures next == |name| ==> Digits(name[pos..]) == []
  {
    next := pos;
    while next < |name| && !IsNumber(name[next])
      invariant pos <= next <= |name|
      invariant Digits(name[from..next]) == Digits(name[from..pos])
      invariant Digits(name[pos..next]) == []
    {
      DigitsNext(name, from, next);
      DigitsNext(name, pos, next);
      next := next + 1;
    }
    DigitsSplit(name, pos, next);
  }

  lemma DigitMatches(name: string, pos: nat, at: nat, nibbles: seq<nat>, k: nat)
    requires pos <= at < |name| && k < |nibbles| && nibbles[k] <= 9
    requires Digits(name[pos..at]) == DigitsOf(nibbles[k + 1..])
    requires IsNumber(name[at]) && name[at] as int - '0' as int == nibbles[k]
    ensures Digits(name[pos..at + 1]) == DigitsOf(nibbles[k..])
  {
    DigitsOfStep(nibbles, k);
    DigitsNext(name, pos, at);
  }

  lemma DigitDiffers(name: string, pos: nat, at: nat, nibbles: seq<nat>, k: nat)
    requires pos <= at <= |name| && k < |nibbles| && nibbles[k] <= 9
    requires Digits(name[pos..at]) == DigitsOf(nibbles[k + 1..])
    requires at < |name| ==> IsNumber(name[at]) && name[at] as int - '0' as int != nibbles[k]
    ensures !(DigitsOf(nibbles) <= Digits(name[pos..]))
  {
    DigitsSplit(name, pos, at);
    Mismatch(nibbles, k, Digits(name[pos..at]), Digits(name[at..]));
  }

  /** Walks through the digits of the query and of the name side by side. */
  method MatchDigits(name: string, pos: nat, event: nat, ghost nibbles: seq<nat>) returns (ok: bool, at: nat, count: nat)
    requires pos <= |name| && nibbles == Query(event)
    ensures ok ==> pos <= at <= |name| && Digits(name[pos..at]) == DigitsOf(nibbles) && count == |DigitsOf(nibbles)|
    ensures !ok ==> !(DigitsOf(nibbles) <= Digits(name[pos..]))
  {
    at, count := pos, 0;
    var place: nat := HIGHEST;
    while place > LOWEST
      invariant LOWEST <= place <= HIGHEST && pos <= at <= |name|
      invariant Digits(name[pos..at]) == DigitsOf(nibbles[place - LOWEST..])
      invariant count == |DigitsOf(nibbles[place - LOWEST..])|
    {
      place := place - 1;
      ghost var k := place - LOWEST;
      DigitsOfStep(nibbles, k);
      var nibble := Nibble(event, place);
      assert nibble == nibbles[k];
      if nibble <= 9 {
        at := SkipToDigit(name, pos, at);
        // the character behind the end of the name is a zero, which no digit matches
        if at == |name| || name[at] as int - '0' as int != nibble {
          DigitDiffers(name, pos, at, nibbles, k);
          return false, at, count;
        }
        DigitMatches(name, pos, at, nibbles, k);
        at := at + 1;
        count := count + 1;
      }
    }
    assert nibbles[0..] == nibbles;
    ok := true;
  }

  /** Compares the digits of the query with those of the name from pos on. */
  method AttemptMatch(name: string, pos: nat, event: nat) returns (result: nat)
    requires pos <= |name|
    ensures result == OutcomeAt(event, name, pos)
  {
    var ok, at, count := MatchDigits(name, pos, event, Query(event));
    if !ok || count == 0 {
      return 0;
    }
    at := SkipToDigit(name, pos, at);
    DigitsSplit(name, pos, at);
    if at < |name| {
      return if Flag(event, EXACT) then 0 else MATCH_ANY;
    }
    return EXACT + MATCH_ANY;
  }

  /** The best result over all groups of digits is `best`. */
  ghost predicate BestOf(event: nat, name: string, starts: set<nat>, best: nat)
    requires forall p | p in starts :: p <= |name|
  {
    && (best == 0 || best == MATCH_ANY || best == EXACT + MATCH_ANY)
    && (best != 0 <==> exists p | p in starts :: OutcomeAt(event, name, p) != 0)
    && (best == EXACT + MATCH_ANY <==> exists p | p in starts :: OutcomeAt(event, name, p) == EXACT + MATCH_ANY)
  }

  predicate GroupStart(name: string, p: nat) {
    p < |name| && IsNumber(name[p]) && (p == 0 || !IsNumber(name[p - 1]))
  }

  function GroupStarts(name: string, end: nat): set<nat> {
    set p: nat | p < end && GroupStart(name, p)
  }

  lemma BetterOf(event: nat, name: string, starts: set<nat>, best: nat, p: nat)
    requires forall q | q in starts :: q <= |name|
    requires p <= |name| && BestOf(event, name, starts, best)
    ensures var r := OutcomeAt(event, name, p);
            BestOf(event, name, starts + {p}, if (best == 0 && r != 0) || r == EXACT + MATCH_ANY then r else best)
  {
  }

  method SkipGroup(name: string, start: nat) returns (pos: nat)
    requires start < |name| && IsNumber(name[start])
    ensures start < pos <= |name| && (pos < |name| ==> !IsNumber(name[pos]))
    ensures forall j | start <= j < pos :: IsNumber(name[j])
  {
    pos := start;
    while pos < |name| && IsNumber(name[pos])
      invariant start <= pos <= |name|
      invariant forall j | start <= j < pos :: IsNumber(name[j])
    {
      pos := pos + 1;
    }
  }

  lemma GroupSkipped(name: string, start: nat, pos: nat)
    requires start < pos <= |name| && GroupStart(name, start)
    requires forall j | start <= j < pos :: IsNumber(name[j])
    ensures GroupStarts(name, pos) == GroupStarts(name, start) + {start}
  {
  }

  lemma OtherSkipped(name: string, pos: nat)
    requires pos < |name| && !IsNumber(name[pos])
    ensures GroupStarts(name, pos + 1) == GroupStarts(name, pos)
  {
  }

  /** Looks for the query at every group of digits of the name. */
  method MatchName(name: string, event: nat) returns (best: nat)
    ensures BestOf(event, name, GroupStarts(name, |name|), best)
  {
    var first: Option<nat> := None;
    best := 0;
    var pos: nat := 0;
    while pos < |name|
      invariant pos <= |name|
      invariant pos < |name| && IsNumber(name[pos]) ==> GroupStart(name, pos)
      invariant BestOf(event, name, GroupStarts(name, pos), best)
      invariant first == None ==> best == 0
    {
      if IsNumber(name[pos]) {
        var current := AttemptMatch(name, pos, event);
        BetterOf(event, name, GroupStarts(name, pos), best, pos);
        if first == None {
          first, best := Some(current), current;
        }
        if (best == 0 && current != 0) || current == EXACT + MATCH_ANY {
          best := current;
        }
        var end := SkipGroup(name, pos);
        GroupSkipped(name, pos, end);
        pos := end;
      } else {
        OtherSkipped(name, pos);
        pos := pos + 1;
      }
    }
    if first == None {
      best := 0;
    }
  }

  /** What BestOf comes to: the query's digits begin, or are, the digits from some group on. */
  lemma NameMatchesExactly(event: nat, name: string, best: nat)
    requires BestOf(event, name, GroupStarts(name, |name|), best)
    ensures best != 0 <==>
              exists p: nat | GroupStart(name, p) :: var query, found := DigitsOf(Query(event)), Digits(name[p..]);
                query != [] && query <= found && (Flag(event, EXACT) ==> query == found)
    ensures best == EXACT + MATCH_ANY <==>
              exists p: nat | GroupStart(name, p) :: DigitsOf(Query(event)) == Digits(name[p..]) != []
  {
    forall p: nat ensures p in GroupStarts(name, |name|) <==> GroupStart(name, p) {}
  }

  // ----- Addresses -----

  /** The number that digits among nibbles make, least significant nibble first. */
  function NumberOf(nibbles: seq<nat>): nat {
    if nibbles == [] then 0
    else if nibbles[0] <= 9 then NumberOf(nibbles[1..]) * 10 + nibbles[0]
    else NumberOf(nibbles[1..])
  }

  const ALLOCATE: nat := 0x80

  predicate LeadingZero(digits: seq<nat>) { digits != [] && digits[0] == 0 }

  /** The drive modes filled in when a train is allocated; they are variables of the source. */
  datatype Defaults = Defaults(drive: Mode, marklin: Mode, dcc: Mode)

  ghost predicate Proper(d: Defaults) { d.drive < 32 && d.marklin < 32 && d.dcc < 32 }

  /** The mode asked for, with open choices filled in for an allocation. */
  function Filled(event: nat, d: Defaults): Mode {
    var drive := event % 32;
    if !Flag(event, ALLOCATE) then drive
    else if drive == DEFAULT then d.drive
    else if drive == MARKLIN_DEFAULT then d.marklin
    else if drive == DCC_DEFAULT then d.dcc
    else if drive == DCC_DEFAULT_LONG then drive + d.dcc % 4
    else drive
  }

  /** A zero typed in front asks for a long address, unless another protocol is asked for. */
  function QueryMode(event: nat, d: Defaults): Mode {
    var drive := Filled(event, d);
    if LeadingZero(DigitsOf(Query(event))) && (IsDcc(drive) || drive == DEFAULT) then DCC_DEFAULT_LONG + drive % 4
    else drive
  }

  /** What the mode read from a query means for the address: long after a leading zero in DCC or
      when no protocol is named; the protocol is otherwise the one filled in. */
  lemma QueryModeMeans(event: nat, d: Defaults, address: nat)
    requires Proper(d)
    ensures var drive, mode := Filled(event, d), QueryMode(event, d);
            && drive < 32 && mode < 32
            && (LeadingZero(DigitsOf(Query(event))) && (IsDcc(drive) || drive == DEFAULT) ==>
                  AddressTypeOf(mode, address) == DccLong && mode % 4 == drive % 4)
            && (!LeadingZero(DigitsOf(Query(event))) ==> mode == drive)
            && (IsMarklin(drive) ==> AddressTypeOf(mode, address) == MM)
    ensures !Flag(event, ALLOCATE) ==> Filled(event, d) == event % 32
  {
    MeansLong(Filled(event, d) % 4, address);
  }

  /** The defaults before anybody changes them. */
  const INITIAL := Defaults(DCC_128, MARKLIN_NEW, DCC_128)

  /** With these, a request to allocate a train can be met exactly when it names Marklin, DCC or
      nothing; in particular the two DCC modes without an implementation are always filled in. */
  lemma AllocationCanBeMadeExactly(event: nat, address: nat)
    requires Flag(event, ALLOCATE)
    ensures Implementation(QueryMode(event, INITIAL), address).Some? <==>
              event % 32 == DEFAULT || IsMarklin(event % 32) || IsDcc(event % 32)
  {
  }

  /** An allocation keeps the protocol that was asked for, and everything else that was asked for: only
      open choices are filled in.  With no protocol it gets the drive mode for that; open speed steps
      are those of the DCC default. */
  lemma AllocationKeepsChoices(event: nat, d: Defaults)
    requires Flag(event, ALLOCATE) && Proper(d) && IsMarklin(d.marklin) && IsDcc(d.dcc)
    ensures var asked, got := event % 32, Filled(event, d);
            && (asked != DEFAULT ==> ProtocolOf(got) == ProtocolOf(asked))
            && (asked == DEFAULT ==> got == d.drive)
            && (!(asked in {DEFAULT, MARKLIN_DEFAULT, DCC_DEFAULT, DCC_DEFAULT_LONG}) ==> got == asked)
            && (asked == MARKLIN_DEFAULT ==> got == d.marklin)
            && (asked == DCC_DEFAULT || asked == DCC_DEFAULT_LONG ==> got % 4 == d.dcc % 4)
            && (asked == DCC_DEFAULT_LONG ==> ForcesLong(got))
            && (asked == DCC_DEFAULT ==> ForcesLong(got) == ForcesLong(d.dcc))
  {
  }

  lemma MeansLong(low: nat, address: nat)
    requires low < 4
    ensures AddressTypeOf(DCC_DEFAULT_LONG + low, address) == DccLong
  {
  }

  method QueryToAddress(event: nat, d: Defaults) returns (address: nat, mode: Mode)
    ensures address == NumberOf(Query(event)) && mode == QueryMode(event, d)
  {
    var prefixZero;
    address, prefixZero := ReadDigits(event);
    mode := event % 32;
    if Flag(event, ALLOCATE) {
      if mode == DEFAULT {
        mode := d.drive;
      } else if mode == MARKLIN_DEFAULT {
        mode := d.marklin;
      } else if mode == DCC_DEFAULT {
        mode := d.dcc;
      } else if mode == DCC_DEFAULT_LONG {
        mode := mode + d.dcc % 4;
      }
    }
    if prefixZero && (IsDcc(mode) || mode == DEFAULT) {
      mode := DCC_DEFAULT_LONG + mode % 4;
    }
  }

  /** What has been read from the nibbles k and up. */
  ghost predicate Reading(nibbles: seq<nat>, k: nat, address: nat, prefixZero: bool)
    requires k <= |nibbles|
  {
    var digits := DigitsOf(nibbles[k..]);
    && address == NumberOf(nibbles[k..]) && prefixZero == LeadingZero(digits)
    && (address == 0 ==> prefixZero || digits == []) && (digits == [] ==> address == 0)
  }

  lemma ReadingStep(nibbles: seq<nat>, k: nat, address: nat, prefixZero: bool)
    requires k < |nibbles| && Reading(nibbles, k + 1, address, prefixZero)
    ensures Reading(nibbles, k, if nibbles[k] <= 9 then address * 10 + nibbles[k] else address,
                    prefixZero || (nibbles[k] == 0 && address == 0))
  {
    DigitsOfStep(nibbles, k);
    NumberOfStep(nibbles, k);
  }

  /** The loop over the nibbles: the number, and whether a zero came first. */
  method ReadDigits(event: nat) returns (address: nat, prefixZero: bool)
    ensures address == NumberOf(Query(event)) && prefixZero == LeadingZero(DigitsOf(Query(event)))
  {
    address, prefixZero := 0, false;
    ghost var nibbles := Query(event);
    var place: nat := HIGHEST;
    assert nibbles[HIGHEST - LOWEST..] == [];
    while place > LOWEST
      invariant LOWEST <= place <= HIGHEST && Reading(nibbles, place - LOWEST, address, prefixZero)
    {
      place := place - 1;
      var nibble := Nibble(event, place);
      assert nibble == nibbles[place - LOWEST];
      ReadingStep(nibbles, place - LOWEST, address, prefixZero);
      if nibble == 0 && address == 0 {
        prefixZero := true;
      }
      if nibble <= 9 {
        address := address * 10;
        address := address + nibble;
      }
    }
    assert nibbles[0..] == nibbles;
  }

  lemma NumberOfStep(nibbles: seq<nat>, k: nat)
    requires k < |nibbles|
    ensures NumberOf(nibbles[k..]) == if nibbles[k] <= 9 then NumberOf(nibbles[k + 1..]) * 10 + nibbles[k]
                                      else NumberOf(nibbles[k + 1..])
  {
    assert nibbles[k..][1..] == nibbles[k + 1..];
  }

  /** n nibbles for an address, least significant first, filled up with UNUSED. */
  function NibblesOf(address: nat, n: nat): (r: seq<nat>)
    ensures |r| == n && forall k | 0 <= k < n :: r[k] < 16
    decreases n
  {
    if n == 0 then []
    else [if address > 0 then address % 10 else UNUSED] + NibblesOf(address / 10, n - 1)
  }

  function Ten(n: nat): (r: nat)
    ensures r > 0
  {
    if n == 0 then 1 else 10 * Ten(n - 1)
  }

  lemma ModTen(address: nat, t: nat)
    requires t > 0
    ensures (address / 10 % t) * 10 + address % 10 == address % (10 * t)
  {
    var high := address / 10;
    var q, r := high / t, high % t;
    assert high == q * t + r;
    assert 10 * (q * t) == q * (10 * t);
    DivModUnique(address, 10 * t, q, 10 * r + address % 10);
  }

  lemma {:induction false} NumberOfNibbles(address: nat, n: nat)
    ensures NumberOf(NibblesOf(address, n)) == address % Ten(n)
    decreases n
  {
    if n > 0 {
      var nibbles, t := NibblesOf(address, n), Ten(n - 1);
      assert nibbles[1..] == NibblesOf(address / 10, n - 1);
      NumberOfNibbles(address / 10, n - 1);
      ModTen(address, t);
      if address == 0 {
        DivModUnique(0, t, 0, 0);
      }
    }
  }

  function FromNibbles(nibbles: seq<nat>): nat {
    if nibbles == [] then 0 else nibbles[0] + 16 * FromNibbles(nibbles[1..])
  }

  lemma {:induction false} FromNibblesAppend(nibbles: seq<nat>, d: nat)
    ensures FromNibbles(nibbles + [d]) == FromNibbles(nibbles) + d * Weight(|nibbles|)
  {
    if nibbles != [] {
      assert (nibbles + [d])[1..] == nibbles[1..] + [d];
      FromNibblesAppend(nibbles[1..], d);
      var w := Weight(|nibbles| - 1);
      assert 16 * (d * w) == d * (16 * w);
    }
  }

  lemma {:induction false} NibbleAt(nibbles: seq<nat>, k: nat)
    requires k < |nibbles| && forall j | 0 <= j < |nibbles| :: nibbles[j] < 16
    ensures Nibble(FromNibbles(nibbles), k) == nibbles[k]
  {
    var rest := FromNibbles(nibbles[1..]);
    if k == 0 {
      assert Weight(0) == 1;
      DivModUnique(FromNibbles(nibbles), 16, rest, nibbles[0]);
    } else {
      NibbleAt(nibbles[1..], k - 1);
      Shifted(rest, nibbles[0], Weight(k - 1));
    }
  }

  lemma Shifted(rest: nat, low: nat, w: nat)
    requires low < 16 && w > 0
    ensures (low + 16 * rest) / (16 * w) == rest / w
  {
    var q, r := rest / w, rest % w;
    assert rest == q * w + r;
    assert 16 * (q * w) == q * (16 * w);
    DivModUnique(low + 16 * rest, 16 * w, q, low + 16 * r);
  }

  /** The low half of the event that asks for an address: the command byte, then its digits. */
  function AddressEvent(address: nat, command: nat): nat {
    FromNibbles([command % 16, command / 16] + NibblesOf(address, HIGHEST - LOWEST))
  }

  lemma CommandByte(command: nat, nibbles: seq<nat>)
    requires command < 256
    ensures FromNibbles([command % 16, command / 16] + nibbles) == command + FromNibbles([0, 0] + nibbles)
    ensures FromNibbles([0, 0] + nibbles) == 256 * FromNibbles(nibbles)
  {
    LowNibbles(command % 16, command / 16, nibbles);
    LowNibbles(0, 0, nibbles);
  }

  lemma LowNibbles(a: nat, b: nat, nibbles: seq<nat>)
    ensures FromNibbles([a, b] + nibbles) == a + 16 * (b + 16 * FromNibbles(nibbles))
  {
    assert ([a, b] + nibbles)[1..] == [b] + nibbles;
    assert ([b] + nibbles)[1..] == nibbles;
  }

  /** `done` holds the nibbles put down so far; n nibbles for `left` are still missing. */
  ghost predicate Building(event: nat, done: seq<nat>, left: nat, n: nat, goal: seq<nat>) {
    event == FromNibbles([0, 0] + done) && done + NibblesOf(left, n) == goal
  }

  lemma {:induction false} PutNibble(event: nat, done: seq<nat>, left: nat, n: nat, goal: seq<nat>)
    requires n > 0 && Building(event, done, left, n, goal)
    ensures var d := if left > 0 then left % 10 else UNUSED;
            Building(event + d * Weight(|done| + 2), done + [d], left / 10, n - 1, goal)
  {
    var d := if left > 0 then left % 10 else UNUSED;
    var low := [0, 0] + done;
    assert [0, 0] + (done + [d]) == low + [d];
    FromNibblesAppend(low, d);
    assert NibblesOf(left, n) == [d] + NibblesOf(left / 10, n - 1);
    assert done + ([d] + NibblesOf(left / 10, n - 1)) == (done + [d]) + NibblesOf(left / 10, n - 1);
  }

  lemma BuildingStarts(address: nat, n: nat)
    ensures Building(0, [], address, n, NibblesOf(address, n))
  {
    LowNibbles(0, 0, []);
    assert [0, 0] + [] == [0, 0];
  }

  lemma BuildingEnds(event: nat, done: seq<nat>, left: nat, goal: seq<nat>, command: nat)
    requires Building(event, done, left, 0, goal) && command < 256
    ensures event + command == FromNibbles([command % 16, command / 16] + goal)
  {
    assert done + NibblesOf(left, 0) == done;
    CommandByte(command, done);
  }

  /** Puts down the digits of the address; those beyond the sixth go to the other half of the event. */
  method PutDigits(address: nat, ghost n: nat, ghost goal: seq<nat>)
    returns (event: nat, place: nat, ghost done: seq<nat>, ghost left': nat)
    requires n == HIGHEST - LOWEST && Building(0, [], address, n, goal)
    ensures LOWEST <= place && |done| == (if place < HIGHEST then place else HIGHEST) - LOWEST
    ensures Building(event, done, left', n - |done|, goal)
    ensures place < HIGHEST ==> left' == 0
  {
    event, place, done, left' := 0, LOWEST, [], address;
    var left: nat := address;
    while left > 0
      invariant LOWEST <= place && |done| == (if place < HIGHEST then place else HIGHEST) - LOWEST
      invariant Building(event, done, left', n - |done|, goal)
      invariant place < HIGHEST ==> left' == left
    {
      if place < HIGHEST {
        PutNibble(event, done, left, n - |done|, goal);
        event := event + (left % 10) * Weight(place);
        done, left' := done + [left % 10], left / 10;
      }
      place := place + 1;
      left := left / 10;
    }
  }

  /** The low half of the event. */
  method AddressToQuery(address: nat, exact: bool, mode: nat) returns (event: nat)
    requires mode < 32
    ensures event == AddressEvent(address, (if exact then EXACT else 0) + mode)
  {
    ghost var goal := NibblesOf(address, HIGHEST - LOWEST);
    var place: nat;
    ghost var done: seq<nat>, left: nat;
    BuildingStarts(address, HIGHEST - LOWEST);
    event, place, done, left := PutDigits(address, HIGHEST - LOWEST, goal);
    while place < HIGHEST
      invariant LOWEST <= place && |done| == (if place < HIGHEST then place else HIGHEST) - LOWEST
      invariant Building(event, done, left, HIGHEST - LOWEST - |done|, goal)
      invariant place < HIGHEST ==> left == 0
    {
      PutNibble(event, done, 0, HIGHEST - place, goal);
      event := event + UNUSED * Weight(place);
      done := done + [UNUSED];
      place := place + 1;
    }
    var command := (if exact then EXACT else 0) + mode;
    BuildingEnds(event, done, left, goal, command);
    event := event + command;
  }

  lemma AddressEventNibbles(address: nat, command: nat)
    requires command < 256
    ensures Query(AddressEvent(address, command)) == NibblesOf(address, HIGHEST - LOWEST)
  {
    var digits := NibblesOf(address, HIGHEST - LOWEST);
    var nibbles := [command % 16, command / 16] + digits;
    forall k | 0 <= k < |digits| ensures Nibble(FromNibbles(nibbles), LOWEST + k) == digits[k] {
      NibbleAt(nibbles, LOWEST + k);
      assert nibbles[LOWEST + k] == digits[k];
    }
  }

  lemma CommandFlag(command: nat, rest: nat)
    ensures Flag(command + 256 * rest, EXACT) == Flag(command, EXACT)
  {
    assert (command + 256 * rest) / 64 == command / 64 + 4 * rest;
  }

  /** Six digits are as many as a query holds. */
  lemma SixDigits()
    ensures Ten(HIGHEST - LOWEST) == 1000000
  {
    assert Ten(1) == 10;
    assert Ten(2) == 100;
    assert Ten(3) == 1000;
    assert Ten(4) == 10000;
    assert Ten(5) == 100000;
  }

  lemma SmallRemainder(a: nat, m: nat)
    requires m > 0
    ensures a % m == a <==> a < m
  {
    if a < m {
      DivModUnique(a, m, 0, a);
    }
  }

  /** Asking for an address and reading the question back agrees exactly below a million. */
  lemma AddressRoundTrip(address: nat, command: nat)
    requires command < 256
    ensures NumberOf(Query(AddressEvent(address, command))) == address <==> address < 1000000
    ensures Flag(AddressEvent(address, command), EXACT) == Flag(command, EXACT)
  {
    AddressEventNibbles(address, command);
    NumberOfNibbles(address, HIGHEST - LOWEST);
    SixDigits();
    SmallRemainder(address, Ten(HIGHEST - LOWEST));
    var digits := NibblesOf(address, HIGHEST - LOWEST);
    CommandByte(command, digits);
    CommandFlag(command, FromNibbles(digits));
  }

  /** The decimal digits of a number, most significant first. */
  function Decimal(n: nat): seq<nat> {
    if n == 0 then [] else Decimal(n / 10) + [n % 10]
  }

  lemma {:induction false} DigitsOfAddress(address: nat, n: nat)
    requires address < Ten(n)
    ensures DigitsOf(NibblesOf(address, n)) == Decimal(address)
    decreases n
  {
    if n > 0 {
      DigitsOfAddress(address / 10, n - 1);
    }
  }

  /** Printed decimal text has the digits of the number, most significant first. */
  lemma {:induction false} PrintedDigits(n: nat)
    requires n > 0
    ensures Digits(FdiXml.Decimal(n)) == Decimal(n)
  {
    var last := [FdiXml.Digit(n % 10)];
    assert last[1..] == [];
    assert Digits(last) == [n % 10] + Digits(last[1..]);
    if n < 10 {
      assert Decimal(n / 10) == [];
    } else {
      PrintedDigits(n / 10);
      DigitsConcat(FdiXml.Decimal(n / 10), last);
    }
  }

  /** What is looked for in names is the decimal form of the address. */
  lemma AddressQueryDigits(address: nat, command: nat)
    requires address < 1000000 && command < 256
    ensures DigitsOf(Query(AddressEvent(address, command))) == Decimal(address)
  {
    AddressEventNibbles(address, command);
    SixDigits();
    DigitsOfAddress(address, HIGHEST - LOWEST);
  }

  lemma {:induction false} DecimalInjective(a: nat, b: nat)
    requires Decimal(a) == Decimal(b)
    ensures a == b
  {
    if a > 0 && b > 0 {
      var x, y := Decimal(a), Decimal(b);
      assert x[..|x| - 1] == Decimal(a / 10) && y[..|y| - 1] == Decimal(b / 10);
      assert x[|x| - 1] == a % 10 && y[|y| - 1] == b % 10;
      DecimalInjective(a / 10, b / 10);
    }
  }

  lemma PrefixStep(a: nat, s: nat)
    requires a > 0
    ensures Decimal(s) <= Decimal(a) <==> (s == a || Decimal(s) <= Decimal(a / 10))
    ensures Decimal(s) < Decimal(a) <==> Decimal(s) <= Decimal(a / 10)
  {
    var x, y := Decimal(s), Decimal(a);
    assert y[..|y| - 1] == Decimal(a / 10);
    if x <= y && |x| == |y| {
      DecimalInjective(s, a);
    }
  }

  /** Is the number typed a proper beginning of the address? */
  method IsAddressPrefix(supplied: nat, address: nat) returns (found: bool)
    ensures found == (supplied > 0 && Decimal(supplied) < Decimal(address))
  {
    var prefix: nat := address / 10;
    if address > 0 {
      PrefixStep(address, supplied);
    }
    while prefix > 0
      invariant (supplied > 0 && Decimal(supplied) < Decimal(address)) <==>
                (supplied > 0 && Decimal(supplied) <= Decimal(prefix))
    {
      PrefixStep(prefix, supplied);
      if prefix == supplied {
        return true;
      }
      prefix := prefix / 10;
    }
    return false;
  }

  method HasQuery(event: nat) returns (has: bool)
    ensures has == (DigitsOf(Query(event)) != [])
  {
    ghost var nibbles := Query(event);
    var place: nat := HIGHEST;
    while place > LOWEST
      invariant LOWEST <= place <= HIGHEST
      invariant DigitsOf(nibbles[place - LOWEST..]) == []
    {
      place := place - 1;
      DigitsOfStep(nibbles, place - LOWEST);
      if Nibble(event, place) <= 9 {
        DigitsOfTail(nibbles, place - LOWEST);
        return true;
      }
    }
    assert nibbles[0..] == nibbles;
    return false;
  }

  // ----- Trains -----

  datatype Train = Train(name: string, address: nat, mode: Mode)

  /** How the drive modes of the query and of the train compare. */
  datatype Modes = Modes(driveModeMatches: bool, addressTypeMatches: bool, addressTypesEqual: bool, modeGiven: bool)

  function ModesOf(event: nat, d: Defaults, train: Train): Modes {
    var mode := QueryMode(event, d);
    var desired, actual := AddressTypeOf(mode, NumberOf(Query(event))), AddressTypeOf(train.mode, train.address);
    Modes(event % 32 == DEFAULT || train.mode == DEFAULT || ProtocolOf(train.mode) == ProtocolOf(event % 32),
          actual == Unsupported || desired == Unspecified || desired == actual,
          desired == actual, mode != DEFAULT)
  }

  /** The event's restriction on the drive mode, if any, holds of a train's mode. */
  method MatchEventToDriveMode(event: nat, mode: Mode) returns (ok: bool)
    ensures ok == (event % 32 == DEFAULT || mode == DEFAULT || ProtocolOf(mode) == ProtocolOf(event % 32))
  {
    if event % 32 == DEFAULT {
      return true;
    }
    if mode == DEFAULT {
      return true;
    }
    return ProtocolOf(mode) == ProtocolOf(event % 32);
  }

  ghost predicate NameIsQuery(event: nat, name: string) {
    exists p: nat | GroupStart(name, p) :: DigitsOf(Query(event)) == Digits(name[p..]) != []
  }

  ghost predicate NameStartsWithQuery(event: nat, name: string) {
    exists p: nat | GroupStart(name, p) ::
      DigitsOf(Query(event)) != [] && DigitsOf(Query(event)) <= Digits(name[p..])
  }

  ghost predicate AddressStartsWithQuery(event: nat, address: nat) {
    var supplied := NumberOf(Query(event));
    supplied > 0 && Decimal(supplied) < Decimal(address)
  }

  /** The address is the one asked for. */
  ghost predicate Found(everything: bool, event: nat, train: Train, modes: Modes) {
    everything || (modes.driveModeMatches && NumberOf(Query(event)) == train.address && modes.addressTypeMatches)
  }

  ghost predicate Eligible(event: nat, modes: Modes) {
    && modes.driveModeMatches
    && !(modes.modeGiven && Flag(event, EXACT) && Flag(event, ALLOCATE) && Flag(event, ADDRESS_ONLY)
         && !modes.addressTypesEqual)
  }

  ghost predicate PartOfAddress(event: nat, train: Train, modes: Modes) {
    !Flag(event, EXACT) && modes.addressTypeMatches && AddressStartsWithQuery(event, train.address)
  }

  /** Which answer a train gives: it is the train; else its name holds just the number; else the
      number is part of its address; else part of its name, or no number was given. */
  method MatchQueryToNode(everything: bool, event: nat, train: Train, d: Defaults) returns (result: nat)
    ensures result in {0, MATCH_ANY, MATCH_ANY + ADDRESS_ONLY, MATCH_ANY + EXACT, MATCH_ANY + ADDRESS_ONLY + EXACT}
    ensures result == MATCH_ANY + ADDRESS_ONLY + EXACT <==> Found(everything, event, train, ModesOf(event, d, train))
    ensures !Found(everything, event, train, ModesOf(event, d, train)) ==>
              (result == MATCH_ANY + EXACT <==>
                Eligible(event, ModesOf(event, d, train)) && !Flag(event, ADDRESS_ONLY) && NameIsQuery(event, train.name))
    ensures !Found(everything, event, train, ModesOf(event, d, train)) ==>
              (result == MATCH_ANY + ADDRESS_ONLY <==>
                Eligible(event, ModesOf(event, d, train)) && PartOfAddress(event, train, ModesOf(event, d, train))
                && (Flag(event, ADDRESS_ONLY) || !NameIsQuery(event, train.name)))
    ensures !Found(everything, event, train, ModesOf(event, d, train)) ==>
              (result == MATCH_ANY <==>
                Eligible(event, ModesOf(event, d, train)) && !Flag(event, ADDRESS_ONLY) && !Flag(event, EXACT)
                && !PartOfAddress(event, train, ModesOf(event, d, train)) && !NameIsQuery(event, train.name)
                && (DigitsOf(Query(event)) == [] || NameStartsWithQuery(event, train.name)))
  {
    if everything {
      return MATCH_ANY + ADDRESS_ONLY + EXACT;
    }
    var supplied, mode := QueryToAddress(event, d);
    ghost var modes := ModesOf(event, d, train);
    var desired, actual := AddressTypeOf(mode, supplied), AddressTypeOf(train.mode, train.address);
    var typesMatch := actual == Unsupported || desired == Unspecified || desired == actual;
    var hasQuery := HasQuery(event);
    NumberNeedsDigits(Query(event));
    var driveModeMatches := MatchEventToDriveMode(event, train.mode);
    if !driveModeMatches {
      return 0;
    }
    if supplied == train.address && typesMatch {
      return MATCH_ANY + ADDRESS_ONLY + EXACT;
    }
    var isPrefix := false;
    if !Flag(event, EXACT) && typesMatch {
      isPrefix := IsAddressPrefix(supplied, train.address);
    }
    if mode != DEFAULT && Flag(event, EXACT) && Flag(event, ALLOCATE) && Flag(event, ADDRESS_ONLY)
       && desired != actual {
      return 0;
    }
    if Flag(event, ADDRESS_ONLY) {
      return if Flag(event, EXACT) || !isPrefix then 0 else MATCH_ANY + ADDRESS_ONLY;
    }
    if !hasQuery {
      return if Flag(event, EXACT) then 0 else MATCH_ANY;
    }
    var best := MatchName(train.name, event);
    NameMatchesExactly(event, train.name, best);
    if best != EXACT + MATCH_ANY && isPrefix && !Flag(event, EXACT) {
      return MATCH_ANY + ADDRESS_ONLY;
    }
    if Flag(event, EXACT) && best != EXACT + MATCH_ANY {
      return 0;
    }
    return best;
  }

  lemma {:induction false} NumberNeedsDigits(nibbles: seq<nat>)
    ensures DigitsOf(nibbles) == [] ==> NumberOf(nibbles) == 0
  {
    if nibbles != [] {
      NumberNeedsDigits(nibbles[1..]);
    }
  }

  // ----- Finding a train by its own address -----

  /** The mode asked for suits that of a train with this address: none was asked for, it is the same,
      both are Marklin, or both are DCC and mean the same kind of address. */
  predicate Suits(asked: Mode, mode: Mode, address: nat) {
    || asked == 0 || asked == mode
    || (4 <= asked <= 7 && 4 <= mode <= 7)
    || (8 <= asked <= 15 && 8 <= mode <= 15 && (asked >= 12 || address > 127 <==> mode >= 12 || address > 127))
  }

  lemma {:induction false} NoLeadingZero(n: nat)
    ensures !LeadingZero(Decimal(n))
  {
    if n >= 10 {
      NoLeadingZero(n / 10);
      assert Decimal(n)[0] == Decimal(n / 10)[0];
    } else if n > 0 {
      assert Decimal(n / 10) == [];
    }
  }

  lemma CommandBits(command: nat, rest: nat)
    requires command < 128
    ensures !Flag(command + 256 * rest, ALLOCATE) && (command + 256 * rest) % 32 == command % 32
  {
    assert (command + 256 * rest) / 128 == 2 * rest;
  }

  lemma AddressQueryReads(address: nat, command: nat, d: Defaults)
    requires address < 1000000 && command < 128
    ensures var event := AddressEvent(address, command);
            event % 32 == command % 32 && QueryMode(event, d) == command % 32 && NumberOf(Query(event)) == address
  {
    AddressRoundTrip(address, command);
    AddressQueryDigits(address, command);
    NoLeadingZero(address);
    CommandByte(command, NibblesOf(address, HIGHEST - LOWEST));
    CommandBits(command, FromNibbles(NibblesOf(address, HIGHEST - LOWEST)));
  }

  lemma ReadQueryFinds(event: nat, address: nat, mode: Mode, d: Defaults, train: Train)
    requires mode < 32 && train.mode < 32
    requires event % 32 == mode && QueryMode(event, d) == mode && NumberOf(Query(event)) == address
    ensures Found(false, event, train, ModesOf(event, d, train)) <==>
              train.address == address && Suits(mode, train.mode, address)
  {
    SuitsExactly(mode, train.mode, address);
  }

  lemma CommandIsMode(exact: bool, mode: Mode)
    requires mode < 32
    ensures var command := (if exact then EXACT else 0) + mode; command < 128 && command % 32 == mode
  {
  }

  /** Main result: asking for an address below a million finds exactly the trains with that address and
      a mode that suits the one asked for, the train that has both among them. */
  lemma AddressQueryFindsExactly(address: nat, exact: bool, mode: Mode, d: Defaults, train: Train, event: nat)
    requires address < 1000000 && mode < 32 && train.mode < 32
    requires event == AddressEvent(address, (if exact then EXACT else 0) + mode)
    ensures Found(false, event, train, ModesOf(event, d, train)) <==>
              train.address == address && Suits(mode, train.mode, address)
  {
    CommandIsMode(exact, mode);
    AddressQueryReads(address, (if exact then EXACT else 0) + mode, d);
    ReadQueryFinds(event, address, mode, d, train);
  }

  lemma SuitsExactly(asked: Mode, mode: Mode, address: nat)
    requires asked < 32 && mode < 32
    ensures var desired, actual := AddressTypeOf(asked, address), AddressTypeOf(mode, address);
            Suits(asked, mode, address) <==>
              (asked == DEFAULT || mode == DEFAULT || ProtocolOf(mode) == ProtocolOf(asked))
              && (actual == Unsupported || desired == Unspecified || desired == actual)
  {
    AddressTypesAre(asked, address);
    AddressTypesAre(mode, address);
    SameProtocolExactly(mode, asked);
  }

  /** A flag is one binary digit of the event. */
  lemma FlagIsBit(high: nat, on: bool, low: nat, bit: nat)
    requires low < bit
    ensures Flag(high * (2 * bit) + (if on then bit else 0) + low, bit) == on
  {
    var b := if on then 1 else 0;
    assert high * (2 * bit) + b * bit + low == (2 * high + b) * bit + low by {
      assert (2 * high + b) * bit == 2 * high * bit + b * bit;
    }
    DivModUnique(high * (2 * bit) + b * bit + low, bit, 2 * high + b, low);
  }
}
