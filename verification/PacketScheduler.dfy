/** Which train gets the next track packet: an exclusive source first, then urgent updates in the
    order they came, then the background refresh of all sources in turn. */
module PacketScheduler {
  import opened Wrappers

  type Source = nat

  datatype Update = Update(source: Source, code: nat)

  datatype SourceState = SourceState(last: int, priority: nat)

  /** Two packets to one source keep `delay` apart; sources with at least `minPriority` are exclusive. */
  datatype Config = Config(delay: nat, minPriority: nat)

  /** `next` is the background source to look at first. */
  datatype Proc = Proc(
    updates: seq<Update>, sources: seq<Source>, states: map<Source, SourceState>, next: nat, exclusive: nat)

  const NO_EXCLUSIVE: nat := 0x7FF

  datatype Packet = Idle | Exclusive(s: Source) | Urgent(update: Update) | Background(s: Source)

  predicate SentTo(p: Packet, s: Source) {
    match p
    case Idle => false
    case Exclusive(t) => t == s
    case Urgent(u) => u.source == s
    case Background(t) => t == s
  }

  ghost predicate Valid(m: Proc) {
    && (forall s :: s in m.states <==> s in m.sources)
    && (m.exclusive == NO_EXCLUSIVE || m.exclusive < |m.sources|)
  }

  // ----- Sources -----

  /** The priority of the exclusive source, by the given states. */
  function TopPriority(m: Proc, states: map<Source, SourceState>): nat
    requires Valid(m) && forall s | s in m.sources :: s in states
  {
    if m.exclusive == NO_EXCLUSIVE then 0 else states[m.sources[m.exclusive]].priority
  }

  function Add(c: Config, m: Proc, s: Source, priority: nat): Proc
    requires Valid(m)
  {
    var sources, states := m.sources + [s], m.states[s := SourceState(0, priority)];
    var takesOver := priority >= c.minPriority && priority > TopPriority(m, states);
    m.(sources := sources, states := states, exclusive := if takesOver then |m.sources| else m.exclusive)
  }

  function Without(sources: seq<Source>, s: Source): (r: seq<Source>)
    ensures forall t :: t in r <==> t in sources && t != s
  {
    if sources == [] then []
    else
      var init, last := sources[..|sources| - 1], sources[|sources| - 1];
      if last == s then Without(init, s) else Without(init, s) + [last]
  }

  /** Removing goes through the list in order. */
  lemma {:induction false} WithoutConcat(a: seq<Source>, b: seq<Source>, s: Source)
    ensures Without(a + b, s) == Without(a, s) + Without(b, s)
    decreases |b|
  {
    if b == [] {
      assert a + b == a;
    } else {
      var init, last := b[..|b| - 1], b[|b| - 1];
      assert (a + b)[..|a + b| - 1] == a + init;
      WithoutConcat(a, init, s);
    }
  }

  lemma WithoutOne(t: Source, s: Source)
    ensures Without([t], s) == if t == s then [] else [t]
  {
    assert [t][..0] == [];
    assert Without([], s) == [];
  }

  /** The last source among those of the highest exclusive priority. */
  function Highest(c: Config, sources: seq<Source>, states: map<Source, SourceState>): (r: Option<nat>)
    requires forall s | s in sources :: s in states
    ensures r.Some? ==> r.value < |sources| && states[sources[r.value]].priority >= c.minPriority
    ensures r.Some? ==> forall s | s in sources :: states[s].priority <= states[sources[r.value]].priority
    ensures r.None? ==> forall s | s in sources :: states[s].priority < c.minPriority
  {
    if sources == [] then None
    else
      var init, last := sources[..|sources| - 1], sources[|sources| - 1];
      assert sources == init + [last];
      var best := Highest(c, init, states);
      var bar := if best.Some? then states[init[best.value]].priority else c.minPriority;
      if states[last].priority >= bar then Some(|init|) else best
  }

  function Remove(c: Config, m: Proc, s: Source): Proc
    requires Valid(m)
  {
    var sources, states := Without(m.sources, s), m.states - {s};
    var best := Highest(c, sources, states);
    m.(sources := sources, states := states, exclusive := if best.Some? then best.value else NO_EXCLUSIVE)
  }

  // ----- Packets -----

  function Stamp(m: Proc, s: Source, now: int): Proc
    requires s in m.states
  {
    m.(states := m.states[s := m.states[s].(last := now)])
  }

  /** What becomes of the first urgent update. */
  datatype Fate = Absent | Dropped(u: Update) | PutBack(u: Update) | Sendable(u: Update)

  function Judge(c: Config, m: Proc, now: int): Fate {
    if m.updates == [] then Absent
    else if m.updates[0].source !in m.states then Dropped(m.updates[0])
    else if m.states[m.updates[0].source].last > now - c.delay then PutBack(m.updates[0])
    else Sendable(m.updates[0])
  }

  function Dequeue(m: Proc, fate: Fate): Proc {
    if m.updates == [] then m
    else m.(updates := m.updates[1..] + if fate.PutBack? then [fate.u] else [])
  }

  function Wrapped(next: nat, n: nat): nat { if next >= n then 0 else next }

  /** Looks at up to `tries` sources from `next` on for one whose last packet is before `limit`. */
  function Scan(m: Proc, next: nat, limit: int, tries: nat): (nat, Option<Source>)
    requires Valid(m) && m.sources != []
    decreases tries
  {
    if tries == 0 then (next, None)
    else
      var i := Wrapped(next, |m.sources|);
      if m.states[m.sources[i]].last < limit then (i + 1, Some(m.sources[i]))
      else Scan(m, i + 1, limit, tries - 1)
  }

  function Refresh(c: Config, m: Proc, now: int): (Proc, Packet)
    requires Valid(m)
  {
    if m.sources == [] then (m, Idle)
    else
      var (next, found) := Scan(m, m.next, now - c.delay, |m.sources|);
      match found
      case None => (m.(next := next), Idle)
      case Some(s) =>
        ScanFinds(m, m.next, now - c.delay, |m.sources|);
        (Stamp(m.(next := next), s, now), Background(s))
  }

  function Entry(c: Config, m: Proc, now: int): (Proc, Packet)
    requires Valid(m)
  {
    if m.exclusive != NO_EXCLUSIVE then
      var s := m.sources[m.exclusive];
      (Stamp(m, s, now), Exclusive(s))
    else
      var fate := Judge(c, m, now);
      var m1 := Dequeue(m, fate);
      if fate.Sendable? then (Stamp(m1, fate.u.source, now), Urgent(fate.u))
      else Refresh(c, m1, now)
  }

  lemma {:induction false} ScanFinds(m: Proc, next: nat, limit: int, tries: nat)
    requires Valid(m) && m.sources != []
    ensures var found := Scan(m, next, limit, tries).1;
            found.Some? ==> found.value in m.sources && m.states[found.value].last < limit
    decreases tries
  {
    if tries > 0 {
      ScanFinds(m, Wrapped(next, |m.sources|) + 1, limit, tries - 1);
    }
  }

  // ----- Runs -----

  datatype Event =
    | Notify(update: Update) | AddSource(s: Source, priority: nat) | RemoveSource(s: Source) | Call(now: int)

  function Apply(c: Config, m: Proc, e: Event): Proc
    requires Valid(m)
  {
    match e
    case Notify(u) => m.(updates := m.updates + [u])
    case AddSource(s, p) => Add(c, m, s, p)
    case RemoveSource(s) => Remove(c, m, s)
    case Call(now) => Entry(c, m, now).0
  }

  function PacketOf(c: Config, m: Proc, e: Event): Packet
    requires Valid(m)
  {
    if e.Call? then Entry(c, m, e.now).1 else Idle
  }

  lemma ApplyKeepsValid(c: Config, m: Proc, e: Event)
    requires Valid(m)
    ensures Valid(Apply(c, m, e))
  {
    match e
    case Notify(_) =>
    case AddSource(s, p) =>
    case RemoveSource(s) =>
    case Call(now) => EntryKeepsValid(c, m, now);
  }

  lemma EntryKeepsValid(c: Config, m: Proc, now: int)
    requires Valid(m)
    ensures Valid(Entry(c, m, now).0)
    ensures Entry(c, m, now).0.sources == m.sources && Entry(c, m, now).0.exclusive == m.exclusive
  {
    var m1 := Dequeue(m, Judge(c, m, now));
    if m1.sources != [] {
      ScanFinds(m1, m1.next, now - c.delay, |m1.sources|);
    }
  }

  function Run(c: Config, m: Proc, events: seq<Event>): Proc
    requires Valid(m)
    decreases |events|
  {
    if events == [] then m
    else
      ApplyKeepsValid(c, m, events[0]);
      Run(c, Apply(c, m, events[0]), events[1..])
  }

  // ----- Conservation -----

  function Notified(e: Event): multiset<Update> { if e.Notify? then multiset{e.update} else multiset{} }

  function Sent(p: Packet): multiset<Update> { if p.Urgent? then multiset{p.update} else multiset{} }

  /** Updates thrown away because their source is not known. */
  function Discarded(c: Config, m: Proc, e: Event): multiset<Update> {
    if e.Call? && m.exclusive == NO_EXCLUSIVE && m.updates != [] && m.updates[0].source !in m.states
    then multiset{m.updates[0]} else multiset{}
  }

  function AllNotified(events: seq<Event>): multiset<Update>
    decreases |events|
  {
    if events == [] then multiset{} else Notified(events[0]) + AllNotified(events[1..])
  }

  function AllSent(c: Config, m: Proc, events: seq<Event>): multiset<Update>
    requires Valid(m)
    decreases |events|
  {
    if events == [] then multiset{}
    else
      ApplyKeepsValid(c, m, events[0]);
      Sent(PacketOf(c, m, events[0])) + AllSent(c, Apply(c, m, events[0]), events[1..])
  }

  function AllDiscarded(c: Config, m: Proc, events: seq<Event>): multiset<Update>
    requires Valid(m)
    decreases |events|
  {
    if events == [] then multiset{}
    else
      ApplyKeepsValid(c, m, events[0]);
      Discarded(c, m, events[0]) + AllDiscarded(c, Apply(c, m, events[0]), events[1..])
  }

  /** The updates a call leaves behind, and the one it sends: with no exclusive source the first one is
      sent if its source was not served within the delay, put back if it was, and dropped if the source
      is not known. */
  lemma CallUpdates(c: Config, m: Proc, now: int)
    requires Valid(m)
    ensures var (m', p) := Entry(c, m, now);
            if m.exclusive != NO_EXCLUSIVE || m.updates == [] then m'.updates == m.updates && !p.Urgent?
            else
              var u := m.updates[0];
              if u.source !in m.sources then m'.updates == m.updates[1..] && !p.Urgent?
              else if now - m.states[u.source].last < c.delay then m'.updates == m.updates[1..] + [u] && !p.Urgent?
              else m'.updates == m.updates[1..] && p == Urgent(u)
  {
  }

  lemma Rotated(updates: seq<Update>)
    requires updates != []
    ensures multiset(updates) == multiset(updates[1..]) + multiset{updates[0]} == multiset(updates[1..] + [updates[0]])
  {
    assert updates == [updates[0]] + updates[1..];
  }

  lemma {:induction false} CallConserves(c: Config, m: Proc, now: int, m': Proc, p: Packet)
    requires Valid(m) && Entry(c, m, now) == (m', p)
    ensures multiset(m.updates) == multiset(m'.updates) + Sent(p) + Discarded(c, m, Call(now))
  {
    CallUpdates(c, m, now);
    if m.updates != [] {
      Rotated(m.updates);
    }
  }

  lemma ApplyConserves(c: Config, m: Proc, e: Event)
    requires Valid(m)
    ensures multiset(m.updates) + Notified(e)
         == multiset(Apply(c, m, e).updates) + Sent(PacketOf(c, m, e)) + Discarded(c, m, e)
  {
    if e.Call? {
      CallConserves(c, m, e.now, Entry(c, m, e.now).0, Entry(c, m, e.now).1);
    }
  }

  lemma Combine<T>(before: multiset<T>, i1: multiset<T>, i2: multiset<T>, middle: multiset<T>,
                   a1: multiset<T>, b1: multiset<T>, after: multiset<T>, a2: multiset<T>, b2: multiset<T>)
    requires before + i1 == middle + a1 + b1 && middle + i2 == after + a2 + b2
    ensures before + (i1 + i2) == after + (a1 + a2) + (b1 + b2)
  {
    assert before + (i1 + i2) == (middle + i2) + (a1 + b1) by {
      assert before + (i1 + i2) == (before + i1) + i2;
      assert (middle + a1 + b1) + i2 == (middle + i2) + (a1 + b1);
    }
  }

  /** Main result: at all times every urgent update that was ever reported is pending, or was
      sent with its own code, or was discarded because its source was unknown: one of the three,
      as often as it was reported. */
  lemma {:induction false} UpdatesAreConserved(c: Config, m: Proc, events: seq<Event>)
    requires Valid(m)
    ensures multiset(m.updates) + AllNotified(events)
         == multiset(Run(c, m, events).updates) + AllSent(c, m, events) + AllDiscarded(c, m, events)
    decreases |events|
  {
    if events != [] {
      var e := events[0];
      ApplyKeepsValid(c, m, e);
      UpdatesAreConserved(c, Apply(c, m, e), events[1..]);
      var m1, rest := Apply(c, m, e), events[1..];
      ApplyConserves(c, m, e);
      Combine(multiset(m.updates), Notified(e), AllNotified(rest), multiset(m1.updates), Sent(PacketOf(c, m, e)),
              Discarded(c, m, e), multiset(Run(c, m1, rest).updates), AllSent(c, m1, rest), AllDiscarded(c, m1, rest));
    }
  }

  // ----- Spacing -----

  /** The clock readings never go back, starting from `since`. */
  ghost predicate Monotone(since: int, events: seq<Event>)
    decreases |events|
  {
    events == [] ||
    if events[0].Call? then since <= events[0].now && Monotone(events[0].now, events[1..])
    else Monotone(since, events[1..])
  }

  /** The clock after a run: the reading of its last call. */
  function Clock(since: int, events: seq<Event>): int
    decreases |events|
  {
    if events == [] then since
    else Clock(if events[0].Call? then events[0].now else since, events[1..])
  }

  /** The source is added, if at all, only when the clock has passed `ready`. */
  ghost predicate AddedAfter(ready: int, s: Source, since: int, events: seq<Event>)
    decreases |events|
  {
    events == [] ||
    (&& (events[0].AddSource? && events[0].s == s ==> since > ready)
     && AddedAfter(ready, s, if events[0].Call? then events[0].now else since, events[1..]))
  }

  /** If the source is known, its last packet is from `since` or later. */
  ghost predicate SentSince(m: Proc, s: Source, since: int) {
    s in m.states ==> m.states[s].last >= since
  }

  lemma SendStamps(c: Config, m: Proc, now: int, s: Source)
    requires Valid(m)
    ensures var (m', p) := Entry(c, m, now);
            if SentTo(p, s) then s in m'.states && m'.states[s].last == now
            else (s in m'.states <==> s in m.states) && (s in m.states ==> m'.states[s] == m.states[s])
  {
  }

  /** What each kind of packet needs of its source. */
  lemma SendNeeds(c: Config, m: Proc, now: int, s: Source)
    requires Valid(m) && SentTo(Entry(c, m, now).1, s)
    ensures s in m.states
    ensures Entry(c, m, now).1.Urgent? ==> m.states[s].last <= now - c.delay
    ensures Entry(c, m, now).1.Background? ==> m.states[s].last < now - c.delay
  {
    if m.exclusive == NO_EXCLUSIVE && !Judge(c, m, now).Sendable? {
      var m1 := Dequeue(m, Judge(c, m, now));
      if m1.sources != [] {
        ScanFinds(m1, m1.next, now - c.delay, |m1.sources|);
      }
    }
  }

  lemma {:induction false} RunKeepsSentSince(c: Config, m: Proc, s: Source, since: int, time: int, events: seq<Event>)
    requires Valid(m) && AddedAfter(since + c.delay, s, time, events) && since <= time && Monotone(time, events)
    requires SentSince(m, s, since) || time > since + c.delay
    ensures SentSince(Run(c, m, events), s, since) || Clock(time, events) > since + c.delay
    ensures Clock(time, events) >= time
    decreases |events|
  {
    if events != [] {
      var e := events[0];
      ApplyKeepsValid(c, m, e);
      if e.Call? {
        SendStamps(c, m, e.now, s);
      }
      RunKeepsSentSince(c, Apply(c, m, e), s, since, if e.Call? then e.now else time, events[1..]);
    }
  }

  /** Main result: two packets for one source, whatever happens between them, are `delay` apart
      unless the later one is exclusive or the source was added again within the delay after the
      first; a background packet waits even longer than an urgent one. */
  lemma PacketsAreSpaced(c: Config, m: Proc, first: int, between: seq<Event>, second: int, s: Source)
    requires Valid(m) && SentTo(Entry(c, m, first).1, s)
    requires Valid(Entry(c, m, first).0) && Valid(Run(c, Entry(c, m, first).0, between))
    requires Monotone(first, between) && Clock(first, between) <= second
    requires AddedAfter(first + c.delay, s, first, between)
    requires SentTo(Entry(c, Run(c, Entry(c, m, first).0, between), second).1, s)
    ensures var p := Entry(c, Run(c, Entry(c, m, first).0, between), second).1;
            && (p.Urgent? ==> first + c.delay <= second)
            && (p.Background? ==> first + c.delay < second)
  {
    SendStamps(c, m, first, s);
    RunKeepsSentSince(c, Entry(c, m, first).0, s, first, first, between);
    SendNeeds(c, Run(c, Entry(c, m, first).0, between), second, s);
  }

  predicate MayRefresh(c: Config, m: Proc, s: Source, now: int) {
    s in m.states && m.states[s].last < now - c.delay
  }

  predicate MaySend(c: Config, m: Proc, s: Source, now: int) {
    s in m.states && m.states[s].last <= now - c.delay
  }

  /** Adding a known source again at time t lets no later background packet come too early exactly
      when the source has had no packet yet or its last one is more than the delay ago; for urgent
      packets, at least the delay ago. */
  lemma AddKeepsSpacingExactly(c: Config, m: Proc, s: Source, priority: nat, t: int)
    requires Valid(m) && s in m.states
    ensures (forall now | now >= t :: MayRefresh(c, Add(c, m, s, priority), s, now) ==> MayRefresh(c, m, s, now))
            <==> m.states[s].last <= 0 || m.states[s].last + c.delay < t
    ensures (forall now | now >= t :: MaySend(c, Add(c, m, s, priority), s, now) ==> MaySend(c, m, s, now))
            <==> m.states[s].last <= 0 || m.states[s].last + c.delay <= t
  {
    var last, m' := m.states[s].last, Add(c, m, s, priority);
    if last > 0 && t <= last + c.delay {
      assert MayRefresh(c, m', s, last + c.delay);
    }
    if last > 0 && t < last + c.delay {
      assert MaySend(c, m', s, last + c.delay - 1);
    }
  }

  /** A run in which adding a source again makes two background packets come too close. */
  lemma ReAddBreaksSpacing(c: Config, s: Source)
    requires c.delay >= 2 && c.minPriority >= 1
    ensures var m := Proc([], [s], map[s := SourceState(0, 0)], 0, NO_EXCLUSIVE);
            var (m1, p1) := Entry(c, m, c.delay + 1);
            && Valid(m) && p1 == Background(s) && Valid(m1) && Valid(Add(c, m1, s, 0))
            && Entry(c, Add(c, m1, s, 0), c.delay + 2).1 == Background(s)
  {
    var m := Proc([], [s], map[s := SourceState(0, 0)], 0, NO_EXCLUSIVE);
    assert Scan(m, 0, 1, 1) == (1, Some(s));
    var m2 := Add(c, Stamp(m.(next := 1), s, c.delay + 1), s, 0);
    assert m2.sources == [s, s];
    assert Scan(m2, 1, 2, 2) == (2, Some(s));
  }

  // ----- Fairness -----

  /** The scan looks at the source of index i. */
  predicate ScanLooksAt(m: Proc, next: nat, limit: int, tries: nat, i: nat)
    requires Valid(m) && m.sources != []
    decreases tries
  {
    tries > 0 &&
    var j := Wrapped(next, |m.sources|);
    j == i || (m.states[m.sources[j]].last >= limit && ScanLooksAt(m, j + 1, limit, tries - 1, i))
  }

  /** The call gets as far as the background sources. */
  predicate Reaches(c: Config, m: Proc, e: Event) {
    e.Call? && m.exclusive == NO_EXCLUSIVE && !Judge(c, m, e.now).Sendable? && m.sources != []
  }

  predicate LooksAt(c: Config, m: Proc, e: Event, i: nat)
    requires Valid(m)
  {
    Reaches(c, m, e) && ScanLooksAt(m, m.next, e.now - c.delay, |m.sources|, i)
  }

  /** A source that is looked at gets the packet, or had one within the delay. */
  predicate Served(c: Config, m: Proc, e: Event, i: nat)
    requires Valid(m) && e.Call? && i < |m.sources|
  {
    || Entry(c, m, e.now).1 == Background(m.sources[i])
    || m.states[m.sources[i]].last >= e.now - c.delay
  }

  lemma {:induction false} ScanSame(m: Proc, m': Proc, next: nat, limit: int, tries: nat)
    requires Valid(m) && Valid(m') && m.sources == m'.sources != [] && m.states == m'.states
    ensures Scan(m, next, limit, tries) == Scan(m', next, limit, tries)
    decreases tries
  {
    if tries > 0 {
      ScanSame(m, m', Wrapped(next, |m.sources|) + 1, limit, tries - 1);
    }
  }

  lemma {:induction false} ScanServes(m: Proc, next: nat, limit: int, tries: nat, i: nat)
    requires Valid(m) && i < |m.sources| && ScanLooksAt(m, next, limit, tries, i)
    ensures Scan(m, next, limit, tries).1 == Some(m.sources[i]) || m.states[m.sources[i]].last >= limit
    decreases tries
  {
    var j := Wrapped(next, |m.sources|);
    if j != i {
      ScanServes(m, j + 1, limit, tries - 1, i);
    }
  }

  lemma LookedAtIsServed(c: Config, m: Proc, e: Event, i: nat)
    requires Valid(m) && i < |m.sources| && LooksAt(c, m, e, i)
    ensures Served(c, m, e, i)
  {
    ScanServes(m, m.next, e.now - c.delay, |m.sources|, i);
    ScanSame(m, Dequeue(m, Judge(c, m, e.now)), m.next, e.now - c.delay, |m.sources|);
  }

  /** How many sources lie between the next one and index i. */
  function Distance(next: nat, i: nat, n: nat): nat
    requires i < n
  {
    var j := Wrapped(next, n);
    if i >= j then i - j else i + n - j
  }

  /** A scan that misses index i still comes closer to it. */
  lemma {:induction false} ScanApproaches(m: Proc, next: nat, limit: int, tries: nat, i: nat)
    requires Valid(m) && i < |m.sources| && 0 < tries && !ScanLooksAt(m, next, limit, tries, i)
    ensures Distance(Scan(m, next, limit, tries).0, i, |m.sources|) < Distance(next, i, |m.sources|)
    decreases tries
  {
    var n := |m.sources|;
    var j := Wrapped(next, n);
    assert Distance(j + 1, i, n) < Distance(next, i, n);
    if m.states[m.sources[j]].last >= limit && tries > 1 {
      ScanApproaches(m, j + 1, limit, tries - 1, i);
    }
  }

  lemma CallApproaches(c: Config, m: Proc, e: Event, i: nat)
    requires Valid(m) && i < |m.sources| && (e.Call? || e.Notify?)
    ensures Apply(c, m, e).sources == m.sources
    ensures !Reaches(c, m, e) ==> Apply(c, m, e).next == m.next
    ensures Reaches(c, m, e) && !LooksAt(c, m, e, i) ==>
              Distance(Apply(c, m, e).next, i, |m.sources|) < Distance(m.next, i, |m.sources|)
  {
    if Reaches(c, m, e) {
      ScanSame(m, Dequeue(m, Judge(c, m, e.now)), m.next, e.now - c.delay, |m.sources|);
      if !LooksAt(c, m, e, i) {
        ScanApproaches(m, m.next, e.now - c.delay, |m.sources|, i);
      }
    }
  }

  function Scans(c: Config, m: Proc, events: seq<Event>): nat
    requires Valid(m)
    decreases |events|
  {
    if events == [] then 0
    else
      ApplyKeepsValid(c, m, events[0]);
      (if Reaches(c, m, events[0]) then 1 else 0) + Scans(c, Apply(c, m, events[0]), events[1..])
  }

  /** Some call of the run looks at index i, and serves it. */
  predicate ServedDuring(c: Config, m: Proc, events: seq<Event>, i: nat)
    requires Valid(m)
    decreases |events|
  {
    events != [] &&
    (|| (i < |m.sources| && LooksAt(c, m, events[0], i) && Served(c, m, events[0], i))
     || (ApplyKeepsValid(c, m, events[0]); ServedDuring(c, Apply(c, m, events[0]), events[1..], i)))
  }

  lemma {:induction false} ServedAfterDistance(c: Config, m: Proc, events: seq<Event>, i: nat)
    requires Valid(m) && i < |m.sources| && (forall e | e in events :: e.Call? || e.Notify?)
    requires Scans(c, m, events) > Distance(m.next, i, |m.sources|)
    ensures ServedDuring(c, m, events, i)
    decreases |events|
  {
    var e := events[0];
    assert e in events;
    assert forall f | f in events[1..] :: f in events;
    if LooksAt(c, m, e, i) {
      LookedAtIsServed(c, m, e, i);
    } else {
      ApplyKeepsValid(c, m, e);
      CallApproaches(c, m, e, i);
      ServedAfterDistance(c, Apply(c, m, e), events[1..], i);
    }
  }

  /** Main result: with n sources, n calls that reach the background loop, however many other
      calls and updates come between them, serve every source, if none is added or removed
      meanwhile. */
  lemma BackgroundIsFair(c: Config, m: Proc, events: seq<Event>, i: nat)
    requires Valid(m) && i < |m.sources| && (forall e | e in events :: e.Call? || e.Notify?)
    requires Scans(c, m, events) >= |m.sources|
    ensures ServedDuring(c, m, events, i)
  {
    ServedAfterDistance(c, m, events, i);
  }

  // ----- The exclusive source -----

  /** The exclusive index points at a source of the highest priority, if any is exclusive. */
  ghost predicate ExclusiveIsHighest(c: Config, m: Proc)
    requires Valid(m)
  {
    if m.exclusive == NO_EXCLUSIVE then forall s | s in m.sources :: m.states[s].priority < c.minPriority
    else
      && m.states[m.sources[m.exclusive]].priority >= c.minPriority
      && forall s | s in m.sources :: m.states[s].priority <= m.states[m.sources[m.exclusive]].priority
  }

  /** What adding a source needs for that: only the exclusive source itself, added again, can fall
      behind; and the index that reads as "none" must not be given out. */
  predicate AddFits(c: Config, m: Proc, s: Source, priority: nat)
    requires Valid(m)
  {
    && (m.exclusive != NO_EXCLUSIVE && m.sources[m.exclusive] == s ==>
          priority >= c.minPriority && forall t | t in m.sources && t != s :: m.states[t].priority <= priority)
    && !(|m.sources| == NO_EXCLUSIVE && m.exclusive == NO_EXCLUSIVE && priority >= c.minPriority)
    && !(|m.sources| == NO_EXCLUSIVE && m.exclusive != NO_EXCLUSIVE && m.sources[m.exclusive] != s
         && priority > m.states[m.sources[m.exclusive]].priority)
  }

  lemma AddedMembers(c: Config, m: Proc, s: Source, priority: nat)
    requires Valid(m)
    ensures var m' := Add(c, m, s, priority);
            && (forall t :: t in m'.sources <==> t == s || t in m.sources)
            && (forall t | t in m.sources && t != s :: t in m'.states && m'.states[t] == m.states[t])
            && s in m'.states && m'.states[s].priority == priority
            && m'.sources[|m.sources|] == s && (forall i | 0 <= i < |m.sources| :: m'.sources[i] == m.sources[i])
  {
  }

  /** Adding a source, known or not, keeps the exclusive index right exactly when it fits. */
  lemma AddKeepsExclusiveExactly(c: Config, m: Proc, s: Source, priority: nat)
    requires Valid(m) && ExclusiveIsHighest(c, m) && c.minPriority > 0
    ensures Valid(Add(c, m, s, priority))
    ensures ExclusiveIsHighest(c, Add(c, m, s, priority)) <==> AddFits(c, m, s, priority)
  {
    AddedMembers(c, m, s, priority);
    var m' := Add(c, m, s, priority);
    if m.exclusive != NO_EXCLUSIVE {
      assert m.sources[m.exclusive] in m.sources;
    }
    assert s in m'.sources;
    assert m'.exclusive != NO_EXCLUSIVE ==> m'.sources[m'.exclusive] in m'.sources;
  }

  /** Index k is the last one among those of the highest priority, and that priority is exclusive. */
  predicate LastTop(c: Config, sources: seq<Source>, states: map<Source, SourceState>, k: nat)
    requires forall s | s in sources :: s in states
  {
    && k < |sources| && states[sources[k]].priority >= c.minPriority
    && (forall i | 0 <= i < |sources| :: states[sources[i]].priority <= states[sources[k]].priority)
    && (forall i | k < i < |sources| :: states[sources[i]].priority < states[sources[k]].priority)
  }

  lemma {:induction false} LaterAreLower(c: Config, sources: seq<Source>, states: map<Source, SourceState>)
    requires forall s | s in sources :: s in states
    ensures var best := Highest(c, sources, states);
            best.Some? ==> forall i | best.value < i < |sources| ::
              states[sources[i]].priority < states[sources[best.value]].priority
    decreases |sources|
  {
    if sources != [] {
      var init := sources[..|sources| - 1];
      assert forall i | 0 <= i < |init| :: init[i] == sources[i];
      LaterAreLower(c, init, states);
    }
  }

  lemma HighestIsLastTop(c: Config, sources: seq<Source>, states: map<Source, SourceState>, k: nat)
    requires forall s | s in sources :: s in states
    ensures Highest(c, sources, states) == Some(k) <==> LastTop(c, sources, states, k)
  {
    var best := Highest(c, sources, states);
    LaterAreLower(c, sources, states);
    assert forall i | 0 <= i < |sources| :: sources[i] in sources;
  }

  lemma {:induction false} HighestSame(c: Config, sources: seq<Source>, a: map<Source, SourceState>, b: map<Source, SourceState>)
    requires forall s | s in sources :: s in a && s in b && a[s] == b[s]
    ensures Highest(c, sources, a) == Highest(c, sources, b)
    decreases |sources|
  {
    if sources != [] {
      HighestSame(c, sources[..|sources| - 1], a, b);
    }
  }

  /** Removing a source recomputes the index, which is then right unless the last source of the
      highest priority among the remaining ones is exclusive and stands at the index that reads as
      "none". */
  lemma RemoveKeepsExclusiveExactly(c: Config, m: Proc, s: Source)
    requires Valid(m)
    ensures Valid(Remove(c, m, s))
    ensures ExclusiveIsHighest(c, Remove(c, m, s)) <==> !LastTop(c, Without(m.sources, s), m.states, NO_EXCLUSIVE)
  {
    var rest := Without(m.sources, s);
    var best := Highest(c, rest, m.states - {s});
    HighestSame(c, rest, m.states - {s}, m.states);
    HighestIsLastTop(c, rest, m.states, NO_EXCLUSIVE);
    if best == Some(NO_EXCLUSIVE) {
      assert rest[NO_EXCLUSIVE] in rest;
    }
  }

  predicate EventFits(c: Config, m: Proc, e: Event)
    requires Valid(m)
  {
    match e
    case AddSource(s, p) => AddFits(c, m, s, p)
    case RemoveSource(s) => !LastTop(c, Without(m.sources, s), m.states, NO_EXCLUSIVE)
    case _ => true
  }

  lemma EventKeepsExclusiveExactly(c: Config, m: Proc, e: Event)
    requires Valid(m) && ExclusiveIsHighest(c, m) && c.minPriority > 0
    ensures Valid(Apply(c, m, e))
    ensures ExclusiveIsHighest(c, Apply(c, m, e)) <==> EventFits(c, m, e)
  {
    match e
    case Notify(_) =>
    case AddSource(s, p) => AddKeepsExclusiveExactly(c, m, s, p);
    case RemoveSource(s) => RemoveKeepsExclusiveExactly(c, m, s);
    case Call(now) => CallKeepsPriorities(c, m, now);
  }

  /** In every state of the run, the first included, the exclusive index is right. */
  ghost predicate AlwaysHighest(c: Config, m: Proc, events: seq<Event>)
    requires Valid(m)
    decreases |events|
  {
    ExclusiveIsHighest(c, m) &&
    (events == [] || (ApplyKeepsValid(c, m, events[0]); AlwaysHighest(c, Apply(c, m, events[0]), events[1..])))
  }

  predicate AllFit(c: Config, m: Proc, events: seq<Event>)
    requires Valid(m)
    decreases |events|
  {
    events == [] ||
    (EventFits(c, m, events[0]) && (ApplyKeepsValid(c, m, events[0]); AllFit(c, Apply(c, m, events[0]), events[1..])))
  }

  /** Main result: over any run the exclusive index always points at a source of the highest
      exclusive priority, if there is one, exactly when every event fits. */
  lemma {:induction false} ExclusiveAlwaysHighestExactly(c: Config, m: Proc, events: seq<Event>)
    requires Valid(m) && ExclusiveIsHighest(c, m) && c.minPriority > 0
    ensures AlwaysHighest(c, m, events) <==> AllFit(c, m, events)
    decreases |events|
  {
    if events != [] {
      EventKeepsExclusiveExactly(c, m, events[0]);
      if EventFits(c, m, events[0]) {
        ExclusiveAlwaysHighestExactly(c, Apply(c, m, events[0]), events[1..]);
      }
    }
  }

  // ----- Who gets the packet -----

  predicate SomeoneExclusive(c: Config, m: Proc)
    requires Valid(m)
  {
    exists s | s in m.sources :: m.states[s].priority >= c.minPriority
  }

  /** The priorities decide: with an exclusive source in the list, the packet goes to one of the
      highest priority, and neither the urgent updates nor the background refresh move; without
      one, they alone are served. */
  ghost predicate ServesRight(c: Config, m: Proc, now: int)
    requires Valid(m)
  {
    var (m', p) := Entry(c, m, now);
    if SomeoneExclusive(c, m) then
      && p.Exclusive? && p.s in m.sources && (forall t | t in m.sources :: m.states[t].priority <= m.states[p.s].priority)
      && m'.updates == m.updates && m'.next == m.next
    else !p.Exclusive?
  }

  lemma EntryPacket(c: Config, m: Proc, now: int)
    requires Valid(m)
    ensures var (m', p) := Entry(c, m, now);
            && (p.Exclusive? <==> m.exclusive != NO_EXCLUSIVE)
            && (p.Exclusive? ==> p.s == m.sources[m.exclusive] && m'.updates == m.updates && m'.next == m.next)
  {
  }

  /** A call does right exactly while the exclusive index does. */
  lemma ServesRightExactly(c: Config, m: Proc, now: int)
    requires Valid(m)
    ensures ServesRight(c, m, now) <==> ExclusiveIsHighest(c, m)
  {
    EntryPacket(c, m, now);
    if m.exclusive != NO_EXCLUSIVE {
      assert m.sources[m.exclusive] in m.sources;
    }
  }

  /** In every state of the run, the first included, a call would do right at any time. */
  ghost predicate AlwaysServesRight(c: Config, m: Proc, events: seq<Event>)
    requires Valid(m)
    decreases |events|
  {
    (forall now :: ServesRight(c, m, now)) &&
    (events == [] || (ApplyKeepsValid(c, m, events[0]); AlwaysServesRight(c, Apply(c, m, events[0]), events[1..])))
  }

  lemma {:induction false} AlwaysRightIsAlwaysHighest(c: Config, m: Proc, events: seq<Event>)
    requires Valid(m)
    ensures AlwaysServesRight(c, m, events) <==> AlwaysHighest(c, m, events)
    decreases |events|
  {
    forall now {
      ServesRightExactly(c, m, now);
    }
    assert (forall now :: ServesRight(c, m, now)) <==> ExclusiveIsHighest(c, m) by {
      assert ServesRight(c, m, 0) <==> ExclusiveIsHighest(c, m);
    }
    if events != [] {
      ApplyKeepsValid(c, m, events[0]);
      AlwaysRightIsAlwaysHighest(c, Apply(c, m, events[0]), events[1..]);
    }
  }

  /** Main result: over any run every call serves a source of the highest exclusive priority, if
      any source is exclusive, and only then leaves the urgent updates and the background waiting,
      exactly when every event fits. */
  lemma HighestIsServedExactly(c: Config, m: Proc, events: seq<Event>)
    requires Valid(m) && ExclusiveIsHighest(c, m) && c.minPriority > 0
    ensures AlwaysServesRight(c, m, events) <==> AllFit(c, m, events)
  {
    AlwaysRightIsAlwaysHighest(c, m, events);
    ExclusiveAlwaysHighestExactly(c, m, events);
  }

  /** While fewer than 2047 sources are listed and none is added twice, everything fits. */
  lemma FreshSourcesFit(c: Config, m: Proc, e: Event)
    requires Valid(m) && |m.sources| < NO_EXCLUSIVE && (e.AddSource? ==> e.s !in m.sources)
    ensures EventFits(c, m, e)
  {
    if e.RemoveSource? {
      WithoutShorter(m.sources, e.s);
    }
  }

  /** With 2047 sources, the next one never becomes exclusive. */
  lemma ExclusiveAtTheLimit(c: Config, m: Proc, s: Source, priority: nat)
    requires Valid(m) && |m.sources| == NO_EXCLUSIVE && m.exclusive == NO_EXCLUSIVE
    requires priority >= c.minPriority > 0
    ensures Add(c, m, s, priority).exclusive == NO_EXCLUSIVE && !ExclusiveIsHighest(c, Add(c, m, s, priority))
  {
    AddedMembers(c, m, s, priority);
    assert s in Add(c, m, s, priority).sources;
  }

  /** An exclusive source that is added again with a low priority stays the exclusive one. */
  lemma ReAddKeepsStaleExclusive(c: Config, m: Proc, priority: nat)
    requires Valid(m) && ExclusiveIsHighest(c, m) && m.exclusive != NO_EXCLUSIVE && priority < c.minPriority
    ensures var m' := Add(c, m, m.sources[m.exclusive], priority);
            m'.exclusive == m.exclusive && !ExclusiveIsHighest(c, m')
  {
    AddedMembers(c, m, m.sources[m.exclusive], priority);
  }

  lemma {:induction false} WithoutShorter(sources: seq<Source>, s: Source)
    ensures |Without(sources, s)| <= |sources|
  {
    if sources != [] {
      WithoutShorter(sources[..|sources| - 1], s);
    }
  }

  lemma CallKeepsPriorities(c: Config, m: Proc, now: int)
    requires Valid(m)
    ensures var m' := Entry(c, m, now).0;
            && Valid(m') && m'.sources == m.sources && m'.exclusive == m.exclusive
            && forall s | s in m.states :: s in m'.states && m'.states[s].priority == m.states[s].priority
  {
    EntryKeepsValid(c, m, now);
  }
}
