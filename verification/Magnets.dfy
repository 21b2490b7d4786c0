/** The turnout magnet driver: one automaton drives two coils for each of n magnets, and its
    state doubles as the lock that keeps all but one coil off. */
module Magnets {

  datatype State = Base | Pulling(magnet: nat)

  /** `set0` and `set1` are the coil outputs, `current` the position each magnet is believed in. */
  datatype Driver = Driver(state: State, timer: nat, command: seq<bool>, current: seq<bool>,
                           set0: seq<bool>, set1: seq<bool>)

  predicate Fits(d: Driver, n: nat) {
    |d.command| == |d.current| == |d.set0| == |d.set1| == n
  }

  /** The rules of magnet k, in program order. */
  datatype Rule = Pull1 | Pull0 | Release1 | Release0 | SwitchOff

  function Fire(d: Driver, k: nat, rule: Rule): (d': Driver)
    requires k < |d.command| && Fits(d, |d.command|)
    ensures Fits(d', |d.command|) && d'.command == d.command
  {
    match rule
    case Pull1 =>
      if d.state == Base && d.timer == 0 && d.command[k] && !d.current[k] then
        d.(state := Pulling(k), timer := 1, set1 := d.set1[k := true])
      else d
    case Pull0 =>
      if d.state == Base && d.timer == 0 && !d.command[k] && d.current[k] then
        d.(state := Pulling(k), timer := 1, set0 := d.set0[k := true])
      else d
    case Release1 =>
      if d.state == Pulling(k) && d.timer == 0 && d.set1[k] then
        d.(set1 := d.set1[k := false], current := d.current[k := true], state := Base)
      else d
    case Release0 =>
      if d.state == Pulling(k) && d.timer == 0 && d.set0[k] then
        d.(current := d.current[k := false], set0 := d.set0[k := false], state := Base)
      else d
    case SwitchOff =>
      if d.state == Base then d.(set0 := d.set0[k := false], set1 := d.set1[k := false]) else d
  }

  /** The last rule of a pass: magnets are only pulled at ticks. */
  function Rest(d: Driver): Driver {
    if d.state == Base && d.timer == 0 then d.(timer := 1) else d
  }

  function Tick(d: Driver): Driver {
    d.(timer := if d.timer > 0 then d.timer - 1 else 0)
  }

  // ----- At most one coil -----

  /** Anything that can happen, in any order: a rule of some magnet, the last rule, a tick, or
      a new command from elsewhere on the layout. */
  datatype Event = FireRule(k: nat, rule: Rule) | RestRule | TickEvent | Command(k: nat, on: bool)

  function Apply(d: Driver, e: Event): (d': Driver)
    requires Fits(d, |d.command|)
    ensures Fits(d', |d.command|)
  {
    match e
    case FireRule(k, rule) => if k < |d.command| then Fire(d, k, rule) else d
    case RestRule => Rest(d)
    case TickEvent => Tick(d)
    case Command(k, on) => if k < |d.command| then d.(command := d.command[k := on]) else d
  }

  function Run(d: Driver, events: seq<Event>): (d': Driver)
    requires Fits(d, |d.command|)
    ensures Fits(d', |d.command|)
    decreases |events|
  {
    if events == [] then d else Run(Apply(d, events[0]), events[1..])
  }

  /** After the boot pass: every coil off, positions assumed opposite to the commands. */
  function Boot(command: seq<bool>): (d: Driver)
    ensures Fits(d, |command|) && Inv(d)
    ensures d.command == command && forall k | 0 <= k < |command| :: d.current[k] != command[k]
  {
    Driver(Base, 0, command, seq(|command|, k requires 0 <= k < |command| => !command[k]),
           seq(|command|, _ => false), seq(|command|, _ => false))
  }

  /** A coil is on exactly while the automaton is in its magnet's state, and only one of the two. */
  ghost predicate Inv(d: Driver) {
    && Fits(d, |d.command|)
    && d.timer <= 1
    && (d.state.Pulling? ==> d.state.magnet < |d.command| && d.set0[d.state.magnet] != d.set1[d.state.magnet])
    && (forall k | 0 <= k < |d.command| && d.state != Pulling(k) :: !d.set0[k] && !d.set1[k])
  }

  lemma FireKeepsInv(d: Driver, k: nat, rule: Rule)
    requires Inv(d) && k < |d.command|
    ensures Inv(Fire(d, k, rule))
  {
  }

  lemma {:induction false} RunKeepsInv(d: Driver, events: seq<Event>)
    requires Inv(d)
    ensures Inv(Run(d, events))
    decreases |events|
  {
    if events != [] {
      if events[0].FireRule? && events[0].k < |d.command| {
        FireKeepsInv(d, events[0].k, events[0].rule);
      }
      RunKeepsInv(Apply(d, events[0]), events[1..]);
    }
  }

  function Coil(d: Driver, k: nat, one: bool): bool
    requires Fits(d, |d.command|) && k < |d.command|
  {
    if one then d.set1[k] else d.set0[k]
  }

  /** Main result: whatever the commands do and in whatever order rules fire, two coils that are
      on are the same coil. */
  lemma AtMostOneCoil(command: seq<bool>, events: seq<Event>, j: nat, one: bool, k: nat, other: bool)
    requires j < |Run(Boot(command), events).command| && k < |Run(Boot(command), events).command|
    ensures var d := Run(Boot(command), events);
            Coil(d, j, one) && Coil(d, k, other) ==> j == k && one == other
  {
    RunKeepsInv(Boot(command), events);
  }

  // ----- Boot -----

  /** The coil was on in some state of the run. */
  predicate OnDuring(d: Driver, events: seq<Event>, k: nat, one: bool)
    requires Fits(d, |d.command|) && k < |d.command|
    decreases |events|
  {
    Coil(d, k, one) || (events != [] && OnDuring(Apply(d, events[0]), events[1..], k, one))
  }

  lemma EventReaches(d: Driver, e: Event, k: nat)
    requires Inv(d) && k < |d.command| && e != Command(k, !d.command[k]) && d.current[k] != d.command[k]
    ensures Inv(Apply(d, e)) && |Apply(d, e).command| == |d.command| && Apply(d, e).command[k] == d.command[k]
    ensures Apply(d, e).current[k] == d.command[k] ==> Coil(d, k, d.command[k])
  {
    if e.FireRule? && e.k < |d.command| {
      FireKeepsInv(d, e.k, e.rule);
      FireReaches(d, e.k, e.rule, k);
    }
  }

  lemma FireReaches(d: Driver, i: nat, rule: Rule, k: nat)
    requires Inv(d) && k < |d.command| && i < |d.command| && d.current[k] != d.command[k]
    ensures Fire(d, i, rule).current[k] == d.command[k] ==> Coil(d, k, d.command[k])
  {
  }

  lemma {:induction false} ReachedByCoil(d: Driver, events: seq<Event>, k: nat)
    requires Inv(d) && k < |d.command| && Command(k, !d.command[k]) !in events && d.current[k] != d.command[k]
    ensures Run(d, events).command[k] == d.command[k]
    ensures Run(d, events).current[k] == d.command[k] ==> OnDuring(d, events, k, d.command[k])
    decreases |events|
  {
    KeepsCommand(d, events, k);
    if events != [] {
      var d' := Apply(d, events[0]);
      EventReaches(d, events[0], k);
      if d'.current[k] != d.command[k] {
        ReachedByCoil(d', events[1..], k);
      }
    }
  }

  lemma {:induction false} KeepsCommand(d: Driver, events: seq<Event>, k: nat)
    requires Fits(d, |d.command|) && k < |d.command| && Command(k, !d.command[k]) !in events
    ensures |Run(d, events).command| == |d.command| && Run(d, events).command[k] == d.command[k]
    decreases |events|
  {
    if events != [] {
      KeepsCommand(Apply(d, events[0]), events[1..], k);
    }
  }

  /** Boot trusts no position: in any run from there a magnet is believed to be where it was commanded
      only after the coil of that side has been on. */
  lemma EveryMagnetIsPulled(command: seq<bool>, events: seq<Event>, k: nat)
    requires k < |command| && Command(k, !command[k]) !in events
    ensures Run(Boot(command), events).current[k] == command[k] ==> OnDuring(Boot(command), events, k, command[k])
  {
    ReachedByCoil(Boot(command), events, k);
  }

  // ----- Settling -----

  /** What the five rules of magnet k do in one go. */
  function MagnetPass(d: Driver, k: nat): (d': Driver)
    requires k < |d.command| && Fits(d, |d.command|)
    ensures Fits(d', |d.command|) && d'.command == d.command
  {
    if d.state == Base then
      if d.timer == 0 && d.command[k] != d.current[k] then
        d.(state := Pulling(k), timer := 1,
           set0 := if d.command[k] then d.set0 else d.set0[k := true],
           set1 := if d.command[k] then d.set1[k := true] else d.set1)
      else d.(set0 := d.set0[k := false], set1 := d.set1[k := false])
    else if d.state == Pulling(k) && d.timer == 0 && (d.set0[k] || d.set1[k]) then
      d.(state := Base, current := d.current[k := d.set1[k]], set0 := d.set0[k := false], set1 := d.set1[k := false])
    else d
  }

  lemma RulesAreMagnetPass(d: Driver, k: nat)
    requires k < |d.command| && Fits(d, |d.command|)
    ensures Fire(Fire(Fire(Fire(Fire(d, k, Pull1), k, Pull0), k, Release1), k, Release0), k, SwitchOff) == MagnetPass(d, k)
  {
  }

  /** The first k magnets of a pass. */
  function Magnets(d: Driver, k: nat): (d': Driver)
    requires k <= |d.command| && Fits(d, |d.command|)
    ensures Fits(d', |d.command|) && d'.command == d.command
  {
    if k == 0 then d else MagnetPass(Magnets(d, k - 1), k - 1)
  }

  function Pass(d: Driver): (d': Driver)
    requires Fits(d, |d.command|)
    ensures Fits(d', |d.command|) && d'.command == d.command
  {
    Rest(Magnets(d, |d.command|))
  }

  /** Where magnet k is heading: a coil that is on decides, else the current position. */
  function Heading(d: Driver, k: nat): bool
    requires k < |d.command| && Fits(d, |d.command|)
  {
    if d.state == Pulling(k) then d.set1[k] else d.current[k]
  }

  /** How many of the first k magnets are not heading to their commanded position. */
  function Astray(d: Driver, k: nat): nat
    requires k <= |d.command| && Fits(d, |d.command|)
  {
    if k == 0 then 0 else Astray(d, k - 1) + if Heading(d, k - 1) != d.command[k - 1] then 1 else 0
  }

  /** Two ticks of work for each of them, one for a pull under way. */
  function Work(d: Driver): nat
    requires Fits(d, |d.command|)
  {
    2 * Astray(d, |d.command|) + if d.state == Base then 0 else 1
  }

  predicate Settled(d: Driver)
    requires Fits(d, |d.command|)
  {
    d.state == Base && d.current == d.command
  }

  lemma {:induction false} AstraySame(d: Driver, d': Driver, k: nat)
    requires Fits(d, |d.command|) && Fits(d', |d.command|) && d'.command == d.command && k <= |d.command|
    requires forall j | 0 <= j < k :: Heading(d', j) == Heading(d, j)
    ensures Astray(d', k) == Astray(d, k)
  {
    if k > 0 {
      AstraySame(d, d', k - 1);
    }
  }

  /** One magnet turned right. */
  lemma {:induction false} AstrayOneLess(d: Driver, d': Driver, i: nat, k: nat)
    requires Fits(d, |d.command|) && Fits(d', |d.command|) && d'.command == d.command && i < k <= |d.command|
    requires Heading(d, i) != d.command[i] && Heading(d', i) == d.command[i]
    requires forall j | 0 <= j < k && j != i :: Heading(d', j) == Heading(d, j)
    ensures Astray(d', k) + 1 == Astray(d, k)
  {
    if i == k - 1 {
      AstraySame(d, d', k - 1);
    } else {
      AstrayOneLess(d, d', i, k - 1);
    }
  }

  lemma AstrayBound(d: Driver, k: nat)
    requires k <= |d.command| && Fits(d, |d.command|)
    ensures Astray(d, k) <= k
    ensures Astray(d, k) == 0 ==> forall j | 0 <= j < k :: Heading(d, j) == d.command[j]
  {
  }

  /** A magnet's rules either change nothing or bring the work down. */
  lemma MagnetPassWorks(d: Driver, k: nat)
    requires Inv(d) && k < |d.command|
    ensures Inv(MagnetPass(d, k))
    ensures MagnetPass(d, k) == d || Work(MagnetPass(d, k)) < Work(d)
    ensures d.timer == 0 && (d.state == Pulling(k) || (d.state == Base && d.current[k] != d.command[k])) ==> MagnetPass(d, k) != d
  {
    var d' := MagnetPass(d, k);
    RulesKeepInv(d, k);
    if d.state == Base && d.timer == 0 && d.command[k] != d.current[k] {
      AstrayOneLess(d, d', k, |d.command|);
    } else if d.state == Base {
      assert d'.set0 == d.set0 && d'.set1 == d.set1;
    } else if d.state == Pulling(k) && d.timer == 0 {
      AstraySame(d, d', |d.command|);
    }
  }

  lemma RulesKeepInv(d: Driver, k: nat)
    requires Inv(d) && k < |d.command|
    ensures Inv(MagnetPass(d, k))
  {
  }

  lemma {:induction false} MagnetsWork(d: Driver, k: nat)
    requires Inv(d) && k <= |d.command|
    ensures Inv(Magnets(d, k))
    ensures Magnets(d, k) == d || Work(Magnets(d, k)) < Work(d)
    ensures d.timer == 0 && Magnets(d, k) == d ==>
              forall j | 0 <= j < k :: d.state != Pulling(j) && (d.state == Base ==> d.current[j] == d.command[j])
  {
    if k > 0 {
      MagnetsWork(d, k - 1);
      MagnetPassWorks(Magnets(d, k - 1), k - 1);
    }
  }

  /** A pass never adds work; the first pass after a tick removes some, until all is settled. */
  lemma PassWorks(d: Driver)
    requires Inv(d)
    ensures Inv(Pass(d)) && Work(Pass(d)) <= Work(d)
    ensures d.timer == 0 && !Settled(d) ==> Work(Pass(d)) < Work(d)
  {
    var n := |d.command|;
    MagnetsWork(d, n);
    AstraySame(Magnets(d, n), Pass(d), n);
    if d.timer == 0 && Magnets(d, n) == d {
      assert d.state == Base;
      assert d.current == d.command;
    }
  }

  lemma NoWorkMeansSettled(d: Driver)
    requires Inv(d) && Work(d) == 0
    ensures Settled(d)
  {
    AstrayBound(d, |d.command|);
  }

  /** A run with unchanged commands: passes, some of them right after a tick. */
  function Passes(d: Driver, ticked: seq<bool>): (d': Driver)
    requires Fits(d, |d.command|)
    ensures Fits(d', |d.command|) && d'.command == d.command
    decreases |ticked|
  {
    if ticked == [] then d else Passes(Pass(if ticked[0] then Tick(d) else d), ticked[1..])
  }

  function Ticks(ticked: seq<bool>): nat {
    if ticked == [] then 0 else (if ticked[0] then 1 else 0) + Ticks(ticked[1..])
  }

  lemma SettledStays(d: Driver)
    requires Inv(d) && Settled(d)
    ensures Work(d) == 0
  {
    AstrayAllRight(d, |d.command|);
  }

  lemma {:induction false} AstrayAllRight(d: Driver, k: nat)
    requires Inv(d) && Settled(d) && k <= |d.command|
    ensures Astray(d, k) == 0
  {
    if k > 0 {
      AstrayAllRight(d, k - 1);
    }
  }

  lemma {:induction false} PassesWork(d: Driver, ticked: seq<bool>)
    requires Inv(d)
    ensures Inv(Passes(d, ticked))
    ensures Work(Passes(d, ticked)) + Ticks(ticked) <= Work(d) || Work(Passes(d, ticked)) == 0
    decreases |ticked|
  {
    if ticked != [] {
      var t := if ticked[0] then Tick(d) else d;
      AstraySame(d, t, |d.command|);
      PassWorks(t);
      if Settled(t) {
        SettledStays(t);
      }
      PassesWork(Pass(t), ticked[1..]);
    }
  }

  /** Main result: with steady commands 2n+1 ticks settle n magnets, whatever the driver was
      doing: every magnet is where it is commanded and every coil is off. */
  lemma SettlesWithinTicks(d: Driver, ticked: seq<bool>)
    requires Inv(d) && Ticks(ticked) >= 2 * |d.command| + 1
    ensures var d' := Passes(d, ticked);
            Settled(d') && d'.command == d.command && forall k | 0 <= k < |d.command| :: !d'.set0[k] && !d'.set1[k]
  {
    PassesWork(d, ticked);
    AstrayBound(d, |d.command|);
    NoWorkMeansSettled(Passes(d, ticked));
  }

  // ----- Pulses -----

  lemma {:induction false} WaitingMagnets(d: Driver, k: nat)
    requires Inv(d) && d.timer == 1 && k <= |d.command|
    ensures Magnets(d, k) == d
  {
    if k > 0 {
      WaitingMagnets(d, k - 1);
      if d.state == Base {
        assert d.set0[k - 1 := false] == d.set0 && d.set1[k - 1 := false] == d.set1;
      }
    }
  }

  /** After k magnets either the timer runs, or nothing is being pulled, or a magnet still to come is. */
  lemma {:induction false} MagnetsTimer(d: Driver, k: nat)
    requires Inv(d) && k <= |d.command|
    ensures var d' := Magnets(d, k);
            Inv(d') && (d'.timer == 1 || d'.state == Base || d'.state.magnet >= k)
  {
    if k > 0 {
      MagnetsTimer(d, k - 1);
      RulesKeepInv(Magnets(d, k - 1), k - 1);
    }
  }

  lemma PassStartsTimer(d: Driver)
    requires Inv(d)
    ensures Inv(Pass(d)) && Pass(d).timer == 1
  {
    MagnetsTimer(d, |d.command|);
  }

  /** Main result: coils are switched only by the first pass after a tick.  Once a pass has been made,
      further ones do nothing until the next tick, whatever is commanded meanwhile; so a coil that is
      pulled stays on for a full tick. */
  lemma CoilsSwitchAtTicks(d: Driver, command: seq<bool>)
    requires Inv(d) && |command| == |d.command|
    ensures var d1 := Pass(d).(command := command); Pass(d1) == d1
  {
    PassStartsTimer(d);
    WaitingMagnets(Pass(d).(command := command), |command|);
  }

  // ----- The automaton in place -----

  class MagnetAutomaton {
    var state: State
    var timer: nat
    var command: seq<bool>
    var current: seq<bool>
    var set0: seq<bool>
    var set1: seq<bool>

    ghost function Value(): Driver
      reads this
    {
      Driver(state, timer, command, current, set0, set1)
    }

    constructor (command: seq<bool>)
      ensures Value() == Boot(command)
    {
      this.state, this.timer, this.command := Base, 0, command;
      this.current := seq(|command|, k requires 0 <= k < |command| => !command[k]);
      this.set0, this.set1 := seq(|command|, _ => false), seq(|command|, _ => false);
    }

    method MagnetEntry(k: nat)
      requires k < |command| && Fits(Value(), |command|)
      modifies this`state, this`timer, this`current, this`set0, this`set1
      ensures Value() == MagnetPass(old(Value()), k)
    {
      if state == Base && timer == 0 && command[k] && !current[k] {
        state := Pulling(k);
        timer := 1;
        set1 := set1[k := true];
      }
      if state == Base && timer == 0 && !command[k] && current[k] {
        state := Pulling(k);
        timer := 1;
        set0 := set0[k := true];
      }
      if state == Pulling(k) && timer == 0 && set1[k] {
        set1 := set1[k := false];
        current := current[k := true];
        state := Base;
      }
      if state == Pulling(k) && timer == 0 && set0[k] {
        current := current[k := false];
        set0 := set0[k := false];
        state := Base;
      }
      if state == Base {
        set0 := set0[k := false];
        set1 := set1[k := false];
      }
    }

    method RunPass()
      requires Fits(Value(), |command|)
      modifies this`state, this`timer, this`current, this`set0, this`set1
      ensures Value() == Pass(old(Value()))
    {
      ghost var start := Value();
      for k := 0 to |command|
        invariant Fits(Value(), |command|) && Value() == Magnets(start, k)
      {
        MagnetEntry(k);
      }
      if state == Base && timer == 0 {
        timer := 1;
      }
    }
  }
}
