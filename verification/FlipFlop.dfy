/** The permit arbiter: n clients share one permit, handed out in turn, with stealing when the
    client whose turn it is has no use for it. */
module FlipFlop {
  import Arith

  datatype State = Free | Locked | Granted | GrantWait | Stolen | StolenWait | StealOnHold

  const WAIT_TIMEOUT: nat := 3
  const STEAL_HOLD: nat := 2

  /** The bits of the automaton and of its clients. */
  datatype Arbiter = Arbiter(
    state: State, timer: nat, stealRequest: bool, stealGranted: bool,
    request: seq<bool>, granted: seq<bool>, taken: seq<bool>, next: seq<bool>)

  /** The rules emitted for every client, in program order. */
  datatype Rule =
    | Lock | Grant | Redact | Take | Advance
    | AskSteal | EndSteal | Steal | StolenRedact | StolenTake | Hold | Yield | KeepControl | Return

  const RULE_COUNT: nat := 14

  function RuleAt(k: nat): Rule
    requires k < RULE_COUNT
  {
    match k
    case 0 => Lock
    case 1 => Grant
    case 2 => Redact
    case 3 => Take
    case 4 => Advance
    case 5 => AskSteal
    case 6 => EndSteal
    case 7 => Steal
    case 8 => StolenRedact
    case 9 => StolenTake
    case 10 => Hold
    case 11 => Yield
    case 12 => KeepControl
    case _ => Return
  }

  predicate Fits(a: Arbiter, n: nat) {
    |a.request| == |a.granted| == |a.taken| == |a.next| == n
  }

  /** One rule for client i. */
  function Fire(a: Arbiter, i: nat, rule: Rule): (a': Arbiter)
    requires i < |a.request| && Fits(a, |a.request|)
    ensures Fits(a', |a.request|) && a'.request == a.request
  {
    match rule
    case Lock => if a.state == Free then a.(state := Locked, next := a.next[i := true]) else a
    case Grant =>
      if a.state == Locked && a.next[i] && a.request[i] then
        a.(state := Granted, granted := a.granted[i := true])
      else a
    case Redact =>
      if a.state == Granted && a.next[i] && a.granted[i] && !a.request[i] then
        a.(state := Locked, granted := a.granted[i := false])
      else a
    case Take =>
      if a.state == Granted && a.next[i] && a.taken[i] then
        a.(taken := a.taken[i := false], state := GrantWait, timer := WAIT_TIMEOUT)
      else a
    case Advance =>
      if a.state == GrantWait && a.next[i] && a.timer == 0 then a.(next := a.next[i := false], state := Free) else a
    case AskSteal => if a.state == Locked && !a.next[i] && a.request[i] then a.(stealRequest := true) else a
    case EndSteal => if a.state == GrantWait then a.(stealRequest := false, stealGranted := false) else a
    case Steal =>
      if a.state == Locked && !a.next[i] && a.request[i] && a.stealGranted then
        a.(stealRequest := false, stealGranted := false, granted := a.granted[i := true], state := Stolen)
      else a
    case StolenRedact =>
      if a.state == Stolen && a.granted[i] && !a.request[i] then
        a.(granted := a.granted[i := false], state := Locked)
      else a
    case StolenTake =>
      if a.state == Stolen && a.taken[i] then
        a.(taken := a.taken[i := false], timer := WAIT_TIMEOUT, state := StolenWait)
      else a
    case Hold =>
      if a.state == Locked && a.next[i] && !a.request[i] && a.stealRequest then
        a.(timer := STEAL_HOLD, state := StealOnHold)
      else a
    case Yield =>
      if a.state == StealOnHold && a.next[i] && !a.request[i] && a.timer == 0 then
        a.(state := Locked, stealGranted := true)
      else a
    case KeepControl =>
      if a.state == StealOnHold && a.next[i] && a.request[i] then a.(timer := 0, state := Locked) else a
    case Return =>
      if a.state == StolenWait && a.next[i] && a.timer == 0 then
        a.(state := Locked, stealRequest := false, stealGranted := false)
      else a
  }

  /** The automaton in the middle of a pass, and the history of its runs.  `client` and `rule`
      are the next rule to run; `turn` is the client the token is at or goes to next; `takes`
      lists the clients whose ordinary permits were taken, `thief` is the last client that stole. */
  datatype Machine = Machine(a: Arbiter, client: nat, rule: nat, turn: nat, takes: seq<nat>, thief: nat)

  /** Rule: the automaton runs its next rule.  Tick: a second passes.  The others are clients,
      who may act between any two rules: raise or withdraw the request, or, holding both bits,
      take the permit. */
  datatype Event = RunRule | Tick | Raise(i: nat) | Withdraw(i: nat) | TakePermit(i: nat)

  predicate Sized(m: Machine) {
    && Fits(m.a, |m.a.request|)
    && m.client < |m.a.request| && m.rule < RULE_COUNT && m.turn < |m.a.request| && m.thief < |m.a.request|
  }

  /** The client after i, counting round. */
  function Following(i: nat, n: nat): nat {
    if i + 1 < n then i + 1 else 0
  }

  /** Move on to the next rule, and after the last rule to the next client. */
  function Advanced(m: Machine, a': Arbiter): (m': Machine)
    requires Sized(m) && Fits(a', |m.a.request|)
    ensures Sized(m') && m'.a == a'
    ensures m.rule + 1 < RULE_COUNT ==> m'.rule == m.rule + 1 && m'.client == m.client
    ensures m.rule + 1 == RULE_COUNT ==> m'.rule == 0 && m'.client == Following(m.client, |m.a.request|)
  {
    var rule, fired, following := RuleAt(m.rule), a' != m.a, Following(m.client, |m.a.request|);
    Machine(a',
            if m.rule + 1 < RULE_COUNT then m.client else following,
            if m.rule + 1 < RULE_COUNT then m.rule + 1 else 0,
            if rule == Advance && fired then following else m.turn,
            if rule == Take && fired then m.takes + [m.client] else m.takes,
            if rule == Steal && fired then m.client else m.thief)
  }

  function Apply(m: Machine, e: Event): (m': Machine)
    requires Sized(m)
    ensures Sized(m') && |m'.a.request| == |m.a.request|
  {
    var a, n := m.a, |m.a.request|;
    match e
    case RunRule =>
      Advanced(m, Fire(a, m.client, RuleAt(m.rule)))
    case Tick => m.(a := a.(timer := if a.timer > 0 then a.timer - 1 else 0))
    case Raise(i) => if i < n then m.(a := a.(request := a.request[i := true])) else m
    case Withdraw(i) => if i < n then m.(a := a.(request := a.request[i := false])) else m
    case TakePermit(i) =>
      if i < n && a.request[i] && a.granted[i] then
        m.(a := a.(request := a.request[i := false], granted := a.granted[i := false], taken := a.taken[i := true]))
      else m
  }

  function Run(m: Machine, events: seq<Event>): (m': Machine)
    requires Sized(m)
    ensures Sized(m') && |m'.a.request| == |m.a.request|
    decreases |events|
  {
    if events == [] then m else Run(Apply(m, events[0]), events[1..])
  }

  /** All bits zero, at the start of a pass, just out of the boot state. */
  function Boot(n: nat): (m: Machine)
    requires n >= 2
    ensures Sized(m) && |m.a.request| == n
  {
    var zero := seq(n, _ => false);
    Machine(Arbiter(Free, 0, false, false, zero, zero, zero, zero), 0, 0, 0, [], 0)
  }

  /** The client holds the permit: granted and not yet taken, or taken and not yet noticed. */
  predicate Holds(a: Arbiter, i: nat)
    requires i < |a.request| && Fits(a, |a.request|)
  {
    a.granted[i] || a.taken[i]
  }

  ghost predicate NobodyBut(a: Arbiter, j: int)
    requires Fits(a, |a.request|)
  {
    forall i | 0 <= i < |a.request| && i != j :: !a.granted[i] && !a.taken[i]
  }

  /** Only a granted or stolen permit is held, by one client, in one way. */
  ghost predicate HolderInv(a: Arbiter, turn: nat, thief: nat)
    requires Fits(a, |a.request|) && turn < |a.request| && thief < |a.request|
  {
    match a.state
    case Granted => NobodyBut(a, turn) && a.granted[turn] != a.taken[turn]
    case Stolen => NobodyBut(a, thief) && a.granted[thief] != a.taken[thief]
    case _ => NobodyBut(a, -1)
  }

  ghost predicate TokenInv(a: Arbiter, turn: nat)
    requires Fits(a, |a.request|)
  {
    forall i | 0 <= i < |a.request| :: a.next[i] <==> a.state != Free && i == turn
  }

  /** The token is with the client whose turn it is, unless it is free and the pass is on its
      way to that client. */
  ghost predicate Inv(m: Machine) {
    && Sized(m)
    && TokenInv(m.a, m.turn)
    && (m.a.state == Free ==>
          (m.rule == 0 && m.client == m.turn) || (5 <= m.rule && Following(m.client, |m.a.request|) == m.turn))
    && HolderInv(m.a, m.turn, m.thief)
  }

  /** Ordinary takes go round in client order, and the turn follows the last of them. */
  ghost predicate TakesInOrder(m: Machine)
    requires Sized(m)
  {
    && (forall k | 0 <= k < |m.takes| :: m.takes[k] == k % |m.a.request|)
    && m.turn == (if m.a.state == GrantWait then |m.takes| - 1 else |m.takes|) % |m.a.request|
    && (m.a.state == GrantWait ==> |m.takes| > 0)
  }

  lemma RuleOrder(k: nat)
    requires k < RULE_COUNT
    ensures RuleAt(k) == Lock <==> k == 0
    ensures RuleAt(k) == Take <==> k == 3
    ensures RuleAt(k) == Advance <==> k == 4
  {
  }

  /** Where the token and the free state are, after one rule. */
  lemma RuleKeepsToken(m: Machine)
    requires Inv(m)
    ensures var m' := Apply(m, RunRule);
            && TokenInv(m'.a, m'.turn)
            && (m'.a.state == Free ==>
                  (m'.rule == 0 && m'.client == m'.turn) || (5 <= m'.rule && Following(m'.client, |m.a.request|) == m'.turn))
  {
    RuleOrder(m.rule);
    FireToken(m.a, m.client, RuleAt(m.rule), m.turn);
  }

  /** Lock gives the token to its client, Advance takes it away, no other rule moves it. */
  lemma FireToken(a: Arbiter, i: nat, rule: Rule, turn: nat)
    requires Fits(a, |a.request|) && i < |a.request| && turn < |a.request| && TokenInv(a, turn)
    requires rule == Lock && a.state == Free ==> i == turn
    ensures var a' := Fire(a, i, rule);
            && (rule == Advance && a' != a ==> i == turn && a'.state == Free && forall k | 0 <= k < |a.request| :: !a'.next[k])
            && (!(rule == Advance && a' != a) ==> TokenInv(a', turn))
            && (rule == Lock ==> a'.state != Free)
            && (rule != Advance && a'.state == Free ==> a.state == Free)
            && (rule == Advance && a'.state == Free && a.state != Free ==> a' != a)
  {
  }

  /** Who holds the permit, after one rule. */
  lemma FireHolder(a: Arbiter, i: nat, rule: Rule, turn: nat, thief: nat)
    requires Fits(a, |a.request|) && i < |a.request| && turn < |a.request| && thief < |a.request|
    requires TokenInv(a, turn) && HolderInv(a, turn, thief)
    ensures var a' := Fire(a, i, rule);
            HolderInv(a', turn, if rule == Steal && a' != a then i else thief)
  {
    match rule
    case Lock =>
    case Grant =>
    case Redact =>
    case Take =>
    case Advance =>
    case AskSteal =>
    case EndSteal =>
    case Steal =>
    case StolenRedact =>
    case StolenTake =>
    case Hold =>
    case Yield =>
    case KeepControl =>
    case Return =>
  }

  lemma RuleKeepsHolder(m: Machine)
    requires Inv(m)
    ensures var m' := Apply(m, RunRule); HolderInv(m'.a, m'.turn, m'.thief)
  {
    FireHolder(m.a, m.client, RuleAt(m.rule), m.turn, m.thief);
  }

  lemma ClientKeepsInv(m: Machine, e: Event)
    requires Inv(m) && e != RunRule
    ensures Inv(Apply(m, e))
  {
  }

  lemma EventKeepsInv(m: Machine, e: Event)
    requires Inv(m)
    ensures Inv(Apply(m, e))
  {
    if e == RunRule {
      RuleKeepsToken(m);
      RuleKeepsHolder(m);
    } else {
      ClientKeepsInv(m, e);
    }
  }

  lemma EventKeepsTakes(m: Machine, e: Event)
    requires Inv(m) && TakesInOrder(m)
    ensures TakesInOrder(Apply(m, e))
  {
    if e == RunRule {
      RuleOrder(m.rule);
      Arith.NextMod(|m.takes|, |m.a.request|);
      if |m.takes| > 0 {
        Arith.NextMod(|m.takes| - 1, |m.a.request|);
      }
    }
  }

  lemma {:induction false} RunKeepsInv(m: Machine, events: seq<Event>)
    requires Inv(m) && TakesInOrder(m)
    ensures Inv(Run(m, events)) && TakesInOrder(Run(m, events))
    decreases |events|
  {
    if events != [] {
      EventKeepsInv(m, events[0]);
      EventKeepsTakes(m, events[0]);
      RunKeepsInv(Apply(m, events[0]), events[1..]);
    }
  }

  lemma OneHolder(m: Machine, i: nat, j: nat)
    requires Inv(m) && i < |m.a.request| && j < |m.a.request|
    ensures Holds(m.a, i) && Holds(m.a, j) ==> i == j
    ensures !(m.a.granted[i] && m.a.taken[i])
  {
  }

  /** Main result: the arbiter is a lock.  However clients raise, withdraw and take between the
      rules, through steals and wait states, no two clients hold the permit, and nobody holds it
      both granted and taken. */
  lemma MutualExclusion(n: nat, events: seq<Event>, i: nat, j: nat)
    requires n >= 2 && i < n && j < n
    ensures var a := Run(Boot(n), events).a;
            && (Holds(a, i) && Holds(a, j) ==> i == j)
            && !(a.granted[i] && a.taken[i])
  {
    var m := Run(Boot(n), events);
    assert Inv(m) by {
      RunKeepsInv(Boot(n), events);
    }
    OneHolder(m, i, j);
  }

  /** Main result: the token is with exactly one client outside the free state, and the k-th
      ordinary permit ever taken is taken by client k mod n. */
  lemma StrictCyclicOrder(n: nat, events: seq<Event>)
    requires n >= 2
    ensures var m := Run(Boot(n), events);
            && (forall k | 0 <= k < |m.takes| :: m.takes[k] == k % n)
            && (forall i | 0 <= i < n :: m.a.next[i] <==> m.a.state != Free && i == m.turn)
  {
    RunKeepsInv(Boot(n), events);
  }

  // ----- Pauses -----

  function Ticks(events: seq<Event>): nat {
    if events == [] then 0 else (if events[0] == Tick then 1 else 0) + Ticks(events[1..])
  }

  /** A wait outlasts any run with fewer ticks than the timer shows. */
  lemma {:induction false} WaitLasts(m: Machine, events: seq<Event>)
    requires Inv(m) && (m.a.state == GrantWait || m.a.state == StolenWait) && Ticks(events) < m.a.timer
    ensures Run(m, events).a.state == m.a.state && NobodyBut(Run(m, events).a, -1)
    decreases |events|
  {
    if events != [] {
      EventKeepsInv(m, events[0]);
      WaitLasts(Apply(m, events[0]), events[1..]);
    }
  }

  /** Main result: after a permit has been used, ordinary or stolen, nobody holds it for three ticks,
      whatever the rules and the clients do. */
  lemma UsedPermitRests(m: Machine, events: seq<Event>)
    requires Inv(m) && Ticks(events) < 3
    requires var m' := Apply(m, RunRule); exists i | 0 <= i < |m.a.request| :: m.a.taken[i] && !m'.a.taken[i]
    ensures NobodyBut(Run(Apply(m, RunRule), events).a, -1)
  {
    EventKeepsInv(m, RunRule);
    WaitLasts(Apply(m, RunRule), events);
  }

  lemma {:induction false} HoldLasts(m: Machine, events: seq<Event>)
    requires Inv(m) && m.a.state == StealOnHold && !m.a.request[m.turn] && Raise(m.turn) !in events
    requires Ticks(events) < m.a.timer
    ensures Run(m, events).a.state == StealOnHold
    decreases |events|
  {
    if events != [] {
      EventKeepsInv(m, events[0]);
      HoldLasts(Apply(m, events[0]), events[1..]);
    }
  }

  /** Before its turn is lent out, a client that asks for nothing is left two ticks to think again. */
  lemma OwnerHasTwoTicks(m: Machine, events: seq<Event>)
    requires Inv(m) && m.a.state == Locked && Apply(m, RunRule).a.state == StealOnHold
    requires Ticks(events) < 2 && Raise(m.turn) !in events
    ensures Run(Apply(m, RunRule), events).a.state == StealOnHold
  {
    EventKeepsInv(m, RunRule);
    HoldLasts(Apply(m, RunRule), events);
  }

  /** The arbiter is in the wait after an ordinary permit in every state of the run. */
  predicate AlwaysWaiting(m: Machine, events: seq<Event>)
    requires Sized(m)
    decreases |events|
  {
    m.a.state == GrantWait && (events != [] ==> AlwaysWaiting(Apply(m, events[0]), events[1..]))
  }

  function RulesRun(events: seq<Event>): nat {
    if events == [] then 0 else (if events[0] == RunRule then 1 else 0) + RulesRun(events[1..])
  }

  /** How many rules until the next one that ends stealing. */
  function UntilEndSteal(m: Machine): int { if m.rule <= 6 then 6 - m.rule else 20 - m.rule }

  /** A permit that is used the ordinary way ends all stealing: when the wait has lasted for the rules of
      one client, nothing is left of it. */
  lemma {:induction false} WaitEndsStealing(m: Machine, events: seq<Event>)
    requires Sized(m) && AlwaysWaiting(m, events)
    requires RulesRun(events) > UntilEndSteal(m) || (!m.a.stealRequest && !m.a.stealGranted)
    ensures var a := Run(m, events).a; !a.stealRequest && !a.stealGranted
    decreases |events|
  {
    if events != [] {
      WaitStep(m, events[0]);
      WaitEndsStealing(Apply(m, events[0]), events[1..]);
    }
  }

  lemma EndStealOrder(k: nat)
    requires k < RULE_COUNT
    ensures RuleAt(k) == EndSteal <==> k == 6
  {
  }

  lemma WaitStep(m: Machine, e: Event)
    requires Sized(m) && m.a.state == GrantWait
    ensures var a' := Apply(m, e).a;
            && (!m.a.stealRequest && !m.a.stealGranted ==> !a'.stealRequest && !a'.stealGranted)
            && (e == RunRule && m.rule == 6 ==> !a'.stealRequest && !a'.stealGranted)
            && (e == RunRule && m.rule != 6 ==> UntilEndSteal(Apply(m, e)) == UntilEndSteal(m) - 1)
            && (e != RunRule ==> Apply(m, e).rule == m.rule)
  {
    EndStealOrder(m.rule);
  }

  // ----- The automaton in place -----

  /** k rules in a row, nothing in between. */
  function RunRules(m: Machine, k: nat): (m': Machine)
    requires Sized(m)
    ensures Sized(m') && |m'.a.request| == |m.a.request|
  {
    if k == 0 then m else Apply(RunRules(m, k - 1), RunRule)
  }

  /** The automaton as the runtime interprets it: a program counter over clients and rules. */
  class FlipFlopAutomaton {
    var state: State
    var timer: nat
    var stealRequest: bool
    var stealGranted: bool
    var request: seq<bool>
    var granted: seq<bool>
    var taken: seq<bool>
    var next: seq<bool>
    var client: nat
    var rule: nat
    ghost var turn: nat
    ghost var takes: seq<nat>
    ghost var thief: nat

    ghost function Value(): Machine
      reads this
    {
      Machine(Arbiter(state, timer, stealRequest, stealGranted, request, granted, taken, next),
              client, rule, turn, takes, thief)
    }

    constructor (n: nat)
      requires n >= 2
      ensures Value() == Boot(n)
    {
      state, timer, stealRequest, stealGranted := Free, 0, false, false;
      request, granted := seq(n, _ => false), seq(n, _ => false);
      taken, next := seq(n, _ => false), seq(n, _ => false);
      client, rule, turn, takes, thief := 0, 0, 0, [], 0;
    }

    ghost function Bits(): Arbiter
      reads this
    {
      Value().a
    }

    /** Turn taking. */
    method FireOrdinary(rule: Rule)
      requires Sized(Value()) && (rule.Lock? || rule.Grant? || rule.Redact? || rule.Take? || rule.Advance?)
      modifies this`state, this`timer, this`granted, this`taken, this`next
      ensures Bits() == Fire(old(Bits()), client, rule)
    {
      match rule {
      case Lock =>
        if state == Free {
          state := Locked;
          next := next[client := true];
        }
      case Grant =>
        if state == Locked && next[client] && request[client] {
          state := Granted;
          granted := granted[client := true];
        }
      case Redact =>
        if state == Granted && next[client] && granted[client] && !request[client] {
          state := Locked;
          granted := granted[client := false];
        }
      case Take =>
        if state == Granted && next[client] && taken[client] {
          taken := taken[client := false];
          state := GrantWait;
          timer := WAIT_TIMEOUT;
        }
      case Advance =>
        if state == GrantWait && next[client] && timer == 0 {
          next := next[client := false];
          state := Free;
        }
      }
    }

    /** Stealing as seen by the client that steals. */
    method FireThief(rule: Rule)
      requires Sized(Value())
      requires rule.AskSteal? || rule.EndSteal? || rule.Steal? || rule.StolenRedact? || rule.StolenTake?
      modifies this`state, this`timer, this`granted, this`taken, this`stealRequest, this`stealGranted
      ensures Bits() == Fire(old(Bits()), client, rule)
    {
      match rule {
      case AskSteal =>
        if state == Locked && !next[client] && request[client] {
          stealRequest := true;
        }
      case EndSteal =>
        if state == GrantWait {
          stealRequest := false;
          stealGranted := false;
        }
      case Steal =>
        if state == Locked && !next[client] && request[client] && stealGranted {
          stealRequest := false;
          stealGranted := false;
          granted := granted[client := true];
          state := Stolen;
        }
      case StolenRedact =>
        if state == Stolen && granted[client] && !request[client] {
          granted := granted[client := false];
          state := Locked;
        }
      case StolenTake =>
        if state == Stolen && taken[client] {
          taken := taken[client := false];
          timer := WAIT_TIMEOUT;
          state := StolenWait;
        }
      }
    }

    /** Stealing as seen by the client whose turn it is. */
    method FireOwner(rule: Rule)
      requires Sized(Value()) && (rule.Hold? || rule.Yield? || rule.KeepControl? || rule.Return?)
      modifies this`state, this`timer, this`stealRequest, this`stealGranted
      ensures Bits() == Fire(old(Bits()), client, rule)
    {
      match rule {
      case Hold =>
        if state == Locked && next[client] && !request[client] && stealRequest {
          timer := STEAL_HOLD;
          state := StealOnHold;
        }
      case Yield =>
        if state == StealOnHold && next[client] && !request[client] && timer == 0 {
          state := Locked;
          stealGranted := true;
        }
      case KeepControl =>
        if state == StealOnHold && next[client] && request[client] {
          timer := 0;
          state := Locked;
        }
      case Return =>
        if state == StolenWait && next[client] && timer == 0 {
          state := Locked;
          stealRequest := false;
          stealGranted := false;
        }
      }
    }

    method FireRule(rule: Rule)
      requires Sized(Value())
      modifies this`state, this`timer, this`granted, this`taken, this`next, this`stealRequest, this`stealGranted
      ensures Bits() == Fire(old(Bits()), client, rule)
    {
      if rule.Lock? || rule.Grant? || rule.Redact? || rule.Take? || rule.Advance? {
        FireOrdinary(rule);
      } else if rule.Hold? || rule.Yield? || rule.KeepControl? || rule.Return? {
        FireOwner(rule);
      } else {
        FireThief(rule);
      }
    }

    /** The history and the program counter, after a rule has fired or not. */
    method Count(ghost m: Machine)
      requires Sized(m) && Fits(Bits(), |m.a.request|)
      requires client == m.client && rule == m.rule && turn == m.turn && takes == m.takes && thief == m.thief
      modifies this`turn, this`takes, this`thief, this`rule, this`client
      ensures Value() == Advanced(m, old(Bits()))
    {
      ghost var fired := Bits() != m.a;
      if RuleAt(rule) == Advance && fired {
        turn := Following(client, |request|);
      }
      if RuleAt(rule) == Take && fired {
        takes := takes + [client];
      }
      if RuleAt(rule) == Steal && fired {
        thief := client;
      }
      if rule + 1 < RULE_COUNT {
        rule := rule + 1;
      } else {
        rule, client := 0, Following(client, |request|);
      }
    }

    /** The next rule of the program: conditions, then actions, then the program counter. */
    method Step()
      requires Sized(Value())
      modifies this
      ensures Value() == Apply(old(Value()), RunRule)
    {
      ghost var m := Value();
      FireRule(RuleAt(rule));
      Count(m);
    }

    /** One pass over all clients: every rule of every client, in order. */
    method FlipFlopLogic()
      requires Sized(Value())
      modifies this
      ensures Value() == RunRules(old(Value()), old(|request|) * RULE_COUNT)
    {
      ghost var start := Value();
      for k := 0 to |request| * RULE_COUNT
        invariant Value() == RunRules(start, k)
      {
        Step();
      }
    }
  }
}
