/** Progress of the permit arbiter: while every client whose turn it is wants the permit, each client
    gets it within a bounded number of steps that move the arbiter on. */
module FlipFlopProgress {
  import opened FlipFlop
  import Arith

  /** Whoever has the turn, or the granted permit, keeps its request up. */
  predicate Willing(m: Machine)
    requires Sized(m)
  {
    m.a.state == Locked || (m.a.state == Granted && m.a.granted[m.turn]) ==> m.a.request[m.turn]
  }

  /** No stealing is going on; it never starts while the clients are willing. */
  predicate Ordinary(m: Machine)
    requires Sized(m)
  {
    (m.a.state == Free || m.a.state == Locked || m.a.state == Granted || m.a.state == GrantWait)
    && !m.a.stealGranted && m.a.timer <= WAIT_TIMEOUT
  }

  predicate Served(m: Machine, i: nat)
    requires Sized(m)
  {
    m.a.state == Granted && m.turn == i
  }

  /** Rules to run until rule r of client i is the next one. */
  function RulesUntil(m: Machine, i: nat, r: nat): nat
    requires Sized(m) && i < |m.a.request| && r < RULE_COUNT
  {
    var at, to := m.client * RULE_COUNT + m.rule, i * RULE_COUNT + r;
    if to >= at then to - at else to + |m.a.request| * RULE_COUNT - at
  }

  /** Turns until client i has the turn. */
  function TurnsUntil(m: Machine, i: nat): nat
    requires Sized(m) && i < |m.a.request|
  {
    var n := |m.a.request|;
    if m.a.state == GrantWait then 1 + Around(Following(m.turn, n), i, n) else Around(m.turn, i, n)
  }

  function Around(from: nat, to: nat, n: nat): nat
    requires from < n && to < n
  {
    if to >= from then to - from else to + n - from
  }

  /** More than the rules of one pass and the ticks of one wait. */
  function Weight(n: nat): nat { n * RULE_COUNT + 5 }

  /** What is left of the turn: free, locked, granted, taken, waiting. */
  function Stage(m: Machine): nat
    requires Sized(m)
  {
    var k := Weight(|m.a.request|);
    match m.a.state
    case Free => 5 * k + RulesUntil(m, m.turn, 0)
    case Locked => 4 * k + RulesUntil(m, m.turn, 1)
    case Granted => if m.a.taken[m.turn] then 2 * k + RulesUntil(m, m.turn, 3) else 3 * k
    case GrantWait =>
      k + if m.a.timer > 0 then |m.a.request| * RULE_COUNT + m.a.timer else RulesUntil(m, m.turn, 4)
    case _ => 0
  }

  function Rank(m: Machine, i: nat): int
    requires Sized(m) && i < |m.a.request|
  {
    TurnsUntil(m, i) * (6 * Weight(|m.a.request|)) + Stage(m)
  }

  /** The event the arbiter is waiting for. */
  predicate Helps(m: Machine, e: Event)
    requires Sized(m)
  {
    match m.a.state
    case Granted => if m.a.taken[m.turn] then e == RunRule else e == TakePermit(m.turn)
    case GrantWait => if m.a.timer > 0 then e == Tick else e == RunRule
    case _ => e == RunRule
  }

  lemma OneRuleLess(m: Machine, a': Arbiter, i: nat, r: nat)
    requires Sized(m) && Fits(a', |m.a.request|) && i < |m.a.request| && r < RULE_COUNT
    requires !(m.client == i && m.rule == r)
    ensures RulesUntil(Advanced(m, a'), i, r) + 1 == RulesUntil(m, i, r)
  {
  }

  /** The rule due fires, any other one leaves the state alone. */
  lemma RuleInStage(m: Machine)
    requires Inv(m) && Ordinary(m) && Willing(m)
    ensures var a, a', t, here := m.a, Apply(m, RunRule).a, m.turn, m.client == m.turn;
            && !a'.stealGranted && a'.request == a.request && a'.timer <= WAIT_TIMEOUT
            && (a.state == Free ==> a'.state == if here && m.rule == 0 then Locked else Free)
            && (a.state == Locked ==> a'.state == if here && m.rule == 1 then Granted else Locked)
            && (a.state == Granted ==> a'.state == if here && m.rule == 3 && a.taken[t] then GrantWait else Granted)
            && (a.state == Granted ==> a'.granted == a.granted && (a'.state == Granted ==> a'.taken == a.taken))
            && (a.state == GrantWait ==>
                  a'.timer == a.timer && a'.state == if here && m.rule == 4 && a.timer == 0 then Free else GrantWait)
            && Apply(m, RunRule).turn == (if a.state == GrantWait && a'.state == Free then Following(t, |a.request|) else t)
  {
    RuleOrder(m.rule);
    RuleOrderRest(m.rule);
    assert m.a.state == Granted ==> m.a.granted[m.turn] != m.a.taken[m.turn];
  }

  lemma RuleOrderRest(k: nat)
    requires k < RULE_COUNT
    ensures RuleAt(k) == Grant <==> k == 1
  {
  }

  /** A locked arbiter that grants has a granted, not a taken permit. */
  lemma GrantIsFresh(m: Machine)
    requires Inv(m) && m.a.state == Locked
    ensures !m.a.taken[m.turn]
  {
  }

  lemma StageBounds(m: Machine)
    requires Inv(m) && Ordinary(m)
    ensures var k := Weight(|m.a.request|);
            && Stage(m) < 6 * k
            && (m.a.state == Free ==> 5 * k <= Stage(m) < 6 * k) && (m.a.state == Locked ==> 4 * k <= Stage(m) < 5 * k)
            && (m.a.state == Granted ==> 2 * k <= Stage(m) <= 3 * k && (!m.a.taken[m.turn] ==> Stage(m) == 3 * k))
            && (m.a.state == GrantWait ==> k <= Stage(m) < 2 * k)
  {
  }

  /** A rule lowers the stage, unless the arbiter waits for a client or the clock; then it leaves it.
      The rule that ends the turn passes it on. */
  lemma RuleLowersStage(m: Machine)
    requires Inv(m) && Ordinary(m) && Willing(m)
    ensures var m' := Apply(m, RunRule);
            && (m.a.state == GrantWait && m'.a.state == Free ==> m'.turn == Following(m.turn, |m.a.request|))
            && (!(m.a.state == GrantWait && m'.a.state == Free) ==>
                  m'.turn == m.turn && Stage(m') <= Stage(m) && (Helps(m, RunRule) ==> Stage(m') < Stage(m)))
  {
    var m' := Apply(m, RunRule);
    RuleInStage(m);
    EventKeepsInv(m, RunRule);
    if m'.a.state == m.a.state {
      SameStage(m);
    } else {
      if m.a.state == Locked {
        GrantIsFresh(m);
      }
      StageBounds(m);
      StageBounds(m');
    }
  }

  /** The rule due in a stage, if the arbiter waits for one. */
  function Due(m: Machine): int {
    match m.a.state
    case Free => 0
    case Locked => 1
    case Granted => 3
    case _ => 4
  }

  lemma SameStage(m: Machine)
    requires Inv(m) && Ordinary(m) && Willing(m) && Apply(m, RunRule).a.state == m.a.state
    ensures Stage(Apply(m, RunRule)) <= Stage(m)
    ensures Helps(m, RunRule) ==> Stage(Apply(m, RunRule)) < Stage(m)
  {
    var a' := Apply(m, RunRule).a;
    RuleInStage(m);
    if Helps(m, RunRule) {
      OneRuleLess(m, a', m.turn, Due(m));
    }
  }

  /** What events keep, and that those the arbiter waits for bring client i nearer. */
  lemma EventLowersRank(m: Machine, e: Event, i: nat)
    requires Inv(m) && Ordinary(m) && Willing(m) && i < |m.a.request| && !Served(m, i)
    ensures Inv(Apply(m, e)) && Ordinary(Apply(m, e))
    ensures Rank(Apply(m, e), i) <= Rank(m, i)
    ensures Helps(m, e) ==> Rank(Apply(m, e), i) < Rank(m, i)
  {
    var m', w := Apply(m, e), 6 * Weight(|m.a.request|);
    EventKeepsInv(m, e);
    if e == RunRule {
      RuleInStage(m);
      RuleLowersStage(m);
      if m.a.state == GrantWait && m'.a.state == Free {
        StageBounds(m);
        StageBounds(m');
        Arith.Distribute(TurnsUntil(m', i), 1, w);
      } else {
        SameTurns(m, m', i);
      }
    } else {
      ClientStage(m, e);
      SameTurns(m, m', i);
    }
  }

  lemma SameTurns(m: Machine, m': Machine, i: nat)
    requires Sized(m) && Sized(m') && |m'.a.request| == |m.a.request| && i < |m.a.request| && m'.turn == m.turn
    requires m'.a.state == GrantWait && m.a.state != GrantWait ==> m.turn != i
    requires m.a.state == GrantWait ==> m'.a.state == GrantWait
    ensures TurnsUntil(m', i) == TurnsUntil(m, i)
  {
  }

  /** Ticks and clients. */
  lemma ClientStage(m: Machine, e: Event)
    requires Inv(m) && Ordinary(m) && Willing(m) && e != RunRule
    ensures var m' := Apply(m, e);
            && Ordinary(m') && m'.turn == m.turn && m'.a.state == m.a.state && |m'.a.request| == |m.a.request|
            && Stage(m') <= Stage(m) && (Helps(m, e) ==> Stage(m') < Stage(m))
  {
    if e.TakePermit? && e.i < |m.a.request| && m.a.request[e.i] && m.a.granted[e.i] {
      assert m.a.state == Granted && e.i == m.turn;
      EventKeepsInv(m, e);
      StageBounds(Apply(m, e));
    }
  }

  /** No deadlock: there is always an event that helps. */
  lemma SomethingHelps(m: Machine)
    requires Inv(m) && Ordinary(m) && Willing(m)
    ensures Helps(m, RunRule) || Helps(m, Tick)
            || (Helps(m, TakePermit(m.turn)) && m.a.request[m.turn] && m.a.granted[m.turn])
  {
    assert m.a.state == Granted ==> m.a.granted[m.turn] != m.a.taken[m.turn];
  }

  // ----- Runs -----

  /** In every state of the run the clients are willing. */
  predicate AlwaysWilling(m: Machine, events: seq<Event>)
    requires Sized(m)
    decreases |events|
  {
    Willing(m) && (events != [] ==> AlwaysWilling(Apply(m, events[0]), events[1..]))
  }

  /** How many events of the run the arbiter was waiting for. */
  function Help(m: Machine, events: seq<Event>): nat
    requires Sized(m)
    decreases |events|
  {
    if events == [] then 0
    else (if Helps(m, events[0]) then 1 else 0) + Help(Apply(m, events[0]), events[1..])
  }

  predicate ServedDuring(m: Machine, events: seq<Event>, i: nat)
    requires Sized(m)
    decreases |events|
  {
    Served(m, i) || (events != [] && ServedDuring(Apply(m, events[0]), events[1..], i))
  }

  lemma {:induction false} HelpServes(m: Machine, events: seq<Event>, i: nat)
    requires Inv(m) && Ordinary(m) && i < |m.a.request| && AlwaysWilling(m, events)
    requires Help(m, events) > Rank(m, i)
    ensures ServedDuring(m, events, i)
    decreases |events|
  {
    RankNonNegative(m, i);
    if !Served(m, i) {
      EventLowersRank(m, events[0], i);
      HelpServes(Apply(m, events[0]), events[1..], i);
    }
  }

  lemma RankNonNegative(m: Machine, i: nat)
    requires Sized(m) && i < |m.a.request|
    ensures Rank(m, i) >= 0
  {
    Arith.MulNonNegative(TurnsUntil(m, i), 6 * Weight(|m.a.request|));
  }

  lemma RankBound(m: Machine, i: nat)
    requires Inv(m) && Ordinary(m) && i < |m.a.request|
    ensures Rank(m, i) < (|m.a.request| + 1) * (6 * Weight(|m.a.request|))
  {
    var n, w := |m.a.request|, 6 * Weight(|m.a.request|);
    StageBounds(m);
    assert TurnsUntil(m, i) <= n;
    Arith.MulMono(TurnsUntil(m, i), n, w);
    Arith.Distribute(n, 1, w);
  }

  /** Main result: however the rules, the clock and the clients interleave, as long as the client
      whose turn it is keeps its request until it has taken the permit, every client is granted the
      permit before the arbiter has been helped (n + 1) * (84 * n + 30) times. */
  lemma EveryClientIsServed(n: nat, events: seq<Event>, i: nat)
    requires n >= 2 && i < n && AlwaysWilling(Boot(n), events)
    requires Help(Boot(n), events) >= (n + 1) * (84 * n + 30)
    ensures ServedDuring(Boot(n), events, i)
  {
    RankBound(Boot(n), i);
    assert 6 * Weight(n) == 84 * n + 30;
    HelpServes(Boot(n), events, i);
  }
}
