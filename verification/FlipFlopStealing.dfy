/** Progress by stealing: while the client whose turn it is has no use for the permit, another one
    that wants it brings it about that the permit is lent out, and every loan ends with the turn
    where it was. */
module FlipFlopStealing {
  import opened FlipFlop
  import opened FlipFlopProgress
  import Arith

  /** Client j wants the permit, and the client whose turn it is does not. */
  predicate Lending(m: Machine, j: nat)
    requires Sized(m)
  {
    j < |m.a.request| && m.a.request[j] && !m.a.request[m.turn]
  }

  /** The timer runs only in the waiting states; stealing is granted only after it was asked for, and a
      loan has used both bits up. */
  predicate StealInv(a: Arbiter) {
    && a.timer <= WAIT_TIMEOUT
    && (a.timer > 0 ==> a.state == GrantWait || a.state == StolenWait || a.state == StealOnHold)
    && (a.stealGranted ==> a.stealRequest)
    && (a.state == StealOnHold ==> a.stealRequest)
    && (a.state == Stolen || a.state == StolenWait ==> !a.stealRequest && !a.stealGranted)
  }

  lemma EventKeepsStealInv(m: Machine, e: Event)
    requires Sized(m) && StealInv(m.a)
    ensures StealInv(Apply(m, e).a)
  {
  }

  /** The permit is never lent to the client whose turn it is. */
  ghost predicate LendInv(m: Machine) {
    Inv(m) && StealInv(m.a) && (m.a.state == Stolen ==> m.thief != m.turn)
  }

  lemma EventKeepsLendInv(m: Machine, e: Event)
    requires LendInv(m)
    ensures LendInv(Apply(m, e))
  {
    EventKeepsInv(m, e);
    EventKeepsStealInv(m, e);
    RuleOrder(m.rule);
    RuleOrderSteal(m.rule);
  }

  lemma {:induction false} RunKeepsLendInv(m: Machine, events: seq<Event>)
    requires LendInv(m)
    ensures LendInv(Run(m, events))
    decreases |events|
  {
    if events != [] {
      EventKeepsLendInv(m, events[0]);
      RunKeepsLendInv(Apply(m, events[0]), events[1..]);
    }
  }

  // ----- Until the permit is lent -----

  /** Stealing has been granted, and client j comes before the client whose turn it is can hold again. */
  predicate InReach(m: Machine, j: nat)
    requires Sized(m) && j < |m.a.request|
  {
    m.a.stealGranted && RulesUntil(m, j, 7) < RulesUntil(m, m.turn, 10)
  }

  /** How far the state is from the permit being lent. */
  function Phase(m: Machine, j: nat): nat
    requires Sized(m) && j < |m.a.request|
  {
    match m.a.state
    case Granted => if m.a.taken[m.turn] then 8 else 5
    case GrantWait => 7
    case Free => 6
    case StolenWait => 5
    case Locked => if !m.a.stealRequest then 4 else if InReach(m, j) then 1 else 3
    case StealOnHold => 2
    case Stolen => 0
  }

  function DueRule(m: Machine, j: nat): (r: nat)
    requires Sized(m) && j < |m.a.request|
    ensures r < RULE_COUNT
  {
    match m.a.state
    case Granted => if m.a.taken[m.turn] then 3 else 2
    case GrantWait => 4
    case Free => 0
    case StolenWait => 13
    case Locked => if !m.a.stealRequest then 5 else if InReach(m, j) then 7 else 10
    case StealOnHold => 11
    case Stolen => 0
  }

  /** The client whose rule is due: the thief's while it asks and steals, else the owner's. */
  function DueClient(m: Machine, j: nat): (i: nat)
    requires Sized(m) && j < |m.a.request|
    ensures i < |m.a.request|
  {
    if m.a.state == Locked && (!m.a.stealRequest || InReach(m, j)) then j else m.turn
  }

  /** The arbiter waits for its timer. */
  predicate Waits(a: Arbiter) {
    (a.state == GrantWait || a.state == StolenWait || a.state == StealOnHold) && a.timer > 0
  }

  function ToDo(m: Machine, j: nat): nat
    requires Sized(m) && j < |m.a.request|
  {
    if Waits(m.a) then |m.a.request| * RULE_COUNT + m.a.timer else RulesUntil(m, DueClient(m, j), DueRule(m, j))
  }

  function StealRank(m: Machine, j: nat): int
    requires Sized(m) && j < |m.a.request|
  {
    Phase(m, j) * Weight(|m.a.request|) + ToDo(m, j)
  }

  /** The event the arbiter is waiting for: the clock, or its next rule. */
  predicate Advances(m: Machine, e: Event) {
    if Waits(m.a) then e == Tick else e == RunRule
  }

  lemma ToDoBounded(m: Machine, j: nat)
    requires Sized(m) && StealInv(m.a) && j < |m.a.request|
    ensures ToDo(m, j) < Weight(|m.a.request|)
  {
  }

  /** A higher phase is further away whatever is left to do in it. */
  lemma PhaseDecides(m: Machine, m': Machine, j: nat)
    requires Sized(m) && Sized(m') && StealInv(m'.a) && |m'.a.request| == |m.a.request| && j < |m.a.request|
    requires Phase(m', j) < Phase(m, j)
    ensures StealRank(m', j) < StealRank(m, j)
  {
    ToDoBounded(m', j);
    Arith.MulMono(Phase(m', j) + 1, Phase(m, j), Weight(|m.a.request|));
    Arith.Distribute(Phase(m', j), 1, Weight(|m.a.request|));
  }

  /** Which rule ends each state, and that no other one does. */
  lemma RuleInPhase(m: Machine, j: nat)
    requires Inv(m) && StealInv(m.a) && Lending(m, j) && m.a.state != Stolen && m.a.state != Locked
    ensures var a, a', here := m.a, Apply(m, RunRule).a, m.client == m.turn;
            && (a.state == Free ==> a'.state == if here && m.rule == 0 then Locked else Free)
            && (a.state == Granted ==>
                  if a.taken[m.turn] then a'.state == (if here && m.rule == 3 then GrantWait else Granted)
                  else a'.state == if here && m.rule == 2 then Locked else Granted)
            && (a.state == Granted && a'.state == Granted ==> a'.taken == a.taken)
            && (a.state == GrantWait ==> a'.state == if here && m.rule == 4 && a.timer == 0 then Free else GrantWait)
            && (a.state == StolenWait ==> a'.state == if here && m.rule == 13 && a.timer == 0 then Locked else StolenWait)
            && (a.state == StealOnHold ==> a'.state == if here && m.rule == 11 && a.timer == 0 then Locked else StealOnHold)
            && (a.state == StealOnHold && a'.state == Locked ==> a'.stealGranted && a'.stealRequest)
            && (a'.state == a.state ==> a'.timer == a.timer && Apply(m, RunRule).turn == m.turn)
            && (a'.state == Locked ==> Apply(m, RunRule).turn == m.turn)
  {
    RuleOrder(m.rule);
    RuleOrderSteal(m.rule);
  }

  lemma RuleOrderSteal(k: nat)
    requires k < RULE_COUNT
    ensures RuleAt(k) == Redact <==> k == 2
    ensures RuleAt(k) == AskSteal <==> k == 5
    ensures RuleAt(k) == Steal <==> k == 7
    ensures RuleAt(k) == Hold <==> k == 10
    ensures RuleAt(k) == Yield <==> k == 11
    ensures RuleAt(k) == Return <==> k == 13
  {
  }

  /** A locked arbiter: the thief asks, the owner holds, the thief steals. */
  lemma RuleWhileLocked(m: Machine, j: nat)
    requires Inv(m) && StealInv(m.a) && Lending(m, j) && m.a.state == Locked
    ensures var a, a', here := m.a, Apply(m, RunRule).a, m.client == m.turn;
            && Apply(m, RunRule).turn == m.turn
            && (a'.state == Locked || a'.state == Stolen || (here && m.rule == 10 && a.stealRequest && a'.state == StealOnHold))
            && (here && m.rule == 10 && a.stealRequest ==> a'.state == StealOnHold)
            && (m.client == j && m.rule == 5 ==> a'.stealRequest)
            && (m.client == j && m.rule == 7 && a.stealGranted ==> a'.state == Stolen)
            && (a'.state == Locked ==> (a.stealRequest ==> a'.stealRequest) && a'.stealGranted == a.stealGranted)
  {
    RuleOrderSteal(m.rule);
  }

  /** The rule due brings the loan nearer, any other one leaves it where it is. */
  lemma RuleApproaches(m: Machine, j: nat)
    requires Inv(m) && StealInv(m.a) && Lending(m, j) && m.a.state != Stolen
    ensures var m' := Apply(m, RunRule);
            StealRank(m', j) <= StealRank(m, j) && (Advances(m, RunRule) ==> StealRank(m', j) < StealRank(m, j))
  {
    var m' := Apply(m, RunRule);
    EventKeepsStealInv(m, RunRule);
    if m.a.state == Locked {
      RuleWhileLocked(m, j);
      LockedApproaches(m, j);
    } else {
      RuleInPhase(m, j);
      if m'.a.state != m.a.state {
        if m.a.state == StealOnHold {
          YieldIsInReach(m, j);
        }
        PhaseDecides(m, m', j);
      } else if Advances(m, RunRule) {
        OneRuleLess(m, m'.a, m.turn, DueRule(m, j));
      }
    }
  }

  lemma YieldIsInReach(m: Machine, j: nat)
    requires Sized(m) && j < |m.a.request| && j != m.turn && m.client == m.turn && m.rule == 11
    ensures forall a' | Fits(a', |m.a.request|) && a'.stealGranted :: InReach(Advanced(m, a'), j)
  {
  }

  /** While the arbiter stays locked, either the phase gets lower or the rule due comes nearer. */
  lemma LockedApproaches(m: Machine, j: nat)
    requires Inv(m) && StealInv(m.a) && Lending(m, j) && m.a.state == Locked
    ensures StealRank(Apply(m, RunRule), j) < StealRank(m, j)
  {
    var m' := Apply(m, RunRule);
    EventKeepsStealInv(m, RunRule);
    RuleWhileLocked(m, j);
    if m'.a.state == Locked {
      OneRuleNearer(m, j);
    }
    if m'.a.state != Locked || Phase(m', j) < Phase(m, j) {
      PhaseDecides(m, m', j);
    }
  }

  lemma OneRuleNearer(m: Machine, j: nat)
    requires Inv(m) && StealInv(m.a) && Lending(m, j) && m.a.state == Locked && Apply(m, RunRule).a.state == Locked
    ensures var m' := Apply(m, RunRule);
            Phase(m', j) < Phase(m, j) || (Phase(m', j) == Phase(m, j) && ToDo(m', j) < ToDo(m, j))
  {
    var m' := Apply(m, RunRule);
    RuleWhileLocked(m, j);
    if !(m.client == j && m.rule == 5) {
      OneRuleLess(m, m'.a, j, 5);
    }
    if !(m.client == j && m.rule == 7) {
      OneRuleLess(m, m'.a, j, 7);
    }
    if !(m.client == m.turn && m.rule == 10) {
      OneRuleLess(m, m'.a, m.turn, 10);
    }
  }

  /** Ticks and clients. */
  lemma ClientApproaches(m: Machine, e: Event, j: nat)
    requires Inv(m) && StealInv(m.a) && Lending(m, j) && m.a.state != Stolen && e != RunRule
    ensures var m' := Apply(m, e);
            StealRank(m', j) <= StealRank(m, j) && (Advances(m, e) ==> StealRank(m', j) < StealRank(m, j))
  {
    var m' := Apply(m, e);
    ClientKeepsPhase(m, e, j);
    assert Waits(m.a) ==> m'.a.timer <= m.a.timer;
    if e == Tick {
      assert Waits(m.a) ==> ToDo(m', j) < ToDo(m, j);
    }
  }

  lemma ClientKeepsPhase(m: Machine, e: Event, j: nat)
    requires Inv(m) && Lending(m, j) && m.a.state != Stolen && e != RunRule
    ensures var m' := Apply(m, e);
            && Phase(m', j) == Phase(m, j) && m'.client == m.client && m'.rule == m.rule && m'.turn == m.turn
            && DueRule(m', j) == DueRule(m, j) && DueClient(m', j) == DueClient(m, j)
            && m'.a.state == m.a.state && (e == Tick || m'.a.timer == m.a.timer)
  {
  }

  lemma EventApproaches(m: Machine, e: Event, j: nat)
    requires Inv(m) && StealInv(m.a) && Lending(m, j) && m.a.state != Stolen
    ensures var m' := Apply(m, e);
            StealRank(m', j) <= StealRank(m, j) && (Advances(m, e) ==> StealRank(m', j) < StealRank(m, j))
  {
    if e == RunRule {
      RuleApproaches(m, j);
    } else {
      ClientApproaches(m, e, j);
    }
  }

  /** In every state of the run client j wants the permit, and whoever has the turn does not. */
  predicate AlwaysLending(m: Machine, events: seq<Event>, j: nat)
    requires Sized(m)
    decreases |events|
  {
    Lending(m, j) && (events != [] ==> AlwaysLending(Apply(m, events[0]), events[1..], j))
  }

  /** How many events of the run the arbiter was waiting for. */
  function Advancing(m: Machine, events: seq<Event>): nat
    requires Sized(m)
    decreases |events|
  {
    if events == [] then 0
    else (if Advances(m, events[0]) then 1 else 0) + Advancing(Apply(m, events[0]), events[1..])
  }

  /** The permit is lent: a client out of turn holds it. */
  predicate Lent(m: Machine)
    requires Sized(m)
  {
    m.a.state == Stolen && m.thief != m.turn && Holds(m.a, m.thief)
  }

  predicate LentDuring(m: Machine, events: seq<Event>)
    requires Sized(m)
    decreases |events|
  {
    Lent(m) || (events != [] && LentDuring(Apply(m, events[0]), events[1..]))
  }

  lemma {:induction false} AdvancingLends(m: Machine, events: seq<Event>, j: nat)
    requires LendInv(m) && AlwaysLending(m, events, j) && Advancing(m, events) > StealRank(m, j)
    ensures LentDuring(m, events)
    decreases |events|
  {
    Arith.MulNonNegative(Phase(m, j), Weight(|m.a.request|));
    if m.a.state != Stolen {
      EventApproaches(m, events[0], j);
      EventKeepsLendInv(m, events[0]);
      AdvancingLends(Apply(m, events[0]), events[1..], j);
    }
  }

  lemma StealRankBound(m: Machine, j: nat)
    requires Sized(m) && StealInv(m.a) && j < |m.a.request|
    ensures StealRank(m, j) < 9 * Weight(|m.a.request|)
  {
    ToDoBounded(m, j);
    Arith.MulMono(Phase(m, j), 8, Weight(|m.a.request|));
  }

  /** Main result: from any reachable state, however rules, clock and clients interleave, while some
      client keeps its request up and whoever has the turn has none, a client out of turn gets the permit
      before the arbiter has advanced 9 * (14 * n + 5) times. */
  lemma PermitIsLent(n: nat, before: seq<Event>, events: seq<Event>, j: nat)
    requires n >= 2 && AlwaysLending(Run(Boot(n), before), events, j)
    requires Advancing(Run(Boot(n), before), events) >= 9 * (14 * n + 5)
    ensures LentDuring(Run(Boot(n), before), events)
  {
    RunKeepsLendInv(Boot(n), before);
    StealRankBound(Run(Boot(n), before), j);
    AdvancingLends(Run(Boot(n), before), events, j);
  }

  // ----- Until the loan ends -----

  /** The permit is lent out, and a borrower that has not taken it yet keeps its request up. */
  predicate Borrowing(m: Machine)
    requires Sized(m)
  {
    m.a.state == Stolen && m.a.granted[m.thief] ==> m.a.request[m.thief]
  }

  predicate OnLoan(m: Machine) { m.a.state == Stolen || m.a.state == StolenWait }

  /** The permit is back where it was: the turn has not moved, and nothing is left of the stealing. */
  ghost predicate GivenBack(m: Machine, turn: nat)
    requires Sized(m)
  {
    && m.a.state == Locked && m.turn == turn && turn < |m.a.request| && m.a.next[turn]
    && !m.a.stealRequest && !m.a.stealGranted && NobodyBut(m.a, -1)
  }

  function LoanRank(m: Machine): nat
    requires Sized(m)
  {
    var k := Weight(|m.a.request|);
    if m.a.state == Stolen then if m.a.taken[m.thief] then 2 * k + RulesUntil(m, m.thief, 9) else 3 * k
    else if m.a.timer > 0 then k + |m.a.request| * RULE_COUNT + m.a.timer
    else k + RulesUntil(m, m.turn, 13)
  }

  /** The event the loan waits for: the borrower takes the permit, the clock runs, or rules do. */
  predicate EndsLoan(m: Machine, e: Event)
    requires Sized(m)
  {
    if m.a.state == Stolen then e == if m.a.taken[m.thief] then RunRule else TakePermit(m.thief)
    else e == if m.a.timer > 0 then Tick else RunRule
  }

  lemma LoanRule(m: Machine)
    requires LendInv(m) && OnLoan(m) && Borrowing(m)
    ensures var a, m' := m.a, Apply(m, RunRule);
            && m'.turn == m.turn && m'.thief == m.thief
            && (a.state == Stolen ==>
                  m'.a.state == if m.client == m.thief && m.rule == 9 && a.taken[m.thief] then StolenWait else Stolen)
            && (a.state == StolenWait ==>
                  m'.a.timer == a.timer
                  && m'.a.state == if m.client == m.turn && m.rule == 13 && a.timer == 0 then Locked else StolenWait)
            && (m'.a.state == Stolen ==> m'.a.granted == a.granted && m'.a.taken == a.taken)
  {
    RuleOrder(m.rule);
    RuleOrderSteal(m.rule);
    RuleOrderLoan(m.rule);
  }

  lemma RuleOrderLoan(k: nat)
    requires k < RULE_COUNT
    ensures RuleAt(k) == StolenTake <==> k == 9
    ensures RuleAt(k) == StolenRedact <==> k == 8
  {
  }

  lemma RuleEndsLoan(m: Machine)
    requires LendInv(m) && OnLoan(m) && Borrowing(m)
    ensures var m' := Apply(m, RunRule);
            && (OnLoan(m') ==> LoanRank(m') <= LoanRank(m) && (EndsLoan(m, RunRule) ==> LoanRank(m') < LoanRank(m)))
            && (!OnLoan(m') ==> GivenBack(m', m.turn))
  {
    var m' := Apply(m, RunRule);
    LoanRule(m);
    EventKeepsLendInv(m, RunRule);
    if m'.a.state == m.a.state && EndsLoan(m, RunRule) {
      if m.a.state == Stolen {
        OneRuleLess(m, m'.a, m.thief, 9);
      } else {
        OneRuleLess(m, m'.a, m.turn, 13);
      }
    }
  }

  lemma EventEndsLoan(m: Machine, e: Event)
    requires LendInv(m) && OnLoan(m) && Borrowing(m)
    ensures var m' := Apply(m, e);
            && m'.turn == m.turn
            && (OnLoan(m') ==> LoanRank(m') <= LoanRank(m) && (EndsLoan(m, e) ==> LoanRank(m') < LoanRank(m)))
            && (!OnLoan(m') ==> GivenBack(m', m.turn))
  {
    if e == RunRule {
      LoanRule(m);
      RuleEndsLoan(m);
    } else {
      assert m.a.state == Stolen ==> m.a.granted[m.thief] != m.a.taken[m.thief];
    }
  }

  /** When the wait after a loan ends, both bits are cleared, whatever they were. */
  lemma LoanLeavesNothing(m: Machine)
    requires Sized(m) && m.a.state == StolenWait && Apply(m, RunRule).a.state != StolenWait
    ensures var a := Apply(m, RunRule).a; a.state == Locked && !a.stealRequest && !a.stealGranted
  {
  }

  /** In every state of the run a borrower that has not taken the permit yet keeps its request up. */
  predicate AlwaysBorrowing(m: Machine, events: seq<Event>)
    requires Sized(m)
    decreases |events|
  {
    Borrowing(m) && (events != [] ==> AlwaysBorrowing(Apply(m, events[0]), events[1..]))
  }

  function Ending(m: Machine, events: seq<Event>): nat
    requires Sized(m)
    decreases |events|
  {
    if events == [] then 0
    else (if EndsLoan(m, events[0]) then 1 else 0) + Ending(Apply(m, events[0]), events[1..])
  }

  ghost predicate GivenBackDuring(m: Machine, events: seq<Event>, turn: nat)
    requires Sized(m)
    decreases |events|
  {
    GivenBack(m, turn) || (OnLoan(m) && events != [] && GivenBackDuring(Apply(m, events[0]), events[1..], turn))
  }

  lemma {:induction false} EndingGivesBack(m: Machine, events: seq<Event>, turn: nat)
    requires LendInv(m) && AlwaysBorrowing(m, events)
    requires GivenBack(m, turn) || (OnLoan(m) && m.turn == turn && Ending(m, events) > LoanRank(m))
    ensures GivenBackDuring(m, events, turn)
    decreases |events|
  {
    if !GivenBack(m, turn) {
      EventEndsLoan(m, events[0]);
      EventKeepsLendInv(m, events[0]);
      EndingGivesBack(Apply(m, events[0]), events[1..], turn);
    }
  }

  /** Main result: every loan ends within 4 * (14 * n + 5) events it waits for, and then the client
      whose turn it was has it still, nobody holds the permit and nothing is left of the stealing. */
  lemma EveryLoanEnds(n: nat, before: seq<Event>, events: seq<Event>)
    requires n >= 2 && OnLoan(Run(Boot(n), before)) && AlwaysBorrowing(Run(Boot(n), before), events)
    requires Ending(Run(Boot(n), before), events) >= 4 * (14 * n + 5)
    ensures GivenBackDuring(Run(Boot(n), before), events, Run(Boot(n), before).turn)
  {
    RunKeepsLendInv(Boot(n), before);
    EndingGivesBack(Run(Boot(n), before), events, Run(Boot(n), before).turn);
  }

  // ----- The owner changes its mind -----

  /** The permit is not granted to anybody yet, and the client whose turn it is wants it. */
  predicate Reclaims(m: Machine)
    requires Sized(m)
  {
    (m.a.state == StealOnHold || m.a.state == Locked) && !m.a.stealGranted && m.a.request[m.turn]
  }

  function ReclaimRank(m: Machine): nat
    requires Sized(m)
  {
    if m.a.state == StealOnHold then Weight(|m.a.request|) + RulesUntil(m, m.turn, 12) else RulesUntil(m, m.turn, 1)
  }

  lemma ReclaimStep(m: Machine, e: Event)
    requires Inv(m) && Reclaims(m)
    ensures var m' := Apply(m, e);
            && m'.turn == m.turn
            && ((m'.a.state == Granted && m'.a.granted[m.turn])
                || ((m'.a.state == StealOnHold || m'.a.state == Locked) && !m'.a.stealGranted
                    && ReclaimRank(m') <= ReclaimRank(m) - (if e == RunRule then 1 else 0)))
  {
    if e == RunRule {
      ReclaimOrder(m.rule);
      var a' := Apply(m, e).a;
      if m.a.state == StealOnHold && !(m.client == m.turn && m.rule == 12) {
        OneRuleLess(m, a', m.turn, 12);
      } else if m.a.state == Locked && !(m.client == m.turn && m.rule == 1) {
        OneRuleLess(m, a', m.turn, 1);
      }
    }
  }

  lemma ReclaimOrder(k: nat)
    requires k < RULE_COUNT
    ensures RuleAt(k) == Grant <==> k == 1
    ensures RuleAt(k) == KeepControl <==> k == 12
  {
  }

  /** The client whose turn it was at first is granted the permit, and asks for it until then. */
  predicate AsksUntilGranted(m: Machine, events: seq<Event>, turn: nat)
    requires Sized(m)
    decreases |events|
  {
    GrantedTo(m, turn) ||
    (turn < |m.a.request| && m.a.request[turn] && (events != [] ==> AsksUntilGranted(Apply(m, events[0]), events[1..], turn)))
  }

  predicate GrantedTo(m: Machine, i: nat)
    requires Sized(m)
  {
    m.a.state == Granted && i < |m.a.request| && m.a.granted[i]
  }

  predicate GrantedDuring(m: Machine, events: seq<Event>, i: nat)
    requires Sized(m)
    decreases |events|
  {
    GrantedTo(m, i) || (events != [] && GrantedDuring(Apply(m, events[0]), events[1..], i))
  }

  /** Main result: a client whose turn it is and that asks again before its turn has been given away is
      granted the permit within 2 * (14 * n + 5) rules. */
  lemma {:induction false} OwnerTakesBack(m: Machine, events: seq<Event>)
    requires Inv(m) && Reclaims(m) && AsksUntilGranted(m, events, m.turn) && RulesRun(events) > ReclaimRank(m)
    ensures ReclaimRank(m) < 2 * (14 * |m.a.request| + 5)
    ensures GrantedDuring(m, events, m.turn)
    decreases |events|
  {
    var m' := Apply(m, events[0]);
    ReclaimStep(m, events[0]);
    EventKeepsInv(m, events[0]);
    if !GrantedTo(m', m.turn) {
      OwnerTakesBack(m', events[1..]);
    }
  }
}
