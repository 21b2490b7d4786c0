/** Runs of a whole signal: the block of its own direction and the ordinary block of the opposite
    direction share one lock, and everything around them may happen at any time. */
module SignalRuns {
  import opened RouteRules
  import opened SignalRules

  /** `ab` are the bits of the signal's own direction, `ba` those of the opposite one.  The lock is
      that of `ab`; the one in `ba` is not used.  `waiting`: the piece ahead has taken the request
      and has not answered it yet. */
  datatype Signal = Signal(ab: SignalVars, ba: RouteVars, waiting: bool)

  /** Forth, Back: the block of one direction.  TakeAhead: the piece ahead takes the request, to pass
      it on.  AnswerAhead: it answers a request that is outstanding, taken before or not.  Behind,
      Ahead: the neighbours write what they like on the other bits. */
  datatype Event =
    | Forth
    | Back
    | TakeAhead
    | AnswerAhead(accept: bool)
    | Behind(tryIn: bool, okIn: bool, noIn: bool)
    | Ahead(tryIn: bool, okIn: bool, noIn: bool, okOut: bool, noOut: bool, tryOut: bool)
    | Green(on: bool)
    | NoStop(on: bool)
    | ReleaseAb
    | ReleaseBa

  predicate Fits(s: Signal) { |s.ab.route.current| == |s.ba.current| == 1 }

  predicate Set(r: RouteVars) { r.current == [true] }

  function Apply(s: Signal, e: Event): Signal {
    var r := s.ab.route;
    match e
    case Forth => s.(ab := SignalForward(s.ab, !Set(s.ba)))
    case Back =>
      var b := SimulateRoute(s.ba.(lock := r.lock), true, !Set(r));
      s.(ab := s.ab.(route := r.(lock := b.lock)), ba := b)
    case TakeAhead =>
      if r.tryOut then s.(ab := s.ab.(route := r.(tryOut := false)), waiting := true) else s
    case AnswerAhead(accept) =>
      if r.tryOut || s.waiting then
        s.(ab := s.ab.(route := r.(tryOut := false, okOut := accept, noOut := !accept)), waiting := false)
      else s
    case Behind(t, o, n) => s.(ab := s.ab.(route := r.(tryIn := t, okIn := o, noIn := n)))
    case Ahead(t, o, n, ok, no, out) =>
      s.(ba := s.ba.(tryIn := t, okIn := o, noIn := n, okOut := ok, noOut := no, tryOut := out))
    case Green(on) => s.(ab := s.ab.(requestGreen := on))
    case NoStop(on) => s.(ab := s.ab.(noStop := on))
    case ReleaseAb => s.(ab := s.ab.(route := r.(current := [false])))
    case ReleaseBa => s.(ba := s.ba.(current := [false]))
  }

  function Run(s: Signal, events: seq<Event>): Signal
    decreases |events|
  {
    if events == [] then s else Run(Apply(s, events[0]), events[1..])
  }

  function Boot(): Signal {
    var r := RouteVars(false, false, false, false, false, false, false, false, [false]);
    Signal(SignalVars(r, false, false, false), r, false)
  }

  predicate Conflict(s: Signal) { Set(s.ab.route) && Set(s.ba) }

  /** A pass of the signal's own block is about to ask for a route of its own. */
  predicate AsksGreen(s: Signal) {
    s.ab.requestGreen && !Busy(s.ab.route) && !s.ab.route.lock
  }

  /** Green is asked for only while the opposite route is clear. */
  predicate AsksWhenClear(s: Signal, events: seq<Event>)
    decreases |events|
  {
    events == [] ||
    ((events[0].Forth? && AsksGreen(s) ==> !Set(s.ba)) && AsksWhenClear(Apply(s, events[0]), events[1..]))
  }

  /** While the own direction is in use the opposite one is shut, and the other way round. */
  ghost predicate Sound(s: Signal) {
    && Fits(s) && !Conflict(s) && Orderly(s.ab.route)
    && (s.waiting ==> s.ab.route.lock && !Busy(s.ab.route))
    && (Busy(s.ab.route) || s.waiting ==> !Set(s.ba) && !s.ba.pending)
    && (s.ba.pending ==> s.ab.route.lock && !Set(s.ba) && !Set(s.ab.route))
  }

  /** Where the lock can go in a pass of the own block. */
  lemma ForthOutcome(v: SignalVars, free: bool)
    requires Orderly(v.route)
    ensures var r, r' := v.route, SignalForward(v, free).route;
            && Orderly(r')
            && (Busy(r') && !Busy(r) ==> !r.lock && (free || v.requestGreen))
            && (r.lock && !Busy(r) ==> r'.lock && !Busy(r'))
  {
  }

  lemma ForthKeepsSound(s: Signal)
    requires Sound(s) && (AsksGreen(s) ==> !Set(s.ba))
    ensures Sound(Apply(s, Forth))
  {
    var free := !Set(s.ba);
    ForthOutcome(s.ab, free);
    PassRoute(s.ab, free);
    assert Raised(s.ab.route.current) == [true];
  }

  lemma BackKeepsSound(s: Signal)
    requires Sound(s)
    ensures Sound(Apply(s, Back))
  {
    var r := s.ab.route;
    BackOutcome(s.ba.(lock := r.lock), !Set(r));
    assert Raised(s.ba.current) == [true];
    assert Clear(s.ba.current) ==> !Set(s.ba);
  }

  /** The opposite block changes nothing of its own, takes the lock, or gives it up. */
  lemma BackOutcome(b: RouteVars, free: bool)
    ensures var b' := SimulateRoute(b, true, free);
            || (b'.lock == b.lock && b'.pending == b.pending && b'.current == b.current)
            || (!b.lock && b'.lock && b'.pending && Clear(b.current) && free && b'.current == b.current)
            || (b.pending && !b'.lock && !b'.pending && (b'.current == b.current || b'.current == Raised(b.current)))
  {
  }

  lemma AnswerKeepsSound(s: Signal, e: Event)
    requires Sound(s) && (e.TakeAhead? || e.AnswerAhead?)
    ensures Sound(Apply(s, e))
  {
  }

  lemma OtherKeepsSound(s: Signal, e: Event)
    requires Sound(s) && !e.Forth? && !e.Back? && !e.TakeAhead? && !e.AnswerAhead?
    ensures Sound(Apply(s, e))
  {
  }

  lemma EventKeepsSound(s: Signal, e: Event)
    requires Sound(s) && (e.Forth? && AsksGreen(s) ==> !Set(s.ba))
    ensures Sound(Apply(s, e))
  {
    match e
    case Forth => ForthKeepsSound(s);
    case Back => BackKeepsSound(s);
    case TakeAhead => AnswerKeepsSound(s, e);
    case AnswerAhead(_) => AnswerKeepsSound(s, e);
    case _ => OtherKeepsSound(s, e);
  }

  lemma {:induction false} RunKeepsSound(s: Signal, events: seq<Event>)
    requires Sound(s) && AsksWhenClear(s, events)
    ensures Sound(Run(s, events))
    decreases |events|
  {
    if events != [] {
      EventKeepsSound(s, events[0]);
      RunKeepsSound(Apply(s, events[0]), events[1..]);
    }
  }

  /** Both routes are set, or will be if the request now outstanding succeeds. */
  ghost predicate Threatened(s: Signal)
  {
    Conflict(s) || Conflict(Apply(Apply(s, AnswerAhead(true)), Forth))
  }

  lemma SoundNotThreatened(s: Signal)
    requires Sound(s)
    ensures !Threatened(s)
  {
    var s1 := Apply(s, AnswerAhead(true));
    assert Sound(s1);
    PassRoute(s1.ab, !Set(s1.ba));
    assert Raised(s1.ab.route.current) == [true];
  }

  /** Asking with the opposite route set is a threat at once. */
  lemma BadAskThreatens(s: Signal)
    requires Sound(s) && AsksGreen(s) && Set(s.ba)
    ensures Threatened(Apply(s, Forth))
  {
    var s1 := Apply(s, Forth);
    BadAskLeaves(s.ab);
    var s2 := Apply(s1, AnswerAhead(true));
    PassRoute(s2.ab, false);
    assert Raised(s2.ab.route.current) == [true];
  }

  lemma BadAskLeaves(v: SignalVars)
    requires v.requestGreen && !Busy(v.route) && !v.route.lock
    ensures var v' := SignalForward(v, false);
            v'.requestGreen && v'.route.tryOut && |v'.route.current| == |v.route.current|
  {
    PassRoute(v, false);
  }

  /** No state of the run is a conflict or a threat, the first included. */
  ghost predicate NeverThreatened(s: Signal, events: seq<Event>)
    decreases |events|
  {
    !Threatened(s) && (events != [] ==> NeverThreatened(Apply(s, events[0]), events[1..]))
  }

  lemma {:induction false} ThreatenedExactly(s: Signal, events: seq<Event>)
    requires Sound(s)
    ensures NeverThreatened(s, events) <==> AsksWhenClear(s, events)
    decreases |events|
  {
    SoundNotThreatened(s);
    if events != [] {
      if events[0].Forth? && AsksGreen(s) && Set(s.ba) {
        BadAskThreatens(s);
      } else {
        EventKeepsSound(s, events[0]);
        ThreatenedExactly(Apply(s, events[0]), events[1..]);
      }
    }
  }

  /** Main result: from boot, whatever the neighbours do, as long as the piece ahead answers only what
      it was asked, and whenever green is requested, withdrawn or passed through, a signal gets both
      its routes set, at once or by the next success, exactly when it asked for green while the opposite
      route was set. */
  lemma SignalSafeExactly(events: seq<Event>)
    ensures NeverThreatened(Boot(), events) <==> AsksWhenClear(Boot(), events)
    ensures AsksWhenClear(Boot(), events) ==> !Conflict(Run(Boot(), events))
  {
    ThreatenedExactly(Boot(), events);
    if AsksWhenClear(Boot(), events) {
      RunKeepsSound(Boot(), events);
    }
  }

  // ----- What a lit lamp means -----

  /** Who holds the lock, whatever was asked. */
  ghost predicate Owned(s: Signal) {
    && Fits(s) && Orderly(s.ab.route)
    && (s.waiting ==> s.ab.route.lock && !Busy(s.ab.route))
    && (Busy(s.ab.route) || s.waiting ==> !s.ba.pending)
    && (s.ba.pending ==> s.ab.route.lock)
  }

  lemma ForthKeepsOwned(s: Signal)
    requires Owned(s)
    ensures Owned(Apply(s, Forth))
  {
    ForthOutcome(s.ab, !Set(s.ba));
    PassAsks(s.ab, !Set(s.ba));
  }

  lemma BackKeepsOwned(s: Signal)
    requires Owned(s)
    ensures Owned(Apply(s, Back))
  {
    BackOutcome(s.ba.(lock := s.ab.route.lock), !Set(s.ab.route));
  }

  lemma AnswerKeepsOwned(s: Signal, e: Event)
    requires Owned(s) && (e.TakeAhead? || e.AnswerAhead?)
    ensures Owned(Apply(s, e))
  {
  }

  lemma OtherKeepsOwned(s: Signal, e: Event)
    requires Owned(s) && !e.Forth? && !e.Back? && !e.TakeAhead? && !e.AnswerAhead?
    ensures Owned(Apply(s, e))
  {
  }

  lemma EventKeepsOwned(s: Signal, e: Event)
    requires Owned(s)
    ensures Owned(Apply(s, e))
  {
    match e
    case Forth => ForthKeepsOwned(s);
    case Back => BackKeepsOwned(s);
    case TakeAhead => AnswerKeepsOwned(s, e);
    case AnswerAhead(_) => AnswerKeepsOwned(s, e);
    case _ => OtherKeepsOwned(s, e);
  }

  lemma {:induction false} RunOne(s: Signal, events: seq<Event>, e: Event)
    ensures Run(s, events + [e]) == Apply(Run(s, events), e)
    decreases |events|
  {
    if events == [] {
      assert ([] + [e])[1..] == [];
      assert Run(Apply(s, e), []) == Apply(s, e);
    } else {
      assert (events + [e])[1..] == events[1..] + [e];
      RunOne(Apply(s, events[0]), events[1..], e);
    }
  }

  /** The signal after the first k events from boot. */
  function At(events: seq<Event>, k: nat): Signal
    requires k <= |events|
  {
    Run(Boot(), events[..k])
  }

  lemma AtNext(events: seq<Event>, k: nat)
    requires k < |events|
    ensures At(events, k + 1) == Apply(At(events, k), events[k])
  {
    assert events[..k + 1] == events[..k] + [events[k]];
    RunOne(Boot(), events[..k], events[k]);
  }

  /** Event k is a pass that takes a success for a request to turn green. */
  predicate Succeeds(events: seq<Event>, k: nat)
    requires k < |events|
  {
    var v := At(events, k).ab;
    events[k].Forth? && v.requestGreen && v.route.okOut
  }

  /** Event k is a pass that accepts a route from behind, or takes a failure. */
  predicate EndsOrFails(events: seq<Event>, k: nat)
    requires k < |events|
  {
    var s := At(events, k);
    events[k].Forth? && (Accepts(s.ab, !Set(s.ba)) || (s.ab.requestGreen && s.ab.route.noOut))
  }

  /** A success among the first n events, and nothing after it that puts the lamp out. */
  ghost predicate LitSince(events: seq<Event>, n: nat)
    requires n <= |events|
  {
    exists k | 0 <= k < n :: Succeeds(events, k) && NoEndAfter(events, k, n)
  }

  ghost predicate NoEndAfter(events: seq<Event>, k: nat, n: nat)
    requires n <= |events|
  {
    forall j | k < j < n :: !EndsOrFails(events, j)
  }

  lemma LitSinceNext(events: seq<Event>, m: nat)
    requires m < |events|
    ensures LitSince(events, m + 1) <==> Succeeds(events, m) || (LitSince(events, m) && !EndsOrFails(events, m))
  {
    if Succeeds(events, m) {
      assert NoEndAfter(events, m, m + 1);
    }
    if LitSince(events, m) && !EndsOrFails(events, m) {
      var k :| 0 <= k < m && Succeeds(events, k) && NoEndAfter(events, k, m);
      assert NoEndAfter(events, k, m + 1);
    }
    if LitSince(events, m + 1) && !Succeeds(events, m) {
      var k :| 0 <= k < m + 1 && Succeeds(events, k) && NoEndAfter(events, k, m + 1);
      assert NoEndAfter(events, k, m);
    }
  }

  lemma PassOnce(s: Signal)
    requires Owned(s)
    ensures !(s.ab.requestGreen && s.ab.route.okOut && (Accepts(s.ab, !Set(s.ba)) || s.ab.route.noOut))
  {
  }

  lemma EventLamp(events: seq<Event>, m: nat)
    requires m < |events| && Owned(At(events, m))
    ensures At(events, m + 1).ab.signal <==> Succeeds(events, m) || (At(events, m).ab.signal && !EndsOrFails(events, m))
    ensures !(Succeeds(events, m) && EndsOrFails(events, m))
    ensures Owned(At(events, m + 1))
  {
    var s := At(events, m);
    AtNext(events, m);
    EventKeepsOwned(s, events[m]);
    PassOnce(s);
    EventOnLamp(s, events[m]);
  }

  /** Only a pass of the own block touches the lamp. */
  lemma EventOnLamp(s: Signal, e: Event)
    ensures Apply(s, e).ab.signal <==>
              if e.Forth? then
                (s.ab.requestGreen && s.ab.route.okOut)
                || (s.ab.signal && !Accepts(s.ab, !Set(s.ba)) && !(s.ab.requestGreen && s.ab.route.noOut))
              else s.ab.signal
  {
    PassLamp(s.ab, !Set(s.ba));
  }

  /** Main result: over all runs from boot, whatever the neighbours do and whatever is asked, the
      lamp is on exactly when a success was taken for a request to turn green and since then no route
      has been accepted from behind and no failure taken; no pass does both. */
  lemma {:induction false} LampSaysWhy(events: seq<Event>, n: nat)
    requires n <= |events|
    ensures At(events, n).ab.signal <==> LitSince(events, n)
    ensures n < |events| ==> !(Succeeds(events, n) && EndsOrFails(events, n))
    ensures Owned(At(events, n))
    decreases n
  {
    if n > 0 {
      LampSaysWhy(events, n - 1);
      EventLamp(events, n - 1);
      LitSinceNext(events, n - 1);
    }
    if n < |events| {
      EventLamp(events, n);
    }
  }
}
