/** Route setting at a signal in its own direction (SimulateSignalFwdRoute): the signal ends a
    route arriving from behind and starts its own route ahead when asked to turn green. */
module SignalRules {
  import opened RouteRules
  import RouteLine

  /** The bits of one signal.  `route` are those of its a-to-b block; `noStop` makes the signal
      pass requests through like a straight piece. */
  datatype SignalVars = SignalVars(route: RouteVars, requestGreen: bool, noStop: bool, signal: bool)

  /** A route arriving from behind ends here: accepted on a free piece, else refused. */
  function Arrive(v: SignalVars, free: bool): (v': SignalVars)
    ensures v'.route.current == v.route.current
  {
    var r := v.route;
    if !r.tryIn || (v.noStop && !r.lock) then v
    else if !r.lock && Clear(r.current) && free then
      v.(route := r.(tryIn := false, noIn := false, okIn := true), signal := false)
    else v.(route := Reject(r))
  }

  /** The outgoing route while green is requested: ask once, then act on the answer. */
  function Depart(v: SignalVars): (v': SignalVars)
    ensures |v'.route.current| == |v.route.current|
  {
    var r := v.route;
    if !v.requestGreen then v
    else if !r.tryOut && !r.okOut && !r.noOut && !r.lock then v.(route := r.(tryOut := true, lock := true))
    else if r.okOut then
      v.(route := r.(okOut := false, lock := false, current := Raised(r.current)), requestGreen := false, signal := true)
    else if r.noOut then v.(route := r.(noOut := false, lock := false), requestGreen := false, signal := false)
    else v
  }

  function SignalForward(v: SignalVars, free: bool): (v': SignalVars)
    ensures |v'.route.current| == |v.route.current|
  {
    var d := Depart(Arrive(v, free));
    d.(route := SimulateRoute(d.route, d.noStop, free))
  }

  function SignalReset(v: SignalVars): SignalVars { v.(route := ResetRule(v.route)) }

  /** The whole block.  The reset rule stands in it twice: once for the signal, once in the rules
      it shares with other pieces. */
  function SignalPass(v: SignalVars, free: bool, reset: bool): SignalVars {
    if !reset then SignalForward(v, free)
    else
      var d := Depart(Arrive(SignalReset(v), free));
      d.(route := SimulateRoute(ResetRule(d.route), d.noStop, free))
  }

  // ----- The signal as an end of a line -----

  /** The outgoing direction is in use: asked, or answered and not yet noticed. */
  predicate Busy(r: RouteVars) { r.tryOut || r.okOut || r.noOut }

  /** The line ahead has the same bits on its first link.  Its request is open from the time the
      signal asks, also while it travels and none of the three bits is set, until the signal takes the
      answer; and all that time the signal is locked. */
  ghost predicate AheadMatches(s: RouteLine.Line, d: RouteLine.Dir, r: RouteVars)
    requires RouteLine.Fits(s)
  {
    var l, j := s.LaneOf(d), RouteLine.Entry(d, s.Size());
    && l.ask[j] == r.tryOut && l.ok[j] == r.okOut && l.no[j] == r.noOut
    && (Busy(r) ==> l.open) && (l.open ==> r.lock)
  }

  /** One of the three at a time, and only under the lock. */
  predicate Orderly(r: RouteVars) {
    && (Busy(r) ==> r.lock)
    && !(r.tryOut && r.okOut) && !(r.tryOut && r.noOut) && !(r.okOut && r.noOut)
  }

  /** What the line ahead sees of a pass: an answer taken, or a request made, or nothing. */
  function AheadEvents(d: RouteLine.Dir, r: RouteVars, r': RouteVars): seq<RouteLine.Event> {
    if (r.okOut || r.noOut) && !r'.okOut && !r'.noOut then [RouteLine.Conclude(d)]
    else if !r.tryOut && r'.tryOut then [RouteLine.RequestRoute(d)]
    else []
  }

  /** The ahead side of a signal is the requester of the line ahead, whoever else asks it and
      whether requests pass through it or not: it takes an answer exactly when green is requested
      or a request is pending, and its route is set and its lamp lit only by a success. */
  lemma SignalIsRequester(s: RouteLine.Line, d: RouteLine.Dir, v: SignalVars, free: bool)
    requires RouteLine.Fits(s) && Orderly(v.route) && AheadMatches(s, d, v.route)
    ensures var r' := SignalForward(v, free).route;
            Orderly(r') && AheadMatches(RouteLine.Run(s, AheadEvents(d, v.route, r')), d, r')
    ensures var r, v' := v.route, SignalForward(v, free);
            && (r.okOut || r.noOut ==>
                  ((!v'.route.okOut && !v'.route.noOut) <==> v.requestGreen || r.pending))
            && v'.route.current == (if r.okOut && (v.requestGreen || r.pending) then Raised(r.current) else r.current)
            && (v'.signal && !v.signal ==> r.okOut && v.requestGreen)
  {
    PassAhead(v, free);
    PassAnswers(v, free);
    PassRoute(v, free);
    AheadRuns(s, d, v.route, SignalForward(v, free).route);
  }

  lemma PassAnswers(v: SignalVars, free: bool)
    requires Orderly(v.route)
    ensures var r, v' := v.route, SignalForward(v, free);
            && (r.okOut || r.noOut ==>
                  ((!v'.route.okOut && !v'.route.noOut) <==> v.requestGreen || r.pending))
            && (v'.signal && !v.signal ==> r.okOut && v.requestGreen)
  {
  }

  /** A request from behind is passed on in this very pass. */
  predicate PassesOn(v: SignalVars, free: bool) {
    var r := v.route;
    v.noStop && r.tryIn && !r.lock && !r.tryOut && Clear(r.current) && free
  }

  /** Which passes set the route: those in which a success is taken, by the signal itself or for a
      pending request; but a request passed on at that moment discards it. */
  lemma PassRoute(v: SignalVars, free: bool)
    ensures var r := v.route;
            SignalForward(v, free).route.current
              == if r.okOut && (v.requestGreen || (r.pending && !r.noOut && !PassesOn(v, free))) then Raised(r.current)
                 else r.current
  {
    var d := Depart(Arrive(v, free));
    ArriveKeepsRest(v, free);
    RulesRoute(d.route, d.noStop, free);
    if v.requestGreen && v.route.okOut {
      RaisedTwice(v.route.current);
    }
  }

  lemma RaisedTwice(bits: seq<bool>)
    ensures Raised(Raised(bits)) == Raised(bits)
  {
  }

  lemma ArriveKeepsRest(v: SignalVars, free: bool)
    ensures var a := Arrive(v, free);
            && a.route.current == v.route.current && a.route.lock == v.route.lock && a.route.pending == v.route.pending
            && a.route.tryOut == v.route.tryOut && a.route.okOut == v.route.okOut && a.route.noOut == v.route.noOut
            && a.requestGreen == v.requestGreen && a.noStop == v.noStop
  {
  }

  lemma RulesRoute(r: RouteVars, condition: bool, free: bool)
    ensures var passed := condition && r.tryIn && !r.lock && !r.tryOut && Clear(r.current) && free;
            SimulateRoute(r, condition, free).current
              == if r.okOut && r.pending && !r.noOut && !passed then Raised(r.current) else r.current
  {
  }

  /** The ways the outgoing bits can change in a pass. */
  lemma PassAhead(v: SignalVars, free: bool)
    requires Orderly(v.route)
    ensures var r, r' := v.route, SignalForward(v, free).route;
            && Orderly(r')
            && (r.lock && !Busy(r) ==> r'.lock && !Busy(r'))
            && (|| (r'.tryOut == r.tryOut && r'.okOut == r.okOut && r'.noOut == r.noOut)
                || (!Busy(r) && r'.tryOut)
                || ((r.okOut || r.noOut) && !Busy(r')))
  {
  }

  lemma AheadRuns(s: RouteLine.Line, d: RouteLine.Dir, r: RouteVars, r': RouteVars)
    requires RouteLine.Fits(s) && Orderly(r) && Orderly(r') && AheadMatches(s, d, r)
    requires r.lock && !Busy(r) ==> r'.lock && !Busy(r')
    requires || (r'.tryOut == r.tryOut && r'.okOut == r.okOut && r'.noOut == r.noOut)
             || (!Busy(r) && r'.tryOut)
             || ((r.okOut || r.noOut) && !Busy(r'))
    ensures AheadMatches(RouteLine.Run(s, AheadEvents(d, r, r')), d, r')
  {
    assert RouteLine.Run(s, []) == s;
    RunOne(s, RouteLine.Conclude(d));
    RunOne(s, RouteLine.RequestRoute(d));
  }

  /** The signal's view of the line after something happened there. */
  function SeenAhead(s: RouteLine.Line, d: RouteLine.Dir, r: RouteVars): RouteVars
    requires RouteLine.Fits(s)
  {
    var l, j := s.LaneOf(d), RouteLine.Entry(d, s.Size());
    r.(tryOut := l.ask[j], okOut := l.ok[j], noOut := l.no[j])
  }

  /** Whatever happens on the line, pieces running, the far end answering, trains and releases, in
      either direction, leaves the signal its requester. */
  lemma LineKeepsAhead(s: RouteLine.Line, f: RouteLine.Token, b: RouteLine.Token, d: RouteLine.Dir, r: RouteVars, e: RouteLine.Event)
    requires RouteLine.Matches(s, f, b) && AheadMatches(s, d, r)
    requires e != RouteLine.RequestRoute(d) && e != RouteLine.Conclude(d)
    ensures var s' := RouteLine.Apply(s, e);
            AheadMatches(s', d, SeenAhead(s', d, r)) && Orderly(SeenAhead(s', d, r))
  {
    RouteLine.EventMoves(s, f, b, e);
    LinkFollowsToken(RouteLine.Apply(s, e), d,
                     RouteLine.Next(s, d, RouteLine.TokenOf(d, f, b), e));
    LinkFollowsToken(s, d, RouteLine.TokenOf(d, f, b));
  }

  /** What a line shows on the first link of a lane, and when the lane is open. */
  lemma LinkFollowsToken(s: RouteLine.Line, d: RouteLine.Dir, t: RouteLine.Token)
    requires RouteLine.Fits(s) && RouteLine.LaneMatches(s.LaneOf(d), d, s.Size(), t)
    ensures var l, j := s.LaneOf(d), RouteLine.Entry(d, s.Size());
            && (l.open <==> t != RouteLine.Idle)
            && (l.ask[j] <==> t == RouteLine.Asking(j)) && (l.ok[j] <==> t == RouteLine.Granted(j))
            && (l.no[j] <==> t == RouteLine.Refused(j))
  {
  }

  lemma RunOne(s: RouteLine.Line, e: RouteLine.Event)
    requires RouteLine.Fits(s)
    ensures RouteLine.Run(s, [e]) == RouteLine.Apply(s, e)
  {
    assert [e][1..] == [];
    assert RouteLine.Run(RouteLine.Apply(s, e), []) == RouteLine.Apply(s, e);
  }

  /** An answer for a request that went through before comes back in this pass. */
  predicate HandsBack(v: SignalVars) {
    v.route.pending && !v.requestGreen && (v.route.okOut || v.route.noOut)
  }

  /** A route from behind ends here in this pass. */
  predicate Accepts(v: SignalVars, free: bool) {
    var r := v.route;
    r.tryIn && !v.noStop && !r.lock && Clear(r.current) && free
  }

  /** What a stopping signal writes on the link behind it: the answer to the request there, if there
      is one, overwritten by an answer handed back. */
  lemma StoppingSignalAnswers(v: SignalVars, free: bool)
    requires !v.noStop && !(v.route.okOut && v.route.noOut)
    ensures var r, r' := v.route, SignalForward(v, free).route;
            && !r'.tryIn
            && r'.okIn == (if HandsBack(v) then !r.noOut else if r.tryIn then Accepts(v, free) else r.okIn)
            && r'.noIn == (if HandsBack(v) then r.noOut else if r.tryIn then !Accepts(v, free) else r.noIn)
            && (!r.pending ==> !r'.pending)
  {
    ArriveAnswers(v, free);
    ArriveKeepsRest(v, free);
    var a := Arrive(v, free);
    assert Ask(Depart(a).route, false, free) == Depart(a).route;
  }

  lemma ArriveAnswers(v: SignalVars, free: bool)
    requires !v.noStop
    ensures var r, r' := v.route, Arrive(v, free).route;
            && !r'.tryIn
            && r'.okIn == (if r.tryIn then Accepts(v, free) else r.okIn)
            && r'.noIn == (if r.tryIn then !Accepts(v, free) else r.noIn)
  {
  }

  /** The rear side of a stopping signal is the far end of the line behind it: it answers in the
      pass in which it is asked, accepts exactly when it is idle and has no route, and writes nothing
      when it is not asked.  It does so exactly when no answer is handed back in the same pass, or
      that one happens to be what it would write anyway. */
  lemma SignalIsFarEnd(s: RouteLine.Line, d: RouteLine.Dir, v: SignalVars, free: bool)
    requires RouteLine.Fits(s) && !v.noStop && !(v.route.okOut && v.route.noOut)
    requires BehindMatches(s, d, v.route)
    requires v.route.tryIn ==> !v.route.okIn && !v.route.noIn
    ensures var r, accept := v.route, !v.route.lock && Clear(v.route.current) && free;
            var s' := if r.tryIn then RouteLine.Apply(s, RouteLine.Answer(d, accept)) else s;
            BehindMatches(s', d, SignalForward(v, free).route) <==>
              (HandsBack(v) ==> if r.tryIn then accept == !r.noOut else r.okIn == !r.noOut && r.noIn == r.noOut)
  {
    StoppingSignalAnswers(v, free);
  }

  /** The line behind has the same bits on its last link. */
  ghost predicate BehindMatches(s: RouteLine.Line, d: RouteLine.Dir, r: RouteVars)
    requires RouteLine.Fits(s)
  {
    var l, j := s.LaneOf(d), RouteLine.Exit(d, s.Size());
    l.ask[j] == r.tryIn && l.ok[j] == r.okIn && l.no[j] == r.noIn
  }

  // ----- What a pass does to the lamp and to the request ahead -----

  predicate TakesAnswer(v: SignalVars) {
    (v.route.okOut || v.route.noOut) && (v.requestGreen || v.route.pending)
  }

  /** The lamp is on after a pass exactly when a success was taken for the request to turn green, or
      it was on and no route was accepted from behind and no failure was taken.  A request to turn
      green stays until an answer is taken for it. */
  lemma PassLamp(v: SignalVars, free: bool)
    ensures var r, v' := v.route, SignalForward(v, free);
            && (v'.signal <==>
                  (v.requestGreen && r.okOut) || (v.signal && !Accepts(v, free) && !(v.requestGreen && r.noOut)))
            && (v'.requestGreen <==> v.requestGreen && !r.okOut && !r.noOut)
            && v'.noStop == v.noStop
  {
  }

  /** A pass asks ahead exactly when the signal is idle and either green is requested or a request
      from behind passes through; it holds the lock from then to the answer it takes. */
  lemma PassAsks(v: SignalVars, free: bool)
    requires Orderly(v.route)
    ensures var r, r' := v.route, SignalForward(v, free).route;
            && (r'.tryOut && !r.tryOut <==> !r.lock && (v.requestGreen || PassesOn(v, free)))
            && (r'.lock <==> (r.lock && !TakesAnswer(v)) || (r'.tryOut && !r.tryOut))
            && (r'.pending <==> (r.pending && (v.requestGreen || !TakesAnswer(v))) || (PassesOn(v, free) && !v.requestGreen))
  {
    var a := Arrive(v, free).route;
    ArriveKeepsRest(v, free);
    assert v.noStop && !v.route.lock ==> a.tryIn == v.route.tryIn;
    assert v.noStop && v.route.lock ==> !a.tryIn;
    var d := Depart(Arrive(v, free));
    RulesAsk(d.route, d.noStop, free);
  }

  lemma RulesAsk(r: RouteVars, condition: bool, free: bool)
    requires Orderly(r)
    ensures var r' := SimulateRoute(r, condition, free);
            var passed := condition && r.tryIn && !r.lock && !r.tryOut && Clear(r.current) && free;
            var relayed := r.pending && (r.okOut || r.noOut);
            r'.tryOut == (r.tryOut || passed) && r'.lock == ((r.lock && !relayed) || passed)
            && r'.pending == ((r.pending && !relayed) || passed)
  {
  }

  /** A passing signal that is not asked to turn green is a straight piece. */
  lemma PassingSignalIsPiece(v: SignalVars, free: bool)
    requires v.noStop && !v.requestGreen
    ensures SignalForward(v, free) == v.(route := SimulateRoute(v.route, true, free))
  {
  }

  // ----- Where a signal is weaker than a straight piece -----

  /** Unlike a straight piece, a signal asked to turn green does not look at the opposite route.
      Both routes end up set exactly when a success arrives while the opposite route is set, and
      either green is requested or a request is pending and no failure came with it. */
  lemma {:induction false} SignalConflictsExactly(v: SignalVars, free: bool)
    requires |v.route.current| == 1 && (v.route.current == [true] ==> free)
    ensures var v', r := SignalForward(v, free), v.route;
            (v'.route.current == [true] && !free <==> !free && r.okOut && (v.requestGreen || (r.pending && !r.noOut)))
  {
    if !free {
      PassRoute(v, free);
      assert Raised(v.route.current) == [true];
    }
  }

  /** Such a request is sent although the opposite route is set. */
  lemma SignalAsksDespiteOppositeRoute(v: SignalVars)
    requires v.requestGreen && !v.route.pending && !Busy(v.route) && !v.route.lock
    ensures SignalForward(v, false).route.tryOut
  {
  }

  /** A passing-through request waits for its answer in `pending`.  The answer, success or failure,
      reaches the piece behind exactly when green is not requested meanwhile; otherwise the outgoing
      rules take it and free the lock, and the request stays pending. */
  lemma ThroughAnswerRelayedExactly(v: SignalVars, free: bool)
    requires v.noStop && v.route.pending && v.route.lock && !v.route.tryIn && !v.route.okIn && !v.route.noIn
    requires v.route.okOut != v.route.noOut
    ensures var r := SignalForward(v, free).route;
            && (r.okIn || r.noIn <==> !v.requestGreen)
            && (!v.requestGreen ==> r.okIn == v.route.okOut && r.noIn == v.route.noOut && !r.pending)
            && (v.requestGreen ==> r.pending && !r.lock && !r.okOut && !r.noOut)
  {
  }

  /** A request left pending like this is answered by the next answer that comes while green is
      not requested, whatever that answer was for. */
  lemma StalePendingTakesNextAnswer(v: SignalVars, free: bool)
    requires v.route.pending && !v.requestGreen && v.route.okOut != v.route.noOut && !v.route.tryIn
    ensures var r := SignalForward(v, free).route;
            !r.pending && r.okIn == v.route.okOut && r.noIn == v.route.noOut
  {
  }
}
