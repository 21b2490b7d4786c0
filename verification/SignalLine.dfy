/** Two signals with a line of any number of track pieces between them: the one behind asks the
    line for a route whenever it likes, the one ahead accepts or refuses.  They share the bits of
    the first and the last link with the line, and everything may happen in any order. */
module SignalLine {
  import opened RouteRules
  import opened SignalRules
  import RouteLine

  /** `d` is the direction from signal `a` to signal `b`.  The bits of the first and last link are
      those of the line.  `held`: the block of the opposite direction has the lock of `a`. */
  datatype System = System(line: RouteLine.Line, d: RouteLine.Dir, a: SignalVars, held: bool, b: SignalVars)

  /** PassA, PassB: the block of a signal, `free` saying that its opposite route is clear.  OnLine:
      anything on the line between, or at its ends in the opposite direction.  AroundA, HoldA,
      ReleaseA: what the layout, its opposite block and trains do to `a`.  AroundB: what anybody does to
      `b` other than on the link; it stays a stopping signal. */
  datatype Event =
    | PassA(free: bool)
    | PassB(free: bool)
    | OnLine(e: RouteLine.Event)
    | AroundA(tryIn: bool, okIn: bool, noIn: bool, green: bool, noStop: bool)
    | HoldA(on: bool)
    | ReleaseA
    | AroundB(lock: bool, hasRoute: bool, tryOut: bool, okOut: bool, noOut: bool, green: bool)

  /** The signals with the bits of their links. */
  function ViewA(s: System): SignalVars
    requires RouteLine.Fits(s.line)
  {
    s.a.(route := SeenAhead(s.line, s.d, s.a.route))
  }

  function ViewB(s: System): SignalVars
    requires RouteLine.Fits(s.line)
  {
    var l, k := s.line.LaneOf(s.d), RouteLine.Exit(s.d, s.line.Size());
    s.b.(route := s.b.route.(tryIn := l.ask[k], okIn := l.ok[k], noIn := l.no[k]))
  }

  function WriteLink(line: RouteLine.Line, d: RouteLine.Dir, k: nat, open: bool, ask: bool, ok: bool, no: bool): (line': RouteLine.Line)
    requires RouteLine.Fits(line) && k <= line.Size()
    ensures RouteLine.Fits(line') && line'.Size() == line.Size()
  {
    var l := line.LaneOf(d);
    line.With(d, l.(open := open, ask := l.ask[k := ask], ok := l.ok[k := ok], no := l.no[k := no]))
  }

  /** A request of `a` is open from the pass that asks to the pass that takes the answer. */
  function OpenAfter(open: bool, r: RouteVars, r': RouteVars): bool {
    r'.tryOut || (open && !((r.okOut || r.noOut) && !r'.okOut && !r'.noOut))
  }

  predicate Between(d: RouteLine.Dir, e: RouteLine.Event) {
    e != RouteLine.RequestRoute(d) && e != RouteLine.Conclude(d) && !(e.Answer? && e.d == d)
  }

  function Apply(s: System, e: Event): (s': System)
    requires RouteLine.Fits(s.line)
    ensures RouteLine.Fits(s'.line) && s'.line.Size() == s.line.Size() && s'.d == s.d
  {
    match e
    case PassA(free) =>
      var v := ViewA(s);
      var v' := SignalForward(v, free);
      s.(a := v', line := WriteLink(s.line, s.d, RouteLine.Entry(s.d, s.line.Size()),
                                    OpenAfter(s.line.LaneOf(s.d).open, v.route, v'.route),
                                    v'.route.tryOut, v'.route.okOut, v'.route.noOut))
    case PassB(free) =>
      var v' := SignalForward(ViewB(s), free);
      s.(b := v', line := WriteLink(s.line, s.d, RouteLine.Exit(s.d, s.line.Size()), s.line.LaneOf(s.d).open,
                                    v'.route.tryIn, v'.route.okIn, v'.route.noIn))
    case OnLine(e) => if Between(s.d, e) then s.(line := RouteLine.Apply(s.line, e)) else s
    case AroundA(t, o, n, green, noStop) =>
      s.(a := s.a.(route := s.a.route.(tryIn := t, okIn := o, noIn := n), requestGreen := green, noStop := noStop))
    case HoldA(on) =>
      if on && !s.a.route.lock then s.(a := s.a.(route := s.a.route.(lock := true)), held := true)
      else if !on && s.held then s.(a := s.a.(route := s.a.route.(lock := false)), held := false)
      else s
    case ReleaseA => s.(a := s.a.(route := s.a.route.(current := Lowered(s.a.route.current))))
    case AroundB(lock, hasRoute, t, o, n, green) =>
      s.(b := s.b.(route := s.b.route.(lock := lock, current := [hasRoute], tryOut := t, okOut := o, noOut := n && !o),
                   requestGreen := green))
  }

  function Run(s: System, events: seq<Event>): (s': System)
    requires RouteLine.Fits(s.line)
    ensures RouteLine.Fits(s'.line) && s'.line.Size() == s.line.Size() && s'.d == s.d
    decreases |events|
  {
    if events == [] then s else Run(Apply(s, events[0]), events[1..])
  }

  function Quiet(): SignalVars {
    SignalVars(RouteVars(false, false, false, false, false, false, false, false, [false]), false, false, false)
  }

  function Boot(n: nat, d: RouteLine.Dir): (s: System)
    ensures RouteLine.Fits(s.line) && s.line.Size() == n && s.d == d
  {
    System(RouteLine.Boot(n), d, Quiet(), false, Quiet())
  }

  // ----- What the line sees -----

  /** The events of the line that one event of the system amounts to. */
  function LineEvents(s: System, e: Event): seq<RouteLine.Event>
    requires RouteLine.Fits(s.line)
  {
    match e
    case PassA(free) => AheadEvents(s.d, ViewA(s).route, SignalForward(ViewA(s), free).route)
    case PassB(free) =>
      var r := ViewB(s).route;
      if r.tryIn then [RouteLine.Answer(s.d, !r.lock && Clear(r.current) && free)] else []
    case OnLine(e) => if Between(s.d, e) then [e] else []
    case _ => []
  }

  function AllLineEvents(s: System, events: seq<Event>): seq<RouteLine.Event>
    requires RouteLine.Fits(s.line)
    decreases |events|
  {
    if events == [] then [] else LineEvents(s, events[0]) + AllLineEvents(Apply(s, events[0]), events[1..])
  }

  /** While a request of `a` is open, `a` is locked for it and for nothing else; `b` stops, and has
      nothing pending. */
  ghost predicate Joined(s: System, f: RouteLine.Token, t: RouteLine.Token) {
    && RouteLine.Matches(s.line, f, t)
    && (s.line.LaneOf(s.d).open ==> s.a.route.lock && !s.held)
    && (s.held ==> s.a.route.lock)
    && !s.b.noStop && !s.b.route.pending && !(s.b.route.okOut && s.b.route.noOut)
  }

  lemma JoinedView(s: System, f: RouteLine.Token, t: RouteLine.Token)
    requires Joined(s, f, t)
    ensures Orderly(ViewA(s).route) && AheadMatches(s.line, s.d, ViewA(s).route)
  {
    LinkFollowsToken(s.line, s.d, RouteLine.TokenOf(s.d, f, t));
  }

  lemma WriteSame(line: RouteLine.Line, d: RouteLine.Dir, k: nat)
    requires RouteLine.Fits(line) && k <= line.Size()
    ensures var l := line.LaneOf(d); WriteLink(line, d, k, l.open, l.ask[k], l.ok[k], l.no[k]) == line
  {
    var l := line.LaneOf(d);
    assert l.ask[k := l.ask[k]] == l.ask && l.ok[k := l.ok[k]] == l.ok && l.no[k := l.no[k]] == l.no;
  }

  /** What the requester's events do to the first link. */
  lemma RequesterWrites(line: RouteLine.Line, d: RouteLine.Dir)
    requires RouteLine.Fits(line)
    ensures var l, j := line.LaneOf(d), RouteLine.Entry(d, line.Size());
            && (!l.open && !l.ask[j] && !l.ok[j] && !l.no[j] ==>
                  RouteLine.Apply(line, RouteLine.RequestRoute(d)) == WriteLink(line, d, j, true, true, false, false))
            && (l.open && (l.ok[j] || l.no[j]) && !l.ask[j] ==>
                  RouteLine.Apply(line, RouteLine.Conclude(d)) == WriteLink(line, d, j, false, false, false, false))
  {
    var l, j := line.LaneOf(d), RouteLine.Entry(d, line.Size());
    assert !l.ok[j] ==> l.ok[j := false] == l.ok;
    assert !l.no[j] ==> l.no[j := false] == l.no;
    assert !l.ask[j] ==> l.ask[j := false] == l.ask;
  }

  /** A pass of `a` does to the line what its requester does. */
  lemma PassAIsLine(line: RouteLine.Line, d: RouteLine.Dir, v: SignalVars, free: bool)
    requires RouteLine.Fits(line) && Orderly(v.route) && AheadMatches(line, d, v.route)
    ensures var r, r', j := v.route, SignalForward(v, free).route, RouteLine.Entry(d, line.Size());
            RouteLine.Run(line, AheadEvents(d, r, r'))
              == WriteLink(line, d, j, OpenAfter(line.LaneOf(d).open, r, r'), r'.tryOut, r'.okOut, r'.noOut)
  {
    PassAhead(v, free);
    LinkChange(line, d, v.route, SignalForward(v, free).route);
  }

  lemma LinkChange(line: RouteLine.Line, d: RouteLine.Dir, r: RouteVars, r': RouteVars)
    requires RouteLine.Fits(line) && Orderly(r) && Orderly(r') && AheadMatches(line, d, r)
    requires r.lock && !Busy(r) ==> r'.lock && !Busy(r')
    requires || (r'.tryOut == r.tryOut && r'.okOut == r.okOut && r'.noOut == r.noOut)
             || (!Busy(r) && r'.tryOut)
             || ((r.okOut || r.noOut) && !Busy(r'))
    ensures RouteLine.Run(line, AheadEvents(d, r, r'))
              == WriteLink(line, d, RouteLine.Entry(d, line.Size()), OpenAfter(line.LaneOf(d).open, r, r'),
                           r'.tryOut, r'.okOut, r'.noOut)
  {
    var j, conclude, request := RouteLine.Entry(d, line.Size()), RouteLine.Conclude(d), RouteLine.RequestRoute(d);
    RequesterWrites(line, d);
    if r'.tryOut == r.tryOut && r'.okOut == r.okOut && r'.noOut == r.noOut {
      WriteSame(line, d, j);
    } else if !Busy(r) {
      RunOne(line, request);
    } else {
      RunOne(line, conclude);
    }
  }

  /** A pass of `b` does to the line what its far end does. */
  lemma PassBIsLine(s: System, f: RouteLine.Token, t: RouteLine.Token, free: bool)
    requires Joined(s, f, t)
    ensures Apply(s, PassB(free)).line == RouteLine.Run(s.line, LineEvents(s, PassB(free)))
    ensures !Apply(s, PassB(free)).b.route.pending
  {
    var d, line, v := s.d, s.line, ViewB(s);
    var k, l := RouteLine.Exit(d, line.Size()), line.LaneOf(d);
    StoppingSignalAnswers(v, free);
    LastFollowsToken(line, d, RouteLine.TokenOf(d, f, t));
    if v.route.tryIn {
      RunOne(line, LineEvents(s, PassB(free))[0]);
    } else {
      WriteSame(line, d, k);
    }
  }

  lemma LastFollowsToken(s: RouteLine.Line, d: RouteLine.Dir, t: RouteLine.Token)
    requires RouteLine.Fits(s) && RouteLine.LaneMatches(s.LaneOf(d), d, s.Size(), t)
    ensures var l, k := s.LaneOf(d), RouteLine.Exit(d, s.Size());
            !(l.ask[k] && l.ok[k]) && !(l.ask[k] && l.no[k])
  {
    var k := RouteLine.Exit(d, s.Size());
    assert s.LaneOf(d).ask[k] <==> t == RouteLine.Asking(k);
  }

  /** An event of the system is its events on the line, and keeps the parts joined. */
  ghost predicate OnTrack(s: System, f: RouteLine.Token, t: RouteLine.Token, e: Event)
    requires RouteLine.Fits(s.line)
  {
    var es := LineEvents(s, e);
    && Apply(s, e).line == RouteLine.Run(s.line, es)
    && Joined(Apply(s, e), RouteLine.TokenAfter(s.line, RouteLine.Fwd, f, es), RouteLine.TokenAfter(s.line, RouteLine.Bwd, t, es))
  }

  lemma PassAOnTrack(s: System, f: RouteLine.Token, t: RouteLine.Token, free: bool)
    requires Joined(s, f, t)
    ensures OnTrack(s, f, t, PassA(free))
  {
    RouteLine.RunMoves(s.line, f, t, LineEvents(s, PassA(free)));
    JoinedView(s, f, t);
    PassAIsLine(s.line, s.d, ViewA(s), free);
    PassAKeepsLock(s, f, t, free);
  }

  lemma PassBOnTrack(s: System, f: RouteLine.Token, t: RouteLine.Token, free: bool)
    requires Joined(s, f, t)
    ensures OnTrack(s, f, t, PassB(free))
  {
    RouteLine.RunMoves(s.line, f, t, LineEvents(s, PassB(free)));
    PassBIsLine(s, f, t, free);
    PassBKeepsRest(s, free);
  }

  lemma PassBKeepsRest(s: System, free: bool)
    requires RouteLine.Fits(s.line)
    ensures var s' := Apply(s, PassB(free));
            && s'.line.LaneOf(s.d).open == s.line.LaneOf(s.d).open && s'.a == s.a && s'.held == s.held
    ensures !(s.b.route.okOut && s.b.route.noOut) ==>
              var b := Apply(s, PassB(free)).b; b.noStop == s.b.noStop && !(b.route.okOut && b.route.noOut)
  {
    if !(s.b.route.okOut && s.b.route.noOut) {
      AnswersStayApart(ViewB(s), free);
    }
  }

  lemma AnswersStayApart(v: SignalVars, free: bool)
    requires !(v.route.okOut && v.route.noOut)
    ensures var v' := SignalForward(v, free); v'.noStop == v.noStop && !(v'.route.okOut && v'.route.noOut)
  {
  }

  lemma OnLineOnTrack(s: System, f: RouteLine.Token, t: RouteLine.Token, e: RouteLine.Event)
    requires Joined(s, f, t)
    ensures OnTrack(s, f, t, OnLine(e))
  {
    RouteLine.RunMoves(s.line, f, t, LineEvents(s, OnLine(e)));
    if Between(s.d, e) {
      RunOne(s.line, e);
      OpenStays(s.line, s.d, e);
    }
  }

  lemma EventIsLine(s: System, f: RouteLine.Token, t: RouteLine.Token, e: Event)
    requires Joined(s, f, t)
    ensures OnTrack(s, f, t, e)
  {
    match e
    case PassA(free) => PassAOnTrack(s, f, t, free);
    case PassB(free) => PassBOnTrack(s, f, t, free);
    case OnLine(e) => OnLineOnTrack(s, f, t, e);
    case _ => AroundOnTrack(s, f, t, e);
  }

  lemma AroundOnTrack(s: System, f: RouteLine.Token, t: RouteLine.Token, e: Event)
    requires Joined(s, f, t) && (e.AroundA? || e.HoldA? || e.ReleaseA? || e.AroundB?)
    ensures OnTrack(s, f, t, e)
  {
    var s' := Apply(s, e);
    assert s'.line == s.line && LineEvents(s, e) == [];
    assert RouteLine.Run(s.line, []) == s.line;
    assert (s'.line.LaneOf(s.d).open ==> s'.a.route.lock && !s'.held) && (s'.held ==> s'.a.route.lock);
    assert !s'.b.noStop && !s'.b.route.pending && !(s'.b.route.okOut && s'.b.route.noOut);
  }

  lemma OpenStays(line: RouteLine.Line, d: RouteLine.Dir, e: RouteLine.Event)
    requires RouteLine.Fits(line) && Between(d, e)
    ensures RouteLine.Apply(line, e).LaneOf(d).open == line.LaneOf(d).open
  {
  }

  lemma PassAKeepsLock(s: System, f: RouteLine.Token, t: RouteLine.Token, free: bool)
    requires Joined(s, f, t)
    ensures var s' := Apply(s, PassA(free));
            && (s'.line.LaneOf(s.d).open ==> s'.a.route.lock && !s'.held)
            && (s'.held ==> s'.a.route.lock)
  {
    var v := ViewA(s);
    JoinedView(s, f, t);
    PassAhead(v, free);
  }

  /** Main result: what happens between two signals is a run of the line between them. */
  lemma {:induction false} RunIsLine(s: System, f: RouteLine.Token, t: RouteLine.Token, events: seq<Event>)
      returns (f': RouteLine.Token, t': RouteLine.Token)
    requires Joined(s, f, t)
    ensures Run(s, events).line == RouteLine.Run(s.line, AllLineEvents(s, events)) && Joined(Run(s, events), f', t')
    decreases |events|
  {
    f', t' := f, t;
    if events != [] {
      var es := LineEvents(s, events[0]);
      EventIsLine(s, f, t, events[0]);
      f', t' := RouteLine.TokenAfter(s.line, RouteLine.Fwd, f, es), RouteLine.TokenAfter(s.line, RouteLine.Bwd, t, es);
      RouteLine.TokenAfterConcat(s.line, RouteLine.Fwd, f, es, AllLineEvents(Apply(s, events[0]), events[1..]));
      f', t' := RunIsLine(Apply(s, events[0]), f', t', events[1..]);
    }
  }

  lemma {:induction false} BootRunIsLine(n: nat, d: RouteLine.Dir, events: seq<Event>)
      returns (f: RouteLine.Token, t: RouteLine.Token)
    ensures var s := Run(Boot(n, d), events);
            s.line == RouteLine.Run(RouteLine.Boot(n), AllLineEvents(Boot(n, d), events)) && Joined(s, f, t)
  {
    f, t := RunIsLine(Boot(n, d), RouteLine.Idle, RouteLine.Idle, events);
  }

  // ----- The line's results for two signals -----

  predicate Asks(s: System, free: bool)
    requires RouteLine.Fits(s.line)
  {
    !ViewA(s).route.tryOut && SignalForward(ViewA(s), free).route.tryOut
  }

  /** From a pass in which `a` asks until it takes the answer, no route of that direction is released
      between the signals. */
  predicate Undisturbed(s: System, events: seq<Event>)
    requires RouteLine.Fits(s.line)
  {
    var es := AllLineEvents(s, events);
    forall k | 0 <= k < |es| :: es[k] != RouteLine.Conclude(s.d) && !(es[k].Release? && es[k].d == s.d)
  }

  /** What an answer at the first link says about the line now and when it was asked. */
  ghost predicate AnswerTrue(before: RouteLine.Line, now: RouteLine.Line, d: RouteLine.Dir)
    requires RouteLine.Fits(before) && RouteLine.Fits(now) && now.Size() == before.Size()
  {
    var l, l', j := before.LaneOf(d), now.LaneOf(d), RouteLine.Entry(d, now.Size());
    && !(l'.ok[j] && l'.no[j])
    && (l'.ok[j] ==> Clear(l.route) && forall p | 0 <= p < now.Size() :: l'.route[p])
    && (l'.no[j] ==> l'.route == l.route)
    && (l'.ok[j] || l'.no[j] ==> Clear(l'.pend) && now.lock == now.LaneOf(RouteLine.Other(d)).pend)
  }

  /** Main result: between a requesting and an accepting signal route setting is all or nothing.
      When the answer to a request is there, a success has set every route between them, which were
      all clear, a failure has changed none, and no piece is locked for it any more. */
  lemma {:induction false} SignalsAllOrNothing(n: nat, d: RouteLine.Dir, before: seq<Event>, free: bool, after: seq<Event>)
    requires Asks(Run(Boot(n, d), before), free)
    requires Undisturbed(Apply(Run(Boot(n, d), before), PassA(free)), after)
    ensures var s := Run(Boot(n, d), before);
            AnswerTrue(s.line, Run(Apply(s, PassA(free)), after).line, d)
  {
    var s := Run(Boot(n, d), before);
    var f, t := BootRunIsLine(n, d, before);
    var asked := Apply(s, PassA(free));
    EventIsLine(s, f, t, PassA(free));
    var past, es := AllLineEvents(Boot(n, d), before), AllLineEvents(asked, after);
    var f1, t1 := RouteLine.TokenAfter(s.line, RouteLine.Fwd, f, LineEvents(s, PassA(free))),
                  RouteLine.TokenAfter(s.line, RouteLine.Bwd, t, LineEvents(s, PassA(free)));
    var _, _ := RunIsLine(asked, f1, t1, after);
    AskedAfter(s, f, t, free);
    RouteLine.AllOrNothing(n, past, d, es);
  }

  /** A pass that asks is a request to a line on which none is open. */
  lemma AskedAfter(s: System, f: RouteLine.Token, t: RouteLine.Token, free: bool)
    requires Joined(s, f, t) && Asks(s, free)
    ensures !s.line.LaneOf(s.d).open
    ensures Apply(s, PassA(free)).line == RouteLine.Apply(s.line, RouteLine.RequestRoute(s.d))
  {
    JoinedView(s, f, t);
    PassAhead(ViewA(s), free);
    PassAIsLine(s.line, s.d, ViewA(s), free);
    RunOne(s.line, RouteLine.RequestRoute(s.d));
  }

  /** Main result: a signal lights its lamp only with every route up to the next signal set. */
  lemma {:induction false} GreenMeansRouteSet(n: nat, d: RouteLine.Dir, before: seq<Event>, free: bool, after: seq<Event>, free': bool)
    requires Asks(Run(Boot(n, d), before), free)
    requires Undisturbed(Apply(Run(Boot(n, d), before), PassA(free)), after)
    ensures var s := Run(Apply(Run(Boot(n, d), before), PassA(free)), after);
            var s' := Apply(s, PassA(free'));
            s'.a.signal && !s.a.signal ==> forall p | 0 <= p < n :: s'.line.LaneOf(d).route[p]
  {
    var s0 := Run(Boot(n, d), before);
    SignalsAllOrNothing(n, d, before, free, after);
    var f, t := BootRunIsLine(n, d, before);
    EventIsLine(s0, f, t, PassA(free));
    var f1, t1 := RouteLine.TokenAfter(s0.line, RouteLine.Fwd, f, LineEvents(s0, PassA(free))),
                  RouteLine.TokenAfter(s0.line, RouteLine.Bwd, t, LineEvents(s0, PassA(free)));
    var f2, t2 := RunIsLine(Apply(s0, PassA(free)), f1, t1, after);
    var s := Run(Apply(s0, PassA(free)), after);
    JoinedView(s, f2, t2);
    PassAnswers(ViewA(s), free');
  }

  /** Main result: over any run, the requests that reach the line from `a` are answered once each, or
      one is still outstanding. */
  lemma {:induction false} SignalsAnsweredExactlyOnce(n: nat, d: RouteLine.Dir, events: seq<Event>)
    ensures var es := AllLineEvents(Boot(n, d), events);
            RouteLine.Requested(RouteLine.Boot(n), d, es)
              == RouteLine.Delivered(RouteLine.Boot(n), d, es)
                 + (if RouteLine.Outstanding(Run(Boot(n, d), events).line, d) then 1 else 0)
  {
    var _, _ := BootRunIsLine(n, d, events);
    RouteLine.AnsweredExactlyOnce(n, d, AllLineEvents(Boot(n, d), events));
  }
}
