/** Route setting along a line of any number of straight track pieces.

  Pieces are numbered 0..n-1 and the links between neighbours 0..n; piece p lies between
  link p and link p+1.  Each travel direction is a lane of its own handshake bits, while the
  lock and the route bits of a piece are shared by both lanes.  Requests enter a lane at its
  entry link, are answered by whatever lies beyond its exit link, and both lanes may be used
  at the same time. */
module RouteLine {
  import opened RouteRules

  datatype Dir = Fwd | Bwd

  function Other(d: Dir): Dir {
    if d == Fwd then Bwd else Fwd
  }

  /** `open` is the lock of the requester before the entry link. */
  datatype Lane = Lane(open: bool, ask: seq<bool>, ok: seq<bool>, no: seq<bool>, pend: seq<bool>, route: seq<bool>)

  datatype Line = Line(fwd: Lane, bwd: Lane, lock: seq<bool>, occupied: seq<bool>) {
    function Size(): nat { |lock| }

    function LaneOf(d: Dir): Lane { if d == Fwd then fwd else bwd }

    function With(d: Dir, l: Lane): Line {
      if d == Fwd then this.(fwd := l) else this.(bwd := l)
    }
  }

  /** Pass: the block of one direction of one piece.  RequestRoute, Conclude: the requester
      asks, and later takes the answer.  Answer: the far end decides.  Occupy: a detector
      changes.  Release: occupancy clears a route bit. */
  datatype Event =
    | Pass(d: Dir, p: nat)
    | RequestRoute(d: Dir)
    | Conclude(d: Dir)
    | Answer(d: Dir, accept: bool)
    | Occupy(p: nat, busy: bool)
    | Release(d: Dir, p: nat)

  function In(d: Dir, p: nat): nat { if d == Fwd then p else p + 1 }
  function Out(d: Dir, p: nat): nat { if d == Fwd then p + 1 else p }
  function Entry(d: Dir, n: nat): nat { if d == Fwd then 0 else n }
  function Exit(d: Dir, n: nat): nat { if d == Fwd then n else 0 }

  /** Piece p lies between the entry of the lane and link `at`. */
  predicate Behind(d: Dir, at: nat, p: nat) { if d == Fwd then p < at else at <= p }

  predicate LaneFits(l: Lane, n: nat) {
    |l.ask| == |l.ok| == |l.no| == n + 1 && |l.pend| == |l.route| == n
  }

  predicate Fits(s: Line) {
    LaneFits(s.fwd, s.Size()) && LaneFits(s.bwd, s.Size()) && |s.occupied| == s.Size()
  }

  /** The bits one block of rules sees; the opposite route and the detector are conflicting. */
  function Vars(s: Line, d: Dir, p: nat): RouteVars
    requires Fits(s) && p < s.Size()
  {
    var l := s.LaneOf(d);
    var i, o := In(d, p), Out(d, p);
    RouteVars(l.ask[i], l.ok[i], l.no[i], l.ask[o], l.ok[o], l.no[o], s.lock[p], l.pend[p], [l.route[p]])
  }

  predicate Free(s: Line, d: Dir, p: nat)
    requires Fits(s) && p < s.Size()
  {
    !s.LaneOf(Other(d)).route[p] && !s.occupied[p]
  }

  function StoreVars(s: Line, d: Dir, p: nat, v: RouteVars): (s': Line)
    requires Fits(s) && p < s.Size() && |v.current| == 1
    ensures Fits(s') && s'.Size() == s.Size()
  {
    var l := s.LaneOf(d);
    var i, o := In(d, p), Out(d, p);
    s.With(d, l.(ask := l.ask[i := v.tryIn][o := v.tryOut], ok := l.ok[i := v.okIn][o := v.okOut],
                 no := l.no[i := v.noIn][o := v.noOut], pend := l.pend[p := v.pending],
                 route := l.route[p := v.current[0]]))
     .(lock := s.lock[p := v.lock])
  }

  function RunPass(s: Line, d: Dir, p: nat): (s': Line)
    requires Fits(s) && p < s.Size()
    ensures Fits(s') && s'.Size() == s.Size()
  {
    StoreVars(s, d, p, SimulateRoute(Vars(s, d, p), true, Free(s, d, p)))
  }

  /** One event; events that are not enabled do nothing. */
  function Apply(s: Line, e: Event): (s': Line)
    requires Fits(s)
    ensures Fits(s') && s'.Size() == s.Size()
  {
    var n := s.Size();
    match e
    case Pass(d, p) => if p < n then RunPass(s, d, p) else s
    case RequestRoute(d) =>
      var l, j := s.LaneOf(d), Entry(d, n);
      if l.open || l.ask[j] || l.ok[j] || l.no[j] then s
      else s.With(d, l.(open := true, ask := l.ask[j := true]))
    case Conclude(d) =>
      var l, j := s.LaneOf(d), Entry(d, n);
      if l.open && (l.ok[j] || l.no[j]) then
        s.With(d, l.(open := false, ok := l.ok[j := false], no := l.no[j := false]))
      else s
    case Answer(d, accept) =>
      var l, j := s.LaneOf(d), Exit(d, n);
      if l.ask[j] then s.With(d, l.(ask := l.ask[j := false], ok := l.ok[j := accept], no := l.no[j := !accept]))
      else s
    case Occupy(p, busy) => if p < n then s.(occupied := s.occupied[p := busy]) else s
    case Release(d, p) =>
      var l := s.LaneOf(d);
      if p < n then s.With(d, l.(route := l.route[p := false])) else s
  }

  function Run(s: Line, events: seq<Event>): (s': Line)
    requires Fits(s)
    ensures Fits(s') && s'.Size() == s.Size()
    decreases |events|
  {
    if events == [] then s else Run(Apply(s, events[0]), events[1..])
  }

  // ----- The request as a token -----

  /** Where the one request of a lane is: travelling out at a link, or travelling back. */
  datatype Token = Idle | Asking(at: nat) | Refused(at: nat) | Granted(at: nat)

  ghost predicate LaneMatches(l: Lane, d: Dir, n: nat, t: Token) {
    && LaneFits(l, n)
    && (l.open <==> !t.Idle?)
    && (!t.Idle? ==> t.at <= n)
    && (forall j | 0 <= j <= n :: l.ask[j] <==> t == Asking(j))
    && (forall j | 0 <= j <= n :: l.ok[j] <==> t == Granted(j))
    && (forall j | 0 <= j <= n :: l.no[j] <==> t == Refused(j))
    && (forall p | 0 <= p < n :: l.pend[p] <==> !t.Idle? && Behind(d, t.at, p))
  }

  /** A locked piece belongs to one lane and has no route; no piece has both routes. */
  ghost predicate PiecesMatch(s: Line) {
    && Fits(s)
    && (forall p | 0 <= p < s.Size() :: s.lock[p] <==> (s.fwd.pend[p] || s.bwd.pend[p]))
    && (forall p | 0 <= p < s.Size() :: !(s.fwd.pend[p] && s.bwd.pend[p]))
    && (forall p | 0 <= p < s.Size() :: s.lock[p] ==> !s.fwd.route[p] && !s.bwd.route[p])
    && (forall p | 0 <= p < s.Size() :: !(s.fwd.route[p] && s.bwd.route[p]))
  }

  /** The bits of the whole line are exactly those of two tokens. */
  ghost predicate Matches(s: Line, f: Token, b: Token) {
    && Fits(s)
    && LaneMatches(s.fwd, Fwd, s.Size(), f)
    && LaneMatches(s.bwd, Bwd, s.Size(), b)
    && PiecesMatch(s)
  }

  /** Piece p would accept a request from lane d right now. */
  predicate Accepts(s: Line, d: Dir, p: nat)
    requires Fits(s) && p < s.Size()
  {
    !s.lock[p] && !s.LaneOf(d).route[p] && Free(s, d, p)
  }

  /** How an event moves the token of lane d. */
  function Next(s: Line, d: Dir, t: Token, e: Event): Token
    requires Fits(s)
  {
    if e.Occupy? || e.d != d then t
    else match e
      case Pass(_, p) =>
        if p >= s.Size() then t
        else if t == Asking(In(d, p)) then (if Accepts(s, d, p) then Asking(Out(d, p)) else Refused(In(d, p)))
        else if t == Refused(Out(d, p)) then Refused(In(d, p))
        else if t == Granted(Out(d, p)) then Granted(In(d, p))
        else t
      case RequestRoute(_) => if t == Idle then Asking(Entry(d, s.Size())) else t
      case Conclude(_) =>
        if t == Refused(Entry(d, s.Size())) || t == Granted(Entry(d, s.Size())) then Idle else t
      case Answer(_, accept) =>
        if t == Asking(Exit(d, s.Size())) then
          (if accept then Granted(Exit(d, s.Size())) else Refused(Exit(d, s.Size())))
        else t
      case Release(_, _) => t
  }

  function TokenOf(d: Dir, f: Token, b: Token): Token { if d == Fwd then f else b }

  /** The lane after the pass, when the request waits in front of the piece. */
  function AskedLane(l: Lane, d: Dir, p: nat, accepted: bool): Lane
    requires LaneFits(l, |l.pend|) && p < |l.pend|
  {
    if accepted then l.(ask := l.ask[In(d, p) := false][Out(d, p) := true], pend := l.pend[p := true])
    else l.(ask := l.ask[In(d, p) := false], no := l.no[In(d, p) := true])
  }

  /** The lane after the pass, when the answer waits behind the piece. */
  function AnsweredLane(l: Lane, d: Dir, p: nat, granted: bool): Lane
    requires LaneFits(l, |l.pend|) && p < |l.pend|
  {
    if granted then
      l.(ok := l.ok[In(d, p) := true][Out(d, p) := false], pend := l.pend[p := false], route := l.route[p := true])
    else
      l.(no := l.no[In(d, p) := true][Out(d, p) := false], pend := l.pend[p := false])
  }

  /** The line after the pass, in terms of the token. */
  function PassResult(s: Line, d: Dir, t: Token, p: nat): Line
    requires Fits(s) && p < s.Size()
  {
    var l := s.LaneOf(d);
    if t == Asking(In(d, p)) then
      var accepted := Accepts(s, d, p);
      s.With(d, AskedLane(l, d, p, accepted)).(lock := s.lock[p := s.lock[p] || accepted])
    else if t == Refused(Out(d, p)) || t == Granted(Out(d, p)) then
      s.With(d, AnsweredLane(l, d, p, t.Granted?)).(lock := s.lock[p := false])
    else s
  }

  /** What the block of rules sees, in terms of the token. */
  lemma VarsFromToken(s: Line, d: Dir, t: Token, p: nat)
    requires Fits(s) && p < s.Size() && LaneMatches(s.LaneOf(d), d, s.Size(), t)
    ensures var v := Vars(s, d, p);
            && v.tryIn == (t == Asking(In(d, p))) && v.tryOut == (t == Asking(Out(d, p)))
            && v.okIn == (t == Granted(In(d, p))) && v.okOut == (t == Granted(Out(d, p)))
            && v.noIn == (t == Refused(In(d, p))) && v.noOut == (t == Refused(Out(d, p)))
            && v.pending == (!t.Idle? && Behind(d, t.at, p))
  {
  }

  lemma AskPass(s: Line, d: Dir, p: nat)
    requires Fits(s) && p < s.Size()
    requires var v := Vars(s, d, p);
             v.tryIn && !v.tryOut && !v.okIn && !v.okOut && !v.noIn && !v.noOut && !v.pending
    ensures RunPass(s, d, p) == PassResult(s, d, Asking(In(d, p)), p)
  {
    var v := Vars(s, d, p);
    var v' := SimulateRoute(v, true, Free(s, d, p));
    var r := PassResult(s, d, Asking(In(d, p)), p);
    var l' := StoreVars(s, d, p, v').LaneOf(d);
    assert Clear(v.current) <==> !s.LaneOf(d).route[p];
    if Accepts(s, d, p) {
      assert v' == v.(lock := true, pending := true, tryIn := false, tryOut := true);
    } else {
      assert v' == v.(tryIn := false, noIn := true);
    }
    assert l'.ask == r.LaneOf(d).ask;
    assert l'.ok == r.LaneOf(d).ok;
    assert l'.no == r.LaneOf(d).no;
    assert l'.pend == r.LaneOf(d).pend;
    assert l'.route == r.LaneOf(d).route;
    assert StoreVars(s, d, p, v').lock == r.lock;
  }

  lemma AnswerPass(s: Line, d: Dir, p: nat, granted: bool)
    requires Fits(s) && p < s.Size()
    requires var v := Vars(s, d, p);
             !v.tryIn && !v.tryOut && !v.okIn && !v.noIn && v.okOut == granted && v.noOut == !granted && v.pending
    ensures RunPass(s, d, p) == s.With(d, AnsweredLane(s.LaneOf(d), d, p, granted)).(lock := s.lock[p := false])
  {
    var v := Vars(s, d, p);
    var v' := SimulateRoute(v, true, Free(s, d, p));
    var r := s.With(d, AnsweredLane(s.LaneOf(d), d, p, granted)).(lock := s.lock[p := false]);
    var l' := StoreVars(s, d, p, v').LaneOf(d);
    assert Raised(v.current) == [true];
    assert v' == v.(pending := false, lock := false, noOut := false, okOut := false,
                    okIn := granted, noIn := !granted, current := if granted then [true] else v.current);
    assert l'.ask == r.LaneOf(d).ask;
    assert l'.ok == r.LaneOf(d).ok;
    assert l'.no == r.LaneOf(d).no;
    assert l'.pend == r.LaneOf(d).pend;
    assert l'.route == r.LaneOf(d).route;
  }

  lemma QuietPass(s: Line, d: Dir, p: nat)
    requires Fits(s) && p < s.Size()
    requires var v := Vars(s, d, p); !v.tryIn && !(v.pending && (v.okOut || v.noOut))
    ensures RunPass(s, d, p) == s
  {
    var v := Vars(s, d, p);
    assert SimulateRoute(v, true, Free(s, d, p)) == v;
    var l, l' := s.LaneOf(d), StoreVars(s, d, p, v).LaneOf(d);
    assert l'.ask == l.ask && l'.ok == l.ok && l'.no == l.no && l'.pend == l.pend && l'.route == l.route;
    assert StoreVars(s, d, p, v).lock == s.lock;
  }

  lemma PassComputes(s: Line, d: Dir, t: Token, p: nat)
    requires Fits(s) && p < s.Size() && LaneMatches(s.LaneOf(d), d, s.Size(), t)
    ensures RunPass(s, d, p) == PassResult(s, d, t, p)
  {
    VarsFromToken(s, d, t, p);
    if t == Asking(In(d, p)) {
      AskPass(s, d, p);
    } else if t == Refused(Out(d, p)) || t == Granted(Out(d, p)) {
      AnswerPass(s, d, p, t.Granted?);
    } else {
      QuietPass(s, d, p);
    }
  }

  lemma AskedLaneMatches(l: Lane, d: Dir, n: nat, p: nat, accepted: bool)
    requires LaneMatches(l, d, n, Asking(In(d, p))) && p < n
    ensures LaneMatches(AskedLane(l, d, p, accepted), d, n, if accepted then Asking(Out(d, p)) else Refused(In(d, p)))
  {
  }

  lemma AnsweredLaneMatches(l: Lane, d: Dir, n: nat, p: nat, granted: bool)
    requires LaneMatches(l, d, n, if granted then Granted(Out(d, p)) else Refused(Out(d, p))) && p < n
    ensures LaneMatches(AnsweredLane(l, d, p, granted), d, n, if granted then Granted(In(d, p)) else Refused(In(d, p)))
  {
  }

  lemma ResultLaneMatches(s: Line, d: Dir, t: Token, p: nat)
    requires Fits(s) && p < s.Size() && LaneMatches(s.LaneOf(d), d, s.Size(), t)
    ensures LaneMatches(PassResult(s, d, t, p).LaneOf(d), d, s.Size(), Next(s, d, t, Pass(d, p)))
  {
    if t == Asking(In(d, p)) {
      AskedLaneMatches(s.LaneOf(d), d, s.Size(), p, Accepts(s, d, p));
    } else if t == Refused(Out(d, p)) || t == Granted(Out(d, p)) {
      AnsweredLaneMatches(s.LaneOf(d), d, s.Size(), p, t.Granted?);
    }
  }

  lemma ResultPiecesMatch(s: Line, d: Dir, t: Token, p: nat)
    requires PiecesMatch(s) && p < s.Size() && LaneMatches(s.LaneOf(d), d, s.Size(), t)
    ensures PiecesMatch(PassResult(s, d, t, p))
  {
    var s' := PassResult(s, d, t, p);
    if t == Refused(Out(d, p)) || t == Granted(Out(d, p)) {
      assert s.LaneOf(d).pend[p];
    }
    forall k | 0 <= k < s.Size() && k != p
      ensures s'.lock[k] == s.lock[k] && s'.fwd.pend[k] == s.fwd.pend[k] && s'.bwd.pend[k] == s.bwd.pend[k]
      ensures s'.fwd.route[k] == s.fwd.route[k] && s'.bwd.route[k] == s.bwd.route[k]
    {
    }
  }

  lemma PassMoves(s: Line, f: Token, b: Token, d: Dir, p: nat)
    requires Matches(s, f, b) && p < s.Size()
    ensures Matches(RunPass(s, d, p), Next(s, Fwd, f, Pass(d, p)), Next(s, Bwd, b, Pass(d, p)))
  {
    var t := TokenOf(d, f, b);
    PassComputes(s, d, t, p);
    ResultLaneMatches(s, d, t, p);
    ResultPiecesMatch(s, d, t, p);
  }

  /** The requester and the far end only touch the end links. */
  lemma EndMoves(s: Line, d: Dir, t: Token, e: Event)
    requires Fits(s) && LaneMatches(s.LaneOf(d), d, s.Size(), t)
    requires e == RequestRoute(d) || e == Conclude(d) || (e.Answer? && e.d == d)
    ensures LaneMatches(Apply(s, e).LaneOf(d), d, s.Size(), Next(s, d, t, e))
  {
    var n := s.Size();
    var l, l' := s.LaneOf(d), Apply(s, e).LaneOf(d);
    var t' := Next(s, d, t, e);
    if e.Answer? {
      assert l.ask[Exit(d, n)] <==> t == Asking(Exit(d, n));
    } else {
      assert l.ask[Entry(d, n)] <==> t == Asking(Entry(d, n));
      assert l.ok[Entry(d, n)] <==> t == Granted(Entry(d, n));
      assert l.no[Entry(d, n)] <==> t == Refused(Entry(d, n));
    }
    assert l'.open <==> !t'.Idle?;
    assert forall j | 0 <= j <= n :: l'.ask[j] <==> t' == Asking(j);
    assert forall j | 0 <= j <= n :: l'.ok[j] <==> t' == Granted(j);
    assert forall j | 0 <= j <= n :: l'.no[j] <==> t' == Refused(j);
  }

  lemma EndEventMoves(s: Line, f: Token, b: Token, d: Dir, e: Event)
    requires Matches(s, f, b)
    requires e == RequestRoute(d) || e == Conclude(d) || (e.Answer? && e.d == d)
    ensures Matches(Apply(s, e), Next(s, Fwd, f, e), Next(s, Bwd, b, e))
  {
    EndMoves(s, d, TokenOf(d, f, b), e);
    EndKeepsPieces(s, d, e);
    assert Next(s, Other(d), TokenOf(Other(d), f, b), e) == TokenOf(Other(d), f, b);
    assert LaneMatches(Apply(s, e).LaneOf(Other(d)), Other(d), s.Size(), TokenOf(Other(d), f, b));
  }

  lemma EventMoves(s: Line, f: Token, b: Token, e: Event)
    requires Matches(s, f, b)
    ensures Matches(Apply(s, e), Next(s, Fwd, f, e), Next(s, Bwd, b, e))
  {
    match e
    case Pass(d, p) =>
      if p < s.Size() {
        PassMoves(s, f, b, d, p);
      }
    case Occupy(p, busy) => OccupyMoves(s, f, b, p, busy);
    case Release(d, p) => ReleaseMoves(s, f, b, d, p);
    case RequestRoute(d) => EndEventMoves(s, f, b, d, e);
    case Conclude(d) => EndEventMoves(s, f, b, d, e);
    case Answer(d, _) => EndEventMoves(s, f, b, d, e);
  }

  lemma OccupyMoves(s: Line, f: Token, b: Token, p: nat, busy: bool)
    requires Matches(s, f, b)
    ensures Matches(Apply(s, Occupy(p, busy)), f, b)
  {
  }

  lemma EndKeepsPieces(s: Line, d: Dir, e: Event)
    requires Fits(s) && PiecesMatch(s)
    requires e == RequestRoute(d) || e == Conclude(d) || (e.Answer? && e.d == d)
    ensures PiecesMatch(Apply(s, e)) && Apply(s, e).LaneOf(Other(d)) == s.LaneOf(Other(d))
    ensures Apply(s, e).LaneOf(d).route == s.LaneOf(d).route
  {
  }

  lemma ReleaseMoves(s: Line, f: Token, b: Token, d: Dir, p: nat)
    requires Matches(s, f, b)
    ensures Matches(Apply(s, Release(d, p)), f, b)
  {
  }

  function TokenAfter(s: Line, d: Dir, t: Token, events: seq<Event>): Token
    requires Fits(s)
    decreases |events|
  {
    if events == [] then t else TokenAfter(Apply(s, events[0]), d, Next(s, d, t, events[0]), events[1..])
  }

  /** Over any run the line stays two tokens; in particular no piece ever has both routes. */
  lemma {:induction false} RunMoves(s: Line, f: Token, b: Token, events: seq<Event>)
    requires Matches(s, f, b)
    ensures Matches(Run(s, events), TokenAfter(s, Fwd, f, events), TokenAfter(s, Bwd, b, events))
    ensures forall p | 0 <= p < s.Size() :: !(Run(s, events).fwd.route[p] && Run(s, events).bwd.route[p])
    decreases |events|
  {
    if events != [] {
      EventMoves(s, f, b, events[0]);
      RunMoves(Apply(s, events[0]), Next(s, Fwd, f, events[0]), Next(s, Bwd, b, events[0]), events[1..]);
    }
  }

  /** All bits are zero after boot. */
  function Boot(n: nat): (s: Line)
    ensures Fits(s) && s.Size() == n && Matches(s, Idle, Idle)
  {
    var links, pieces := seq(n + 1, _ => false), seq(n, _ => false);
    var lane := Lane(false, links, links, links, pieces, pieces);
    Line(lane, lane, pieces, pieces)
  }

  lemma {:induction false} ReachableMatches(n: nat, events: seq<Event>) returns (f: Token, b: Token)
    ensures Matches(Run(Boot(n), events), f, b)
  {
    f, b := TokenAfter(Boot(n), Fwd, Idle, events), TokenAfter(Boot(n), Bwd, Idle, events);
    RunMoves(Boot(n), Idle, Idle, events);
  }

  // ----- All or nothing -----

  /** The route bits of the lane relative to what they were at the request. */
  ghost predicate RoutesHeld(l: Lane, d: Dir, t: Token, base: seq<bool>) {
    && |l.route| == |base|
    && (t.Asking? || t.Refused? ==> l.route == base)
    && (t.Granted? ==> Clear(base) && forall p | 0 <= p < |base| :: l.route[p] <==> !Behind(d, t.at, p))
  }

  lemma PassHolds(s: Line, d: Dir, t: Token, p: nat, base: seq<bool>)
    requires Fits(s) && PiecesMatch(s) && p < s.Size() && t != Idle
    requires LaneMatches(s.LaneOf(d), d, s.Size(), t) && RoutesHeld(s.LaneOf(d), d, t, base)
    ensures RoutesHeld(PassResult(s, d, t, p).LaneOf(d), d, Next(s, d, t, Pass(d, p)), base)
    ensures Next(s, d, t, Pass(d, p)) != Idle
  {
  }

  /** The far end is asked only once every piece is locked, and locked pieces have no route. */
  lemma AnswerHolds(s: Line, d: Dir, t: Token, e: Event, base: seq<bool>)
    requires Fits(s) && PiecesMatch(s) && t != Idle && e.Answer? && e.d == d
    requires LaneMatches(s.LaneOf(d), d, s.Size(), t) && RoutesHeld(s.LaneOf(d), d, t, base)
    ensures RoutesHeld(Apply(s, e).LaneOf(d), d, Next(s, d, t, e), base)
    ensures Next(s, d, t, e) != Idle
  {
    if t == Asking(Exit(d, s.Size())) {
      forall p | 0 <= p < s.Size()
        ensures !s.LaneOf(d).route[p] && Behind(d, Exit(d, s.Size()), p)
      {
        assert s.LaneOf(d).pend[p];
        assert s.lock[p];
      }
    }
  }

  lemma EventHolds(s: Line, f: Token, b: Token, d: Dir, e: Event, base: seq<bool>)
    requires Matches(s, f, b) && RoutesHeld(s.LaneOf(d), d, TokenOf(d, f, b), base)
    requires TokenOf(d, f, b) != Idle && e != Conclude(d) && !(e.Release? && e.d == d)
    ensures RoutesHeld(Apply(s, e).LaneOf(d), d, Next(s, d, TokenOf(d, f, b), e), base)
    ensures Next(s, d, TokenOf(d, f, b), e) != Idle
  {
    var t := TokenOf(d, f, b);
    if e.Pass? && e.p < s.Size() {
      PassComputes(s, e.d, TokenOf(e.d, f, b), e.p);
      if e.d == d {
        PassHolds(s, d, t, e.p, base);
      }
    } else if e.Answer? && e.d == d {
      AnswerHolds(s, d, t, e, base);
    } else if e.RequestRoute? && e.d == d {
      assert Apply(s, e) == s;
    }
  }

  lemma {:induction false} RunHolds(s: Line, f: Token, b: Token, d: Dir, events: seq<Event>, base: seq<bool>)
    requires Matches(s, f, b) && RoutesHeld(s.LaneOf(d), d, TokenOf(d, f, b), base)
    requires TokenOf(d, f, b) != Idle
    requires forall k | 0 <= k < |events| :: events[k] != Conclude(d) && !(events[k].Release? && events[k].d == d)
    ensures RoutesHeld(Run(s, events).LaneOf(d), d, TokenAfter(s, d, TokenOf(d, f, b), events), base)
    ensures TokenAfter(s, d, TokenOf(d, f, b), events) != Idle
    decreases |events|
  {
    if events != [] {
      EventHolds(s, f, b, d, events[0], base);
      EventMoves(s, f, b, events[0]);
      RunHolds(Apply(s, events[0]), Next(s, Fwd, f, events[0]), Next(s, Bwd, b, events[0]), d, events[1..], base);
    }
  }

  lemma AnswerMeans(s: Line, f: Token, b: Token, d: Dir, base: seq<bool>)
    requires Matches(s, f, b) && TokenOf(d, f, b) != Idle
    requires RoutesHeld(s.LaneOf(d), d, TokenOf(d, f, b), base)
    ensures var l, j := s.LaneOf(d), Entry(d, s.Size());
            && !(l.ok[j] && l.no[j])
            && (l.ok[j] ==> Clear(base) && forall p | 0 <= p < s.Size() :: l.route[p])
            && (l.no[j] ==> l.route == base)
            && (l.ok[j] || l.no[j] ==> Clear(l.pend) && s.lock == s.LaneOf(Other(d)).pend)
  {
    var t, l, j := TokenOf(d, f, b), s.LaneOf(d), Entry(d, s.Size());
    assert LaneMatches(l, d, s.Size(), t);
    assert l.ok[j] <==> t == Granted(j);
    assert l.no[j] <==> t == Refused(j);
    if l.ok[j] || l.no[j] {
      assert forall p | 0 <= p < s.Size() :: !Behind(d, j, p);
      assert forall p | 0 <= p < s.Size() :: !l.pend[p];
      assert forall p | 0 <= p < s.Size() :: s.lock[p] <==> s.LaneOf(Other(d)).pend[p];
    }
  }

  lemma {:induction false} AllOrNothingFrom(s: Line, f: Token, b: Token, d: Dir, events: seq<Event>)
    requires Matches(s, f, b) && TokenOf(d, f, b) == Idle
    requires forall k | 0 <= k < |events| :: events[k] != Conclude(d) && !(events[k].Release? && events[k].d == d)
    ensures var s' := Run(Apply(s, RequestRoute(d)), events);
            var l, l', j := s.LaneOf(d), s'.LaneOf(d), Entry(d, s.Size());
            && !(l'.ok[j] && l'.no[j])
            && (l'.ok[j] ==> Clear(l.route) && forall p | 0 <= p < s.Size() :: l'.route[p])
            && (l'.no[j] ==> l'.route == l.route)
            && (l'.ok[j] || l'.no[j] ==> Clear(l'.pend) && s'.lock == s'.LaneOf(Other(d)).pend)
  {
    var s0 := Apply(s, RequestRoute(d));
    var f0, b0 := Next(s, Fwd, f, RequestRoute(d)), Next(s, Bwd, b, RequestRoute(d));
    EventMoves(s, f, b, RequestRoute(d));
    EndKeepsPieces(s, d, RequestRoute(d));
    RunHolds(s0, f0, b0, d, events, s.LaneOf(d).route);
    RunMoves(s0, f0, b0, events);
    AnswerMeans(Run(s0, events), TokenAfter(s0, Fwd, f0, events), TokenAfter(s0, Bwd, b0, events), d, s.LaneOf(d).route);
  }

  /** Main result: from any state a line can get into, whatever the interleaving and whatever
      the opposite lane does meanwhile, a request that comes back granted has set the route of
      every piece, one that comes back refused has changed no route, and in both cases it has
      given up every lock. */
  lemma {:induction false} AllOrNothing(n: nat, before: seq<Event>, d: Dir, events: seq<Event>)
    requires !Run(Boot(n), before).LaneOf(d).open
    requires forall k | 0 <= k < |events| :: events[k] != Conclude(d) && !(events[k].Release? && events[k].d == d)
    ensures var s := Run(Boot(n), before);
            var s' := Run(Apply(s, RequestRoute(d)), events);
            var l, l', j := s.LaneOf(d), s'.LaneOf(d), Entry(d, n);
            && !(l'.ok[j] && l'.no[j])
            && (l'.ok[j] ==> Clear(l.route) && forall p | 0 <= p < n :: l'.route[p])
            && (l'.no[j] ==> l'.route == l.route)
            && (l'.ok[j] || l'.no[j] ==> Clear(l'.pend) && s'.lock == s'.LaneOf(Other(d)).pend)
  {
    var f, b := ReachableMatches(n, before);
    assert LaneMatches(Run(Boot(n), before).LaneOf(d), d, n, TokenOf(d, f, b));
    AllOrNothingFrom(Run(Boot(n), before), f, b, d, events);
  }

  /** Main result: no run, releases included, ever sets both routes of a piece. */
  lemma NoOpposingRoutes(n: nat, events: seq<Event>, p: nat)
    requires p < n
    ensures !(Run(Boot(n), events).fwd.route[p] && Run(Boot(n), events).bwd.route[p])
  {
    var f, b := ReachableMatches(n, events);
  }

  // ----- Every request is answered, once -----

  function Distance(d: Dir, n: nat, at: nat): int { if d == Fwd then at else n - at }

  /** Hops still to go out, plus hops back, plus the pickup. */
  function Rank(d: Dir, n: nat, t: Token): int {
    match t
    case Idle => 0
    case Asking(at) => 2 * n + 3 - Distance(d, n, at)
    case Refused(at) => Distance(d, n, at) + 1
    case Granted(at) => Distance(d, n, at) + 1
  }

  /** The event that has to happen next for the request of lane d. */
  predicate Enabled(d: Dir, n: nat, t: Token, e: Event) {
    match t
    case Idle => false
    case Asking(at) =>
      if at == Exit(d, n) then e.Answer? && e.d == d else e.Pass? && e.d == d && e.p < n && In(d, e.p) == at
    case Refused(at) => if at == Entry(d, n) then e == Conclude(d) else e.Pass? && e.d == d && e.p < n && Out(d, e.p) == at
    case Granted(at) => if at == Entry(d, n) then e == Conclude(d) else e.Pass? && e.d == d && e.p < n && Out(d, e.p) == at
  }

  /** The enabled event brings the request strictly nearer its answer; no other event moves it. */
  lemma EnabledDecreasesRank(s: Line, d: Dir, t: Token, e: Event)
    requires Fits(s) && (!t.Idle? ==> t.at <= s.Size()) && e != RequestRoute(d)
    ensures Enabled(d, s.Size(), t, e) ==> 0 <= Rank(d, s.Size(), Next(s, d, t, e)) < Rank(d, s.Size(), t)
    ensures !Enabled(d, s.Size(), t, e) ==> Next(s, d, t, e) == t
    ensures !Next(s, d, t, e).Idle? ==> Next(s, d, t, e).at <= s.Size()
  {
  }

  /** No deadlock: as long as a request is open, one of the n passes, the far end's answer or
      the requester's pickup is enabled. */
  function NextEvent(d: Dir, n: nat, t: Token): (e: Event)
    requires t != Idle && t.at <= n
    ensures Enabled(d, n, t, e)
  {
    match t
    case Asking(at) => if at == Exit(d, n) then Answer(d, true) else Pass(d, if d == Fwd then at else at - 1)
    case Refused(at) => if at == Entry(d, n) then Conclude(d) else Pass(d, if d == Fwd then at - 1 else at)
    case Granted(at) => if at == Entry(d, n) then Conclude(d) else Pass(d, if d == Fwd then at - 1 else at)
  }

  /** In a round every piece runs its block of lane d, the far end looks at its link and the
      requester looks at its link, in any order and mixed with anything else. */
  ghost predicate Round(d: Dir, n: nat, events: seq<Event>) {
    && (forall p: nat | p < n :: Pass(d, p) in events)
    && (Answer(d, true) in events || Answer(d, false) in events)
    && Conclude(d) in events
    && RequestRoute(d) !in events
  }

  lemma {:induction false} StepsDecreaseRank(s: Line, d: Dir, t: Token, events: seq<Event>)
    requires Fits(s) && (!t.Idle? ==> t.at <= s.Size()) && RequestRoute(d) !in events
    ensures var t' := TokenAfter(s, d, t, events);
            && (!t'.Idle? ==> t'.at <= s.Size())
            && (0 <= Rank(d, s.Size(), t') < Rank(d, s.Size(), t)
                || (t' == t && forall k | 0 <= k < |events| :: !Enabled(d, s.Size(), t, events[k])))
    decreases |events|
  {
    if events != [] {
      var e := events[0];
      assert e in events && forall x | x in events[1..] :: x in events;
      EnabledDecreasesRank(s, d, t, e);
      StepsDecreaseRank(Apply(s, e), d, Next(s, d, t, e), events[1..]);
      assert forall k | 1 <= k < |events| :: events[k] == events[1..][k - 1];
    }
  }

  lemma RoundDecreasesRank(s: Line, d: Dir, t: Token, events: seq<Event>)
    requires Fits(s) && t != Idle && t.at <= s.Size() && Round(d, s.Size(), events)
    ensures 0 <= Rank(d, s.Size(), TokenAfter(s, d, t, events)) < Rank(d, s.Size(), t)
  {
    StepsDecreaseRank(s, d, t, events);
    var e := NextEvent(d, s.Size(), t);
    var e' := if e.Answer? && e !in events then Answer(d, false) else e;
    assert e' in events && Enabled(d, s.Size(), t, e');
  }

  lemma {:induction false} TokenAfterConcat(s: Line, d: Dir, t: Token, a: seq<Event>, b: seq<Event>)
    requires Fits(s)
    ensures Run(s, a + b) == Run(Run(s, a), b)
    ensures TokenAfter(s, d, t, a + b) == TokenAfter(Run(s, a), d, TokenAfter(s, d, t, a), b)
    decreases |a|
  {
    if a == [] {
      assert a + b == b;
    } else {
      assert (a + b)[0] == a[0] && (a + b)[1..] == a[1..] + b;
      TokenAfterConcat(Apply(s, a[0]), d, Next(s, d, t, a[0]), a[1..], b);
    }
  }

  function Flatten(rounds: seq<seq<Event>>): seq<Event> {
    if rounds == [] then [] else rounds[0] + Flatten(rounds[1..])
  }

  lemma {:induction false} IdleStays(s: Line, d: Dir, rounds: seq<seq<Event>>)
    requires Fits(s) && forall r | 0 <= r < |rounds| :: Round(d, s.Size(), rounds[r])
    ensures TokenAfter(s, d, Idle, Flatten(rounds)) == Idle
    decreases |rounds|
  {
    if rounds != [] {
      StepsDecreaseRank(s, d, Idle, rounds[0]);
      TokenAfterConcat(s, d, Idle, rounds[0], Flatten(rounds[1..]));
      assert forall r | 0 <= r < |rounds[1..]| :: rounds[1..][r] == rounds[r + 1];
      IdleStays(Run(s, rounds[0]), d, rounds[1..]);
    }
  }

  lemma {:induction false} RoundsFinish(s: Line, d: Dir, t: Token, rounds: seq<seq<Event>>)
    requires Fits(s) && (!t.Idle? ==> t.at <= s.Size())
    requires forall r | 0 <= r < |rounds| :: Round(d, s.Size(), rounds[r])
    requires Rank(d, s.Size(), t) <= |rounds|
    ensures TokenAfter(s, d, t, Flatten(rounds)) == Idle
    decreases |rounds|
  {
    if t == Idle {
      IdleStays(s, d, rounds);
    } else {
      assert Rank(d, s.Size(), t) > 0;
      RoundDecreasesRank(s, d, t, rounds[0]);
      StepsDecreaseRank(s, d, t, rounds[0]);
      TokenAfterConcat(s, d, t, rounds[0], Flatten(rounds[1..]));
      assert forall r | 0 <= r < |rounds[1..]| :: rounds[1..][r] == rounds[r + 1];
      RoundsFinish(Run(s, rounds[0]), d, TokenAfter(s, d, t, rounds[0]), rounds[1..]);
    }
  }

  /** Main result: 2n+3 rounds always finish an open request, whatever the other lane does. */
  lemma EveryRequestIsAnswered(n: nat, before: seq<Event>, d: Dir, rounds: seq<seq<Event>>)
    requires |rounds| >= 2 * n + 3
    requires forall r | 0 <= r < |rounds| :: Round(d, n, rounds[r])
    ensures !Run(Run(Boot(n), before), Flatten(rounds)).LaneOf(d).open
  {
    var s := Run(Boot(n), before);
    var f, b := ReachableMatches(n, before);
    RoundsFinish(s, d, TokenOf(d, f, b), rounds);
    RunMoves(s, f, b, Flatten(rounds));
  }

  // Counting what the requester can observe at the entry link.

  function Requested(s: Line, d: Dir, events: seq<Event>): nat
    requires Fits(s)
    decreases |events|
  {
    if events == [] then 0
    else
      var s' := Apply(s, events[0]);
      (if !s.LaneOf(d).open && s'.LaneOf(d).open then 1 else 0) + Requested(s', d, events[1..])
  }

  predicate AnswerThere(s: Line, d: Dir)
    requires Fits(s)
  {
    s.LaneOf(d).ok[Entry(d, s.Size())] || s.LaneOf(d).no[Entry(d, s.Size())]
  }

  function Delivered(s: Line, d: Dir, events: seq<Event>): nat
    requires Fits(s)
    decreases |events|
  {
    if events == [] then 0
    else
      var s' := Apply(s, events[0]);
      (if !AnswerThere(s, d) && AnswerThere(s', d) then 1 else 0) + Delivered(s', d, events[1..])
  }

  /** A request is outstanding: made, and its answer has not reached the requester. */
  predicate Outstanding(s: Line, d: Dir)
    requires Fits(s)
  {
    s.LaneOf(d).open && !AnswerThere(s, d)
  }

  lemma AnswerThereToken(s: Line, d: Dir, t: Token)
    requires Fits(s) && LaneMatches(s.LaneOf(d), d, s.Size(), t)
    ensures AnswerThere(s, d) <==> Answered(t, Entry(d, s.Size()))
    ensures s.LaneOf(d).open <==> t != Idle
  {
  }

  predicate Answered(t: Token, entry: nat) { t == Granted(entry) || t == Refused(entry) }

  /** A token is requested, outstanding until it is answered at the entry link, then picked up. */
  lemma TokenCounts(s: Line, d: Dir, t: Token, e: Event)
    requires Fits(s)
    ensures var t', j := Next(s, d, t, e), Entry(d, s.Size());
            ((if !Answered(t, j) && Answered(t', j) then 1 else 0) + (if t' != Idle && !Answered(t', j) then 1 else 0)
             == (if t == Idle && t' != Idle then 1 else 0) + (if t != Idle && !Answered(t, j) then 1 else 0))
  {
  }

  lemma {:induction false} AnswersCount(s: Line, f: Token, b: Token, d: Dir, events: seq<Event>)
    requires Matches(s, f, b)
    ensures Delivered(s, d, events) + (if Outstanding(Run(s, events), d) then 1 else 0)
         == Requested(s, d, events) + (if Outstanding(s, d) then 1 else 0)
    decreases |events|
  {
    if events != [] {
      var s' := Apply(s, events[0]);
      EventMoves(s, f, b, events[0]);
      var f', b' := Next(s, Fwd, f, events[0]), Next(s, Bwd, b, events[0]);
      AnswersCount(s', f', b', d, events[1..]);
      CountsStep(s, f, b, d, events[0]);
    }
  }

  lemma CountsStep(s: Line, f: Token, b: Token, d: Dir, e: Event)
    requires Matches(s, f, b) && Matches(Apply(s, e), Next(s, Fwd, f, e), Next(s, Bwd, b, e))
    ensures (if !AnswerThere(s, d) && AnswerThere(Apply(s, e), d) then 1 else 0) + (if Outstanding(Apply(s, e), d) then 1 else 0)
         == (if !s.LaneOf(d).open && Apply(s, e).LaneOf(d).open then 1 else 0) + (if Outstanding(s, d) then 1 else 0)
  {
    var t := TokenOf(d, f, b);
    AnswerThereToken(s, d, t);
    AnswerThereToken(Apply(s, e), d, Next(s, d, t, e));
    TokenCounts(s, d, t, e);
  }

  /** Main result: over any run every request gets exactly one answer, or is still outstanding. */
  lemma AnsweredExactlyOnce(n: nat, d: Dir, events: seq<Event>)
    ensures Requested(Boot(n), d, events)
         == Delivered(Boot(n), d, events) + (if Outstanding(Run(Boot(n), events), d) then 1 else 0)
  {
    AnswersCount(Boot(n), Idle, Idle, d, events);
  }
}
