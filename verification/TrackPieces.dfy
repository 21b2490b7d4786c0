/** The track pieces as the automata update them, rule after rule, in place. */
module TrackPieces {
  import opened RouteRules
  import opened SignalRules
  import Interlock
  import RouteReset

  /** One end of a track piece, bound to the facing end of its neighbour. */
  class TrackEnd {
    var outTry: bool
    var inOk: bool
    var inNo: bool
    var binding: TrackEnd?

    constructor ()
      ensures !outTry && !inOk && !inNo && binding == null
    {
      outTry, inOk, inNo, binding := false, false, false, null;
    }

    method Bind(other: TrackEnd)
      modifies this, other
      ensures binding == other && other.binding == this
      ensures outTry == old(outTry) && inOk == old(inOk) && inNo == old(inNo)
      ensures other.outTry == old(other.outTry) && other.inOk == old(other.inOk) && other.inNo == old(other.inNo)
    {
      binding := other;
      other.binding := this;
    }
  }

  /** What a block writes last is what it has written. */
  lemma StoreTwice(p: Interlock.Piece, d: nat, v: RouteVars, w: RouteVars)
    requires d < |p.route| == |p.pending|
    requires |v.current| == |w.current| == if p.kind.Straight? then 1 else 2
    ensures Interlock.StoreVars(Interlock.StoreVars(p, d, v), d, w) == Interlock.StoreVars(p, d, w)
  {
    assert p.route[d := v.current[0]][d := w.current[0]] == p.route[d := w.current[0]];
    assert p.pending[d := v.pending][d := w.pending] == p.pending[d := w.pending];
  }

  /** A block that leaves its bits alone stores what was there. */
  lemma StoreSame(p: Interlock.Piece, d: nat, h: Interlock.Handshake)
    requires d < |p.route| == |p.pending|
    ensures Interlock.StoreVars(p, d, Interlock.Vars(p, d, h)) == p
    ensures var v := Interlock.Vars(p, d, h);
            && (Clear(v.current) <==> !p.route[d] && (p.kind.Switched? ==> !p.anyRoute))
            && Raised(v.current) == if p.kind.Straight? then [true] else [true, true]
  {
    var v := Interlock.Vars(p, d, h);
    assert p.route[d := p.route[d]] == p.route && p.pending[d := p.pending[d]] == p.pending;
    assert v.current[0] == p.route[d] && (p.kind.Switched? ==> v.current[1] == p.anyRoute);
  }

  /** A block that writes after the reset rule of the same block writes all that the rule wrote. */
  lemma ResetThenStore(p: Interlock.Piece, p1: Interlock.Piece, d: nat, v: RouteVars)
    requires d < |p.route| == |p.pending| && |v.current| == if p.kind.Straight? then 1 else 2
    requires p1.kind == p.kind && p1.pending == p.pending && p1.route == p.route[d := false]
    requires p.kind.Straight? ==> p1.anyRoute == p.anyRoute
    ensures |p1.route| == |p1.pending| == |p.route|
    ensures Interlock.StoreVars(p1, d, v) == Interlock.StoreVars(p, d, v)
  {
    var q1, q := Interlock.StoreVars(p1, d, v), Interlock.StoreVars(p, d, v);
    assert p1.route[d := v.current[0]] == p.route[d := v.current[0]];
    assert q1.route == q.route && q1.pending == q.pending && q1.anyRoute == q.anyRoute && q1.lock == q.lock;
  }

  lemma ResetKeepsFree(p: Interlock.Piece, p1: Interlock.Piece, d: nat, detector: bool)
    requires d < |p.route| && p1.kind == p.kind && p1.route == p.route[d := false]
    ensures Interlock.Free(p1, d, detector) == Interlock.Free(p, d, detector)
  {
    assert forall e | 0 <= e < |p.route| && e != d :: p1.route[e] == p.route[e];
  }

  /** The route bits of one piece; route d of the piece has its own pending and route bit. */
  class TrackPiece {
    const kind: Interlock.Kind
    var lock: bool
    var pending: seq<bool>
    var route: seq<bool>
    var anyRoute: bool

    constructor (kind: Interlock.Kind, routes: nat)
      ensures State() == Interlock.Boot(kind, routes)
    {
      this.kind := kind;
      lock, anyRoute := false, false;
      pending, route := seq(routes, _ => false), seq(routes, _ => false);
    }

    ghost function State(): Interlock.Piece
      reads this
    {
      Interlock.Piece(kind, lock, pending, route, anyRoute)
    }

    ghost predicate Fits(d: nat)
      reads this
    {
      d < |route| == |pending|
    }

    /** A route enters at `before` and leaves at `after`; both ends are bound, not to each other. */
    ghost predicate Through(before: TrackEnd, after: TrackEnd)
      reads before, after
    {
      before.binding != null && after.binding != null && before.binding != after && after.binding != before
    }

    ghost function Shared(before: TrackEnd, after: TrackEnd): Interlock.Handshake
      requires Through(before, after)
      reads before, after, before.binding, after.binding
    {
      Interlock.Handshake(before.binding.outTry, before.inOk, before.inNo,
                          after.outTry, after.binding.inOk, after.binding.inNo)
    }

    method ConflictFree(d: nat, detector: bool) returns (free: bool)
      requires Fits(d)
      ensures free == Interlock.Free(State(), d, detector)
    {
      if kind.Switched? {
        return true;
      }
      free := !detector;
      for e := 0 to |route|
        invariant free <==> !detector && forall k | 0 <= k < e && k != d :: !route[k]
      {
        if e != d && route[e] {
          free := false;
        }
      }
    }

    /** The bits that the block of route d reads and writes. */
    ghost function Vars(before: TrackEnd, after: TrackEnd, d: nat): RouteVars
      requires Fits(d) && Through(before, after)
      reads this, before, after, before.binding, after.binding
    {
      Interlock.Vars(State(), d, Shared(before, after))
    }

    /** A request waiting at `before` cannot be served. */
    method Refuse(before: TrackEnd, from: TrackEnd)
      modifies before`inNo, before`inOk, from`outTry
      ensures before.inNo && !before.inOk && !from.outTry
    {
      before.inNo := true;
      before.inOk := false;
      from.outTry := false;
    }

    /** Lock the piece and pass the request on. */
    method PassOn(from: TrackEnd, to: TrackEnd, after: TrackEnd, d: nat)
      requires Fits(d) && from != after
      modifies this`lock, this`pending, from`outTry, to`inOk, to`inNo, after`outTry
      ensures lock && pending == old(pending)[d := true] && !from.outTry && !to.inOk && !to.inNo && after.outTry
    {
      lock := true;
      pending := pending[d := true];
      from.outTry := false;
      to.inOk := false;
      to.inNo := false;
      after.outTry := true;
    }

    /** Take the answer, unlock the piece and pass the answer on. */
    method HandBack(before: TrackEnd, to: TrackEnd, d: nat, success: bool)
      requires Fits(d) && before != to
      modifies this`lock, this`pending, to`inOk, to`inNo, before`inOk, before`inNo
      ensures !lock && pending == old(pending)[d := false] && !to.inOk && !to.inNo
      ensures before.inOk == success && before.inNo == !success
    {
      pending := pending[d := false];
      to.inNo := false;
      to.inOk := false;
      lock := false;
      before.inOk := success;
      before.inNo := !success;
    }

    /** The four rules about a request waiting at `before`. */
    method RunAsk(before: TrackEnd, after: TrackEnd, d: nat, condition: bool, detector: bool)
      requires Fits(d) && Through(before, after)
      modifies this`lock, this`pending, before`inOk, before`inNo, before.binding`outTry
      modifies after`outTry, after.binding`inOk, after.binding`inNo
      ensures Fits(d)
      ensures Vars(before, after, d)
           == Ask(old(Vars(before, after, d)), condition, old(Interlock.Free(State(), d, detector)))
      ensures State() == Interlock.StoreVars(old(State()), d, Vars(before, after, d))
    {
      StoreSame(State(), d, Shared(before, after));
      var from, to := before.binding, after.binding;
      var conflictFree := ConflictFree(d, detector);
      if condition && from.outTry && lock {
        Refuse(before, from);
      }
      if condition && from.outTry && after.outTry {
        Refuse(before, from);
      }
      if condition && from.outTry && !lock && !route[d] && (kind.Switched? ==> !anyRoute) && conflictFree {
        PassOn(from, to, after, d);
      }
      if condition && from.outTry && !lock {
        Refuse(before, from);
      }
    }

    /** The two rules about an answer waiting at `after`. */
    method RunRelay(before: TrackEnd, after: TrackEnd, d: nat)
      requires Fits(d) && Through(before, after)
      modifies this, before`inOk, before`inNo, after.binding`inOk, after.binding`inNo
      ensures Fits(d)
      ensures Vars(before, after, d) == Relay(old(Vars(before, after, d)))
      ensures State() == Interlock.StoreVars(old(State()), d, Vars(before, after, d))
    {
      StoreSame(State(), d, Shared(before, after));
      var to := after.binding;
      if pending[d] && to.inNo {
        HandBack(before, to, d, false);
      }
      if pending[d] && to.inOk {
        HandBack(before, to, d, true);
        route := route[d := true];
        if kind.Switched? {
          anyRoute := true;
        }
      }
    }

    /** The rule on the reset bit. */
    method ResetRoute(before: TrackEnd, after: TrackEnd, d: nat)
      requires Fits(d) && Through(before, after)
      modifies this`lock, this`route, this`anyRoute, before`inOk, before`inNo, after`outTry
      ensures Fits(d) && State() == RouteReset.Reset(old(State()), d, old(Shared(before, after)))
      ensures Vars(before, after, d) == ResetRule(old(Vars(before, after, d)))
    {
      after.outTry := false;
      lock := false;
      before.inOk := false;
      before.inNo := false;
      route := route[d := false];
      if kind.Switched? {
        anyRoute := false;
      }
      assert Lowered(if kind.Straight? then [true] else [true, true]) == if kind.Straight? then [false] else [false, false];
    }

    /** The six rules for route d, in program order. */
    method RunRules(before: TrackEnd, after: TrackEnd, d: nat, condition: bool, detector: bool)
      requires Fits(d) && Through(before, after)
      modifies this, before`inOk, before`inNo, before.binding`outTry
      modifies after`outTry, after.binding`inOk, after.binding`inNo
      ensures Fits(d)
      ensures Vars(before, after, d) == RouteRules.SimulateRoute(old(Vars(before, after, d)), condition,
                                                                old(Interlock.Free(State(), d, detector)))
      ensures State() == Interlock.StoreVars(old(State()), d, Vars(before, after, d))
    {
      ghost var p := State();
      RunAsk(before, after, d, condition, detector);
      ghost var v := Vars(before, after, d);
      RunRelay(before, after, d);
      StoreTwice(p, d, v, Vars(before, after, d));
    }

    /** The rules emitted for route d, with the reset bit as it stands. */
    method SimulateRoute(before: TrackEnd, after: TrackEnd, d: nat, condition: bool, detector: bool, reset: bool)
      requires Fits(d) && Through(before, after)
      modifies this, before`inOk, before`inNo, before.binding`outTry
      modifies after`outTry, after.binding`inOk, after.binding`inNo
      ensures Fits(d)
      ensures var v := old(Vars(before, after, d));
              Vars(before, after, d) == RouteRules.SimulateRoute(if reset then ResetRule(v) else v, condition,
                                                                old(Interlock.Free(State(), d, detector)))
      ensures State() == Interlock.StoreVars(old(State()), d, Vars(before, after, d))
    {
      ghost var p := State();
      if !reset {
        RunRules(before, after, d, condition, detector);
        return;
      }
      ResetRoute(before, after, d);
      ghost var p1 := State();
      ResetKeepsFree(p, p1, d, detector);
      RunRules(before, after, d, condition, detector);
      ResetThenStore(p, p1, d, Vars(before, after, d));
    }

    /** A turnout recomputes its any-route bit from all its route bits. */
    method PopulateAnyRouteSet()
      requires |route| == |pending|
      modifies this`anyRoute
      ensures anyRoute <==> !Clear(route)
    {
      var allClear := true;
      for e := 0 to |route|
        invariant allClear <==> forall k | 0 <= k < e :: !route[k]
      {
        allClear := allClear && !route[e];
      }
      if allClear {
        anyRoute := false;
      }
      for e := 0 to |route|
        invariant allClear ==> !anyRoute
        invariant forall k | 0 <= k < e :: route[k] ==> anyRoute
      {
        if route[e] {
          anyRoute := true;
        }
      }
    }
  }

  function SignalView(p: Interlock.Piece, h: Interlock.Handshake, green: bool, noStop: bool, signal: bool): SignalVars
    requires 0 < |p.route| == |p.pending|
  {
    SignalVars(Interlock.Vars(p, 0, h), green, noStop, signal)
  }

  lemma StraightView(p: Interlock.Piece, h: Interlock.Handshake)
    requires p.kind.Straight? && 0 < |p.route| == |p.pending|
    ensures var v := Interlock.Vars(p, 0, h);
            v.current == [p.route[0]] && (Clear(v.current) <==> !p.route[0]) && Raised(v.current) == [true]
  {
    var v := Interlock.Vars(p, 0, h);
    assert v.current[0] == p.route[0];
  }

  /** A signal: a straight piece whose a-to-b direction (route 0) has the signal rules. */
  class SignalPiece {
    const track: TrackPiece
    var requestGreen: bool
    var noStop: bool
    var signal: bool

    constructor (track: TrackPiece)
      ensures this.track == track && !requestGreen && !noStop && !signal
    {
      this.track := track;
      requestGreen, noStop, signal := false, false, false;
    }

    ghost predicate Fits()
      reads track
    {
      track.kind.Straight? && |track.route| == |track.pending| == 2
    }

    ghost function Vars(before: TrackEnd, after: TrackEnd): SignalVars
      requires Fits() && track.Through(before, after)
      reads this, track, before, after, before.binding, after.binding
    {
      SignalView(track.State(), track.Shared(before, after), requestGreen, noStop, signal)
    }

    /** The route ends here; for safety the signal turns red. */
    method Accept(before: TrackEnd, from: TrackEnd)
      modifies this`signal, before`inOk, before`inNo, from`outTry
      ensures !signal && before.inOk && !before.inNo && !from.outTry
    {
      signal := false;
      from.outTry := false;
      before.inNo := false;
      before.inOk := true;
    }

    /** The three rules about a route arriving at the signal. */
    method RunArrive(before: TrackEnd, after: TrackEnd)
      requires Fits() && track.Through(before, after)
      modifies this`signal, before`inOk, before`inNo, before.binding`outTry
      ensures Vars(before, after) == Arrive(old(Vars(before, after)), Interlock.Free(track.State(), 0, false))
    {
      StraightView(track.State(), track.Shared(before, after));
      var from := before.binding;
      var conflictFree := track.ConflictFree(0, false);
      if from.outTry && track.lock {
        track.Refuse(before, from);
      }
      if from.outTry && !noStop && !track.lock && !track.route[0] && conflictFree {
        Accept(before, from);
      }
      if from.outTry && !noStop {
        track.Refuse(before, from);
      }
    }

    method AskAhead(after: TrackEnd, to: TrackEnd)
      requires Fits()
      modifies track`lock, after`outTry
      ensures if requestGreen && !old(after.outTry) && !to.inOk && !to.inNo && !old(track.lock)
              then after.outTry && track.lock
              else after.outTry == old(after.outTry) && track.lock == old(track.lock)
    {
      if requestGreen && !after.outTry && !to.inOk && !to.inNo && !track.lock {
        after.outTry := true;
        track.lock := true;
      }
    }

    method TakeAnswer(to: TrackEnd)
      requires Fits()
      modifies this`signal, this`requestGreen, track`lock, track`route, to`inOk, to`inNo
      ensures requestGreen == (old(requestGreen) && !old(to.inOk) && !old(to.inNo))
      ensures to.inOk == (old(to.inOk) && !old(requestGreen))
      ensures to.inNo == (old(to.inNo) && (!old(requestGreen) || old(to.inOk)))
      ensures track.lock == (old(track.lock) && old(requestGreen) == requestGreen)
      ensures track.route == if old(requestGreen) && old(to.inOk) then old(track.route)[0 := true] else old(track.route)
      ensures signal == if old(requestGreen) == requestGreen then old(signal) else old(to.inOk)
    {
      if requestGreen && to.inOk {
        to.inOk := false;
        track.lock := false;
        requestGreen := false;
        track.route := track.route[0 := true];
        signal := true;
      }
      if requestGreen && to.inNo {
        to.inNo := false;
        track.lock := false;
        requestGreen := false;
        signal := false;
      }
    }

    /** The three rules about the outgoing route. */
    method RunDepart(before: TrackEnd, after: TrackEnd)
      requires Fits() && track.Through(before, after)
      modifies this`signal, this`requestGreen, track`lock, track`route
      modifies after`outTry, after.binding`inOk, after.binding`inNo
      ensures Fits() && track.route[1] == old(track.route[1]) && track.pending[1] == old(track.pending[1])
      ensures Interlock.Free(track.State(), 0, false) == old(Interlock.Free(track.State(), 0, false))
      ensures Vars(before, after) == Depart(old(Vars(before, after)))
    {
      StraightView(track.State(), track.Shared(before, after));
      AskAhead(after, after.binding);
      TakeAnswer(after.binding);
      StraightView(track.State(), track.Shared(before, after));
    }

    /** The signal's own rule on the reset bit. */
    method RunReset(before: TrackEnd, after: TrackEnd)
      requires Fits() && track.Through(before, after)
      modifies track, before`inOk, before`inNo, after`outTry
      ensures Fits() && track.route[1] == old(track.route[1]) && track.pending[1] == old(track.pending[1])
      ensures Interlock.Free(track.State(), 0, false) == old(Interlock.Free(track.State(), 0, false))
      ensures Vars(before, after) == SignalReset(old(Vars(before, after)))
    {
      track.ResetRoute(before, after, 0);
    }

    method ArriveAndDepart(before: TrackEnd, after: TrackEnd)
      requires Fits() && track.Through(before, after)
      modifies this`signal, this`requestGreen, track`lock, track`route, before`inOk, before`inNo, before.binding`outTry
      modifies after`outTry, after.binding`inOk, after.binding`inNo
      ensures Fits() && track.route[1] == old(track.route[1]) && track.pending[1] == old(track.pending[1])
      ensures Interlock.Free(track.State(), 0, false) == old(Interlock.Free(track.State(), 0, false))
      ensures Vars(before, after) == Depart(Arrive(old(Vars(before, after)), old(Interlock.Free(track.State(), 0, false))))
    {
      RunArrive(before, after);
      RunDepart(before, after);
    }

    /** The a-to-b rules of the signal, in program order, with the reset bit as it stands. */
    method SimulateSignalFwdRoute(before: TrackEnd, after: TrackEnd, reset: bool)
      requires Fits() && track.Through(before, after)
      modifies this`signal, this`requestGreen, track, before`inOk, before`inNo, before.binding`outTry
      modifies after`outTry, after.binding`inOk, after.binding`inNo
      ensures Fits() && track.route[1] == old(track.route[1]) && track.pending[1] == old(track.pending[1])
      ensures Vars(before, after) == SignalPass(old(Vars(before, after)), old(Interlock.Free(track.State(), 0, false)), reset)
    {
      if reset {
        RunReset(before, after);
      }
      ArriveAndDepart(before, after);
      track.SimulateRoute(before, after, 0, noStop, false, reset);
    }
  }
}
