/** Safety of one track piece on its own: whatever its neighbours write on the handshake bits
    and in whatever order its rules fire, two routes through it are never set together. */
module Interlock {
  import opened RouteRules

  /** A straight or detector piece guards a request with all its route bits and its detector;
      a turnout or double slip (Switched) guards it with its own route bit and the any-route bit. */
  datatype Kind = Straight | Switched

  /** The piece's own bits, for any number of routes. */
  datatype Piece = Piece(kind: Kind, lock: bool, pending: seq<bool>, route: seq<bool>, anyRoute: bool)

  /** The bits shared with the neighbours, which may hold anything at any time. */
  datatype Handshake = Handshake(tryIn: bool, okIn: bool, noIn: bool, tryOut: bool, okOut: bool, noOut: bool)

  /** Fire: one rule of the block of route d.  Release: occupancy clears a route bit.
      ClearAny and RaiseAny: the rules that recompute the any-route bit. */
  datatype Event =
    | Fire(rule: Rule, d: nat, shared: Handshake, condition: bool, detector: bool)
    | Release(d: nat)
    | ClearAny
    | RaiseAny(d: nat)

  function Vars(p: Piece, d: nat, h: Handshake): RouteVars
    requires d < |p.route| == |p.pending|
  {
    RouteVars(h.tryIn, h.okIn, h.noIn, h.tryOut, h.okOut, h.noOut, p.lock, p.pending[d],
              if p.kind.Straight? then [p.route[d]] else [p.route[d], p.anyRoute])
  }

  /** The conflicting bits are all zero: only a straight piece lists any. */
  predicate Free(p: Piece, d: nat, detector: bool)
    requires d < |p.route|
  {
    p.kind.Straight? ==> !detector && forall e | 0 <= e < |p.route| && e != d :: !p.route[e]
  }

  function StoreVars(p: Piece, d: nat, v: RouteVars): Piece
    requires d < |p.route| == |p.pending|
    requires |v.current| == if p.kind.Straight? then 1 else 2
  {
    p.(lock := v.lock, pending := p.pending[d := v.pending], route := p.route[d := v.current[0]],
       anyRoute := if p.kind.Straight? then p.anyRoute else v.current[1])
  }

  /** Events that name no route of this piece do nothing. */
  function Apply(p: Piece, e: Event): (p': Piece)
    requires |p.route| == |p.pending|
    ensures |p'.route| == |p'.pending| == |p.route| && p'.kind == p.kind
  {
    match e
    case Fire(rule, d, h, condition, detector) =>
      if d >= |p.route| then p
      else StoreVars(p, d, ApplyRule(rule, Vars(p, d, h), condition, Free(p, d, detector)))
    case Release(d) => if d < |p.route| then p.(route := p.route[d := false]) else p
    case ClearAny => if Clear(p.route) then p.(anyRoute := false) else p
    case RaiseAny(d) => if d < |p.route| && p.route[d] then p.(anyRoute := true) else p
  }

  function Run(p: Piece, events: seq<Event>): (p': Piece)
    requires |p.route| == |p.pending|
    ensures |p'.route| == |p'.pending| == |p.route| && p'.kind == p.kind
    decreases |events|
  {
    if events == [] then p else Run(Apply(p, events[0]), events[1..])
  }

  predicate Conflict(p: Piece) {
    exists d, e | 0 <= d < e < |p.route| :: p.route[d] && p.route[e]
  }

  /** A pending request holds the lock, is alone, and waits on a piece without routes;
      a set route is alone and, on a switched piece, announced by the any-route bit. */
  ghost predicate Safe(p: Piece) {
    && |p.route| == |p.pending|
    && (forall d | 0 <= d < |p.pending| && p.pending[d] ::
          p.lock && Clear(p.route) && forall e | 0 <= e < |p.pending| && e != d :: !p.pending[e])
    && (forall d, e | 0 <= d < |p.route| && 0 <= e < |p.route| && d != e :: !(p.route[d] && p.route[e]))
    && (p.kind.Switched? ==> forall d | 0 <= d < |p.route| :: p.route[d] ==> p.anyRoute)
  }

  /** A rule of block d leaves the piece's own bits alone, locks it for d, or unlocks it again. */
  predicate FireOutcome(p: Piece, d: nat, p': Piece)
    requires d < |p.route| == |p.pending|
  {
    || p' == p
    || (!p.lock && !p.route[d] && (if p.kind.Straight? then Free(p, d, false) else !p.anyRoute)
        && p' == p.(lock := true, pending := p.pending[d := true]))
    || (p.pending[d] && p' == p.(lock := false, pending := p.pending[d := false]))
    || (p.pending[d] && p' == p.(lock := false, pending := p.pending[d := false], route := p.route[d := true],
                                 anyRoute := p.anyRoute || p.kind.Switched?))
  }

  /** The same cases on the bits of one block. */
  predicate RuleOutcome(v: RouteVars, free: bool, v': RouteVars) {
    || (v'.lock == v.lock && v'.pending == v.pending && v'.current == v.current)
    || (!v.lock && Clear(v.current) && free && v'.lock && v'.pending && v'.current == v.current)
    || (v.pending && !v'.lock && !v'.pending && v'.current == v.current)
    || (v.pending && !v'.lock && !v'.pending && v'.current == Raised(v.current))
  }

  lemma RuleOutcomes(rule: Rule, v: RouteVars, condition: bool, free: bool)
    ensures RuleOutcome(v, free, ApplyRule(rule, v, condition, free))
  {
  }

  lemma FireOutcomes(p: Piece, rule: Rule, d: nat, h: Handshake, condition: bool, detector: bool)
    requires d < |p.route| == |p.pending|
    ensures FireOutcome(p, d, Apply(p, Fire(rule, d, h, condition, detector)))
  {
    var v := Vars(p, d, h);
    var free := Free(p, d, detector);
    var v' := ApplyRule(rule, v, condition, free);
    RuleOutcomes(rule, v, condition, free);
    StoreOutcome(p, d, v, free, v');
    assert Apply(p, Fire(rule, d, h, condition, detector)) == StoreVars(p, d, v');
  }

  lemma StoreOutcome(p: Piece, d: nat, v: RouteVars, free: bool, v': RouteVars)
    requires d < |p.route| == |p.pending|
    requires v.lock == p.lock && v.pending == p.pending[d]
    requires v.current == if p.kind.Straight? then [p.route[d]] else [p.route[d], p.anyRoute]
    requires |v'.current| == |v.current|
    requires free ==> Free(p, d, false)
    requires RuleOutcome(v, free, v')
    ensures FireOutcome(p, d, StoreVars(p, d, v'))
  {
    assert p.route[d := p.route[d]] == p.route && p.pending[d := p.pending[d]] == p.pending;
    assert v.current[0] == p.route[d];
    assert p.kind.Switched? ==> v.current[1] == p.anyRoute;
  }

  lemma OutcomeKeepsSafe(p: Piece, d: nat, p': Piece)
    requires Safe(p) && d < |p.route| && FireOutcome(p, d, p')
    ensures Safe(p')
  {
  }

  lemma ApplyKeepsSafe(p: Piece, e: Event)
    requires Safe(p)
    ensures Safe(Apply(p, e))
  {
    if e.Fire? && e.d < |p.route| {
      FireOutcomes(p, e.rule, e.d, e.shared, e.condition, e.detector);
      OutcomeKeepsSafe(p, e.d, Apply(p, e));
    }
  }

  /** Main result: from the all-zero boot state no run sets two routes of one piece. */
  lemma {:induction false} NoConflictingRoutes(p: Piece, events: seq<Event>)
    requires Safe(p)
    ensures Safe(Run(p, events)) && !Conflict(Run(p, events))
    decreases |events|
  {
    if events != [] {
      ApplyKeepsSafe(p, events[0]);
      NoConflictingRoutes(Apply(p, events[0]), events[1..]);
    }
  }

  function Boot(kind: Kind, routes: nat): (p: Piece)
    ensures Safe(p)
  {
    Piece(kind, false, seq(routes, _ => false), seq(routes, _ => false), false)
  }
}
