/** The six rules that SimulateRoute emits for one direction through one track piece.

  A request bit arrives from the piece before, is forwarded to the piece after while the
  piece is locked, and the answer is relayed back.  `ApplyRule` is one emitted rule: the
  conjunction of its conditions, then all of its actions.  `SimulateRoute` says what one
  pass over the six rules achieves. */
module RouteRules {

  /** The values of the bits that one block of rules reads and writes.  `current` holds the
      bits that are raised together when the route gets set. */
  datatype RouteVars = RouteVars(
    tryIn: bool, okIn: bool, noIn: bool,
    tryOut: bool, okOut: bool, noOut: bool,
    lock: bool, pending: bool, current: seq<bool>)

  datatype Rule = RejectLocked | RejectUnreturned | Forward | RejectRest | RelayFailure | RelaySuccess

  predicate Clear(bits: seq<bool>) {
    forall i | 0 <= i < |bits| :: !bits[i]
  }

  function Raised(bits: seq<bool>): seq<bool> {
    seq(|bits|, _ => true)
  }

  function Lowered(bits: seq<bool>): seq<bool> {
    seq(|bits|, _ => false)
  }

  /** The actions shared by the three rejecting rules. */
  function Reject(v: RouteVars): RouteVars {
    v.(tryIn := false, okIn := false, noIn := true)
  }

  /** One emitted rule.  `condition` is the optional turnout condition, `free` says that
      every conflicting bit is zero. */
  function ApplyRule(rule: Rule, v: RouteVars, condition: bool, free: bool): RouteVars {
    match rule
    case RejectLocked => if condition && v.tryIn && v.lock then Reject(v) else v
    case RejectUnreturned => if condition && v.tryIn && v.tryOut then Reject(v) else v
    case Forward =>
      if condition && v.tryIn && !v.lock && Clear(v.current) && free then
        v.(lock := true, pending := true, tryIn := false, okOut := false, noOut := false, tryOut := true)
      else v
    case RejectRest => if condition && v.tryIn && !v.lock then Reject(v) else v
    case RelayFailure =>
      if v.pending && v.noOut then
        v.(pending := false, noOut := false, okOut := false, lock := false, okIn := false, noIn := true)
      else v
    case RelaySuccess =>
      if v.pending && v.okOut then
        v.(pending := false, noOut := false, okOut := false, lock := false, noIn := false, okIn := true,
           current := Raised(v.current))
      else v
  }

  /** What the first four rules do with a waiting request: forward it under the lock, or refuse it. */
  function Ask(v: RouteVars, condition: bool, free: bool): (v': RouteVars)
    ensures v'.current == v.current
  {
    if !condition || !v.tryIn then v
    else if v.lock || v.tryOut || !Clear(v.current) || !free then Reject(v)
    else v.(lock := true, pending := true, tryIn := false, tryOut := true, okOut := false, noOut := false)
  }

  /** What the last two rules do with an answer from the piece after: hand it back and unlock;
      a success also sets the route.  A failure wins over a success. */
  function Relay(v: RouteVars): (v': RouteVars)
    ensures |v'.current| == |v.current|
  {
    if !v.pending || !(v.noOut || v.okOut) then v
    else v.(pending := false, lock := false, noOut := false, okOut := false,
            okIn := !v.noOut, noIn := v.noOut,
            current := if v.noOut then v.current else Raised(v.current))
  }

  /** What one pass over the six rules achieves. */
  function SimulateRoute(v: RouteVars, condition: bool, free: bool): (v': RouteVars)
    ensures |v'.current| == |v.current|
  {
    Relay(Ask(v, condition, free))
  }

  /** The rule on the reset_routes bit, which precedes them: it frees the lock, withdraws the
      request ahead and the answers behind, and clears the block's route bits, but not `pending`. */
  function ResetRule(v: RouteVars): RouteVars {
    v.(tryOut := false, lock := false, okIn := false, noIn := false, current := Lowered(v.current))
  }

  /** The rules of one block in program order. */
  function AskRules(v: RouteVars, condition: bool, free: bool): RouteVars {
    var v1 := ApplyRule(RejectLocked, v, condition, free);
    var v2 := ApplyRule(RejectUnreturned, v1, condition, free);
    var v3 := ApplyRule(Forward, v2, condition, free);
    ApplyRule(RejectRest, v3, condition, free)
  }

  function RelayRules(v: RouteVars, condition: bool, free: bool): RouteVars {
    ApplyRule(RelaySuccess, ApplyRule(RelayFailure, v, condition, free), condition, free)
  }

  /** Only because RejectRest comes after Forward does it refuse exactly the requests that
      could not be forwarded. */
  lemma PassIsSimulateRoute(v: RouteVars, condition: bool, free: bool)
    ensures AskRules(v, condition, free) == Ask(v, condition, free)
    ensures RelayRules(v, condition, free) == Relay(v)
  {
  }
}
