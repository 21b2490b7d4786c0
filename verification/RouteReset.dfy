/** What the reset bit does to one track piece.  It is seen by every block of the piece: each
    block first runs its reset rule, and then its six rules, before the next block. */
module RouteReset {
  import opened RouteRules
  import opened Interlock

  /** What one block finds in its handshake bits, its turnout condition and its detector. */
  datatype Input = Input(shared: Handshake, condition: bool, detector: bool)

  /** The reset rule of one block alone. */
  function Reset(p: Piece, d: nat, h: Handshake): (p': Piece)
    requires d < |p.route| == |p.pending|
    ensures !p'.lock && p'.pending == p.pending && p'.route == p.route[d := false] && p'.kind == p.kind
    ensures p'.anyRoute == (p.anyRoute && p.kind.Straight?)
  {
    var p' := StoreVars(p, d, ResetRule(Vars(p, d, h)));
    assert p.pending[d := p.pending[d]] == p.pending;
    p'
  }

  /** The block of route d while the reset bit is set. */
  function Block(p: Piece, d: nat, x: Input): (p': Piece)
    requires d < |p.route| == |p.pending|
    ensures |p'.route| == |p'.pending| == |p.route| && p'.kind == p.kind
  {
    StoreVars(p, d, SimulateRoute(ResetRule(Vars(p, d, x.shared)), x.condition, Free(p, d, x.detector)))
  }

  /** The first k blocks of a pass, in program order. */
  function Blocks(p: Piece, xs: seq<Input>, k: nat): (p': Piece)
    requires |p.route| == |p.pending| == |xs| && k <= |xs|
    ensures |p'.route| == |p'.pending| == |p.route| && p'.kind == p.kind
  {
    if k == 0 then p else Block(Blocks(p, xs, k - 1), k - 1, xs[k - 1])
  }

  function ResetPass(p: Piece, xs: seq<Input>): (p': Piece)
    requires |p.route| == |p.pending| == |xs|
    ensures |p'.route| == |p'.pending| == |p.route| && p'.kind == p.kind
  {
    Blocks(p, xs, |xs|)
  }

  /** After its reset rule a block takes any request its conflicting bits allow; only then does it
      look at an answer. */
  lemma BlockComputes(p: Piece, d: nat, x: Input)
    requires d < |p.route| == |p.pending|
    ensures var r, h := Reset(p, d, x.shared), x.shared;
            Block(p, d, x) ==
              if x.condition && h.tryIn && Free(p, d, x.detector) then
                r.(lock := true, pending := p.pending[d := true])
              else if p.pending[d] && h.noOut then r.(pending := p.pending[d := false])
              else if p.pending[d] && h.okOut then
                r.(pending := p.pending[d := false], route := p.route[d := true],
                   anyRoute := r.anyRoute || p.kind.Switched?)
              else r
  {
    var v := ResetRule(Vars(p, d, x.shared));
    assert Clear(v.current);
    assert p.pending[d := p.pending[d]] == p.pending;
    var v1 := Ask(v, x.condition, Free(p, d, x.detector));
    assert Raised(v.current) == if p.kind.Straight? then [true] else [true, true];
    assert v1.current == v.current;
  }

  /** A block's request is taken: it is waiting, and no later block of a straight piece has its
      route set, as the earlier ones have been reset. */
  predicate Taken(p: Piece, xs: seq<Input>, d: nat)
    requires |p.route| == |p.pending| == |xs| && d < |xs|
  {
    && xs[d].condition && xs[d].shared.tryIn
    && (p.kind.Straight? ==> !xs[d].detector && forall e | d < e < |p.route| :: !p.route[e])
  }

  /** With nothing pending, the first k blocks have cleared their routes and hold what they took;
      but only the last of them still has the lock. */
  ghost predicate Swept(p: Piece, xs: seq<Input>, k: nat, q: Piece)
    requires |p.route| == |p.pending| == |xs| && k <= |xs|
  {
    && |q.route| == |q.pending| == |xs| && q.kind == p.kind
    && (forall e | 0 <= e < k :: !q.route[e] && q.pending[e] == Taken(p, xs, e))
    && (forall e | k <= e < |xs| :: q.route[e] == p.route[e] && !q.pending[e])
    && (k > 0 ==> q.lock == Taken(p, xs, k - 1) && !(q.anyRoute && p.kind.Switched?))
  }

  lemma SweptOn(p: Piece, xs: seq<Input>, k: nat, q: Piece)
    requires |p.route| == |p.pending| == |xs| && k < |xs| && Swept(p, xs, k, q)
    ensures Swept(p, xs, k + 1, Block(q, k, xs[k]))
  {
    BlockComputes(q, k, xs[k]);
    assert Free(q, k, xs[k].detector) <==>
             (p.kind.Straight? ==> !xs[k].detector && forall e | k < e < |p.route| :: !p.route[e]) by {
      assert forall e | k < e < |p.route| :: q.route[e] == p.route[e];
    }
  }

  lemma {:induction false} BlocksSweep(p: Piece, xs: seq<Input>, k: nat)
    requires |p.route| == |p.pending| == |xs| && k <= |xs| && Clear(p.pending)
    ensures Swept(p, xs, k, Blocks(p, xs, k))
  {
    if k > 0 {
      BlocksSweep(p, xs, k - 1);
      SweptOn(p, xs, k - 1, Blocks(p, xs, k - 1));
    }
  }

  // ----- Runs after a reset -----

  const ASKED := Handshake(true, false, false, false, false, false)
  const ANSWERED := Handshake(false, false, false, false, true, false)
  const SILENT := Handshake(false, false, false, false, false, false)

  function Asking(d: nat): Event { Fire(Forward, d, ASKED, true, false) }

  function Succeeding(d: nat): Event { Fire(RelaySuccess, d, ANSWERED, true, false) }

  /** A pending request that succeeds sets its route and gives the lock away, whoever has it. */
  lemma SuccessSets(p: Piece, d: nat)
    requires d < |p.route| == |p.pending| && p.pending[d]
    ensures var p' := Apply(p, Succeeding(d));
            p'.route == p.route[d := true] && p'.pending == p.pending[d := false] && p'.kind == p.kind
  {
    var v := Vars(p, d, ANSWERED);
    assert Raised(v.current) == if p.kind.Straight? then [true] else [true, true];
  }

  lemma AskingLocks(p: Piece, d: nat)
    requires d < |p.route| == |p.pending| && !p.lock && Clear(p.route) && (p.kind.Switched? ==> !p.anyRoute)
    ensures Apply(p, Asking(d)).pending == p.pending[d := true] && Apply(p, Asking(d)).route == p.route
  {
    assert p.route[d := p.route[d]] == p.route;
    assert Clear(Vars(p, d, ASKED).current);
  }

  lemma {:induction false} RunSteps(p: Piece, a: Event, b: Event, c: Event)
    requires |p.route| == |p.pending|
    ensures Run(p, [a, b]) == Apply(Apply(p, a), b)
    ensures Run(p, [a, b, c]) == Apply(Apply(Apply(p, a), b), c)
  {
    var p1, p2, p3 := Apply(p, a), Apply(Apply(p, a), b), Apply(Apply(Apply(p, a), b), c);
    assert [a, b, c][1..] == [b, c] && [b, c][1..] == [c] && [c][1..] == [] && [a, b][1..] == [b] && [b][1..] == [];
    assert Run(p2, []) == p2 && Run(p3, []) == p3;
    assert Run(p1, [b]) == p2;
    assert Run(p2, [c]) == p3;
    assert Run(p1, [b, c]) == p3;
  }

  /** Two pending requests both succeed. */
  lemma {:induction false} TwoPendingConflict(p: Piece, d: nat, e: nat)
    requires |p.route| == |p.pending| && d < |p.route| && e < |p.route| && d != e && p.pending[d] && p.pending[e]
    ensures Conflict(Run(p, [Succeeding(d), Succeeding(e)]))
  {
    SuccessSets(p, d);
    SuccessSets(Apply(p, Succeeding(d)), e);
    RunSteps(p, Succeeding(d), Succeeding(e), Succeeding(e));
    var q := Run(p, [Succeeding(d), Succeeding(e)]);
    assert q.route[d] && q.route[e];
  }

  /** A request pending without the lock lets another one in. */
  lemma LostLockConflict(p: Piece, d: nat, f: nat)
    requires |p.route| == |p.pending| && d < |p.route| && f < |p.route| && d != f && p.pending[d]
    requires !p.lock && Clear(p.route) && (p.kind.Switched? ==> !p.anyRoute)
    ensures Conflict(Run(p, [Asking(f), Succeeding(d), Succeeding(f)]))
  {
    AskingLocks(p, f);
    var p1 := Apply(p, Asking(f));
    SuccessSets(p1, d);
    SuccessSets(Apply(p1, Succeeding(d)), f);
    RunSteps(p, Asking(f), Succeeding(d), Succeeding(f));
    var q := Run(p, [Asking(f), Succeeding(d), Succeeding(f)]);
    assert q.route[d] && q.route[f];
  }

  /** No run from here ever sets two routes. */
  ghost predicate NeverConflicts(p: Piece)
    requires |p.route| == |p.pending|
  {
    forall events :: !Conflict(Run(p, events))
  }

  lemma SafeNeverConflicts(p: Piece)
    requires Safe(p)
    ensures NeverConflicts(p)
  {
    forall events ensures !Conflict(Run(p, events)) {
      NoConflictingRoutes(p, events);
    }
  }

  /** What the pass leaves can never conflict exactly when no block but the last took a request. */
  lemma SweptConflictsExactly(p: Piece, xs: seq<Input>, q: Piece)
    requires |p.route| == |p.pending| == |xs| && Safe(p) && Swept(p, xs, |xs|, q)
    ensures NeverConflicts(q) <==> forall d | 0 <= d < |xs| - 1 :: !Taken(p, xs, d)
  {
    var n := |xs|;
    if d :| 0 <= d < n - 1 && Taken(p, xs, d) {
      assert q.pending[d];
      if q.lock {
        assert q.pending[n - 1];
        TwoPendingConflict(q, d, n - 1);
      } else {
        LostLockConflict(q, d, n - 1);
      }
    } else if n > 0 {
      assert Safe(q);
      SafeNeverConflicts(q);
    } else {
      assert Safe(q);
      SafeNeverConflicts(q);
    }
  }

  /** Main result: after a reset pass with nothing pending, whatever is on the handshake bits, no
      run can set two routes if and only if no block but the last takes a request in the pass. */
  lemma ResetPassSafeExactly(p: Piece, xs: seq<Input>)
    requires Safe(p) && |xs| == |p.route| && Clear(p.pending)
    ensures NeverConflicts(ResetPass(p, xs)) <==> forall d | 0 <= d < |xs| - 1 :: !Taken(p, xs, d)
  {
    BlocksSweep(p, xs, |xs|);
    SweptConflictsExactly(p, xs, ResetPass(p, xs));
  }

  /** No request is waiting at any block. */
  ghost predicate Quiet(xs: seq<Input>) {
    forall d | 0 <= d < |xs| :: !xs[d].shared.tryIn
  }

  function Silence(n: nat): seq<Input> {
    seq(n, _ => Input(SILENT, true, false))
  }

  lemma {:induction false} SilentBlocks(p: Piece, k: nat)
    requires |p.route| == |p.pending| && k <= |p.route| && Clear(p.route)
    ensures var q := Blocks(p, Silence(|p.route|), k);
            && q.route == p.route && q.pending == p.pending
            && (k > 0 ==> !q.lock && !(q.anyRoute && p.kind.Switched?))
  {
    if k > 0 {
      SilentBlocks(p, k - 1);
      BlockComputes(Blocks(p, Silence(|p.route|), k - 1), k - 1, Silence(|p.route|)[k - 1]);
    }
  }

  /** Main result: a reset while nobody asks is harmless, whatever answers come back meanwhile, if
      and only if nothing is pending. */
  lemma QuietResetSafeExactly(p: Piece)
    requires Safe(p) && |p.route| >= 2
    ensures (forall xs | |xs| == |p.route| && Quiet(xs) :: NeverConflicts(ResetPass(p, xs))) <==> Clear(p.pending)
  {
    var n := |p.route|;
    if Clear(p.pending) {
      forall xs | |xs| == n && Quiet(xs) ensures NeverConflicts(ResetPass(p, xs)) {
        ResetPassSafeExactly(p, xs);
      }
    } else {
      var d :| 0 <= d < n && p.pending[d];
      var xs := Silence(n);
      SilentBlocks(p, n);
      LostLockConflict(ResetPass(p, xs), d, if d == 0 then 1 else 0);
      assert Quiet(xs) && !NeverConflicts(ResetPass(p, xs));
    }
  }

  /** Even a piece at rest conflicts after a reset during which its first block is asked. */
  lemma AskedDuringReset(xs: seq<Input>)
    requires |xs| == 2 && xs[0] == Input(ASKED, true, false)
    ensures Safe(Boot(Straight, 2)) && Clear(Boot(Straight, 2).pending)
    ensures !NeverConflicts(ResetPass(Boot(Straight, 2), xs))
  {
    var p := Boot(Straight, 2);
    ResetPassSafeExactly(p, xs);
    assert Taken(p, xs, 0);
  }
}
