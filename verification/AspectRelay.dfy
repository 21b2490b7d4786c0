/** Signal aspects relayed backwards along a line: two bits at every link tell how many signals
    ahead are clear, counted up to three. */
module AspectRelay {

  datatype Piece = Straight | Signal(green: bool)

  /** The two bits at one link: in_next_signal_1 and in_next_signal_2. */
  datatype Aspect = Aspect(one: bool, two: bool) {
    function Value(): nat { (if two then 2 else 0) + (if one then 1 else 0) }
  }

  const DARK := Aspect(false, false)

  /** What piece p writes to the link before it, given the link after it. */
  function Relayed(p: Piece, next: Aspect): (a: Aspect)
    ensures p.Straight? ==> a == next
    ensures p.Signal? ==> a.Value() == if !p.green then 0 else if next.Value() < 3 then next.Value() + 1 else 3
  {
    match p
    case Straight => next
    case Signal(green) =>
      if !green then DARK
      else if !next.two && !next.one then Aspect(true, false)
      else if !next.two && next.one then Aspect(false, true)
      else Aspect(true, true)
  }

  /** Link k lies before piece k; the last link is the far end. */
  predicate Fits(pieces: seq<Piece>, links: seq<Aspect>) {
    |links| == |pieces| + 1
  }

  function Pass(pieces: seq<Piece>, links: seq<Aspect>, k: nat): (links': seq<Aspect>)
    requires Fits(pieces, links)
    ensures Fits(pieces, links')
  {
    if k < |pieces| then links[k := Relayed(pieces[k], links[k + 1])] else links
  }

  function Run(pieces: seq<Piece>, links: seq<Aspect>, order: seq<nat>): (links': seq<Aspect>)
    requires Fits(pieces, links)
    ensures Fits(pieces, links')
    decreases |order|
  {
    if order == [] then links else Run(pieces, Pass(pieces, links, order[0]), order[1..])
  }

  // ----- What the aspects should be -----

  /** The signals of a stretch of track, in travel order. */
  function Signals(pieces: seq<Piece>): seq<bool> {
    if pieces == [] then []
    else if pieces[0].Straight? then Signals(pieces[1..])
    else [pieces[0].green] + Signals(pieces[1..])
  }

  /** How many signals are green before the first red one, or before the end. */
  function ClearAhead(signals: seq<bool>): (c: nat)
    ensures c <= |signals| && (forall i | 0 <= i < c :: signals[i]) && (c < |signals| ==> !signals[c])
  {
    if signals == [] || !signals[0] then 0 else 1 + ClearAhead(signals[1..])
  }

  function Wanted(pieces: seq<Piece>, k: nat): nat
    requires k <= |pieces|
  {
    var c := ClearAhead(Signals(pieces[k..]));
    if c < 3 then c else 3
  }

  /** Links k and later are right. */
  ghost predicate RightFrom(pieces: seq<Piece>, links: seq<Aspect>, k: nat)
    requires Fits(pieces, links)
  {
    forall j: nat | k <= j <= |pieces| :: links[j].Value() == Wanted(pieces, j)
  }

  lemma RelayIsWanted(pieces: seq<Piece>, next: Aspect, k: nat)
    requires k < |pieces| && next.Value() == Wanted(pieces, k + 1)
    ensures Relayed(pieces[k], next).Value() == Wanted(pieces, k)
  {
    assert pieces[k..][1..] == pieces[k + 1..] && pieces[k..][0] == pieces[k];
    if pieces[k].Signal? {
      var rest := Signals(pieces[k + 1..]);
      assert Signals(pieces[k..]) == [pieces[k].green] + rest;
      assert ([pieces[k].green] + rest)[1..] == rest;
    }
  }

  lemma PassKeepsRight(pieces: seq<Piece>, links: seq<Aspect>, k: nat, j: nat)
    requires Fits(pieces, links) && j <= |pieces| && RightFrom(pieces, links, j)
    ensures RightFrom(pieces, Pass(pieces, links, k), j)
    ensures k + 1 == j ==> RightFrom(pieces, Pass(pieces, links, k), k)
  {
    if k < |pieces| && j <= k + 1 {
      RelayIsWanted(pieces, links[k + 1], k);
    }
  }

  lemma {:induction false} RunKeepsRight(pieces: seq<Piece>, links: seq<Aspect>, order: seq<nat>, j: nat)
    requires Fits(pieces, links) && j <= |pieces| && RightFrom(pieces, links, j)
    ensures RightFrom(pieces, Run(pieces, links, order), j)
    ensures j > 0 && j - 1 in order ==> RightFrom(pieces, Run(pieces, links, order), j - 1)
    decreases |order|
  {
    if order != [] {
      var links' := Pass(pieces, links, order[0]);
      PassKeepsRight(pieces, links, order[0], j);
      RunKeepsRight(pieces, links', order[1..], j);
      if order[0] + 1 == j {
        RunKeepsRight(pieces, links', order[1..], j - 1);
      }
    }
  }

  /** Every piece runs at least once in a round, in any order and any number of times. */
  ghost predicate Round(pieces: seq<Piece>, order: seq<nat>) {
    forall k: nat | k < |pieces| :: k in order
  }

  function RunRounds(pieces: seq<Piece>, links: seq<Aspect>, rounds: seq<seq<nat>>): (links': seq<Aspect>)
    requires Fits(pieces, links)
    ensures Fits(pieces, links')
    decreases |rounds|
  {
    if rounds == [] then links else RunRounds(pieces, Run(pieces, links, rounds[0]), rounds[1..])
  }

  lemma {:induction false} RoundsSpread(pieces: seq<Piece>, links: seq<Aspect>, rounds: seq<seq<nat>>, j: nat)
    requires Fits(pieces, links) && j <= |pieces| && RightFrom(pieces, links, j)
    requires forall r | 0 <= r < |rounds| :: Round(pieces, rounds[r])
    ensures RightFrom(pieces, RunRounds(pieces, links, rounds), if j <= |rounds| then 0 else j - |rounds|)
    decreases |rounds|
  {
    if rounds != [] {
      RunKeepsRight(pieces, links, rounds[0], j);
      assert forall r | 0 <= r < |rounds[1..]| :: rounds[1..][r] == rounds[r + 1];
      RoundsSpread(pieces, Run(pieces, links, rounds[0]), rounds[1..], if j > 0 then j - 1 else 0);
    }
  }

  /** Main result: whatever the bits were, with the routes fixed and a dark far end, as many
      rounds as there are pieces make every link show min(3, clear signals ahead). */
  lemma {:induction false} AspectsStabilise(pieces: seq<Piece>, links: seq<Aspect>, rounds: seq<seq<nat>>)
    requires Fits(pieces, links) && links[|pieces|] == DARK && |rounds| >= |pieces|
    requires forall r | 0 <= r < |rounds| :: Round(pieces, rounds[r])
    ensures forall k: nat | k <= |pieces| :: RunRounds(pieces, links, rounds)[k].Value() == Wanted(pieces, k)
  {
    assert pieces[|pieces|..] == [];
    RoundsSpread(pieces, links, rounds, |pieces|);
  }

  /** And then nothing changes any more: the right aspects are the only stable ones. */
  lemma StableExactlyWhenRight(pieces: seq<Piece>, links: seq<Aspect>)
    requires Fits(pieces, links) && links[|pieces|] == DARK
    ensures (forall k: nat :: Pass(pieces, links, k) == links) <==> RightFrom(pieces, links, 0)
  {
    if RightFrom(pieces, links, 0) {
      forall k: nat ensures Pass(pieces, links, k) == links {
        if k < |pieces| {
          RelayIsWanted(pieces, links[k + 1], k);
          SameValueSameAspect(Relayed(pieces[k], links[k + 1]), links[k]);
        }
      }
    } else if forall k: nat :: Pass(pieces, links, k) == links {
      StableIsRight(pieces, links, 0);
    }
  }

  lemma SameValueSameAspect(a: Aspect, b: Aspect)
    requires a.Value() == b.Value()
    ensures a == b
  {
  }

  lemma {:induction false} StableIsRight(pieces: seq<Piece>, links: seq<Aspect>, k: nat)
    requires Fits(pieces, links) && links[|pieces|] == DARK && k <= |pieces|
    requires forall j: nat :: Pass(pieces, links, j) == links
    ensures RightFrom(pieces, links, k)
    decreases |pieces| - k
  {
    if k < |pieces| {
      StableIsRight(pieces, links, k + 1);
      assert links[k] == Pass(pieces, links, k)[k] == Relayed(pieces[k], links[k + 1]);
      RelayIsWanted(pieces, links[k + 1], k);
    } else {
      assert pieces[|pieces|..] == [];
    }
  }

  // ----- The rules in place -----

  class AspectBits {
    const pieces: seq<Piece>
    const one: array<bool>
    const two: array<bool>

    constructor (pieces: seq<Piece>)
      ensures this.pieces == pieces && Valid() && fresh(one) && fresh(two)
      ensures forall k | 0 <= k <= |pieces| :: Links()[k] == DARK
    {
      this.pieces := pieces;
      one := new bool[|pieces| + 1](_ => false);
      two := new bool[|pieces| + 1](_ => false);
    }

    ghost predicate Valid() {
      one.Length == two.Length == |pieces| + 1 && one != two
    }

    ghost function Links(): (links: seq<Aspect>)
      requires Valid()
      reads one, two
      ensures Fits(pieces, links) && forall k | 0 <= k <= |pieces| :: links[k] == Aspect(one[k], two[k])
    {
      seq(|pieces| + 1, k requires 0 <= k <= |pieces| && Valid() reads one, two => Aspect(one[k], two[k]))
    }

    /** Copies one bit, writing only when it differs. */
    method DefCopy(bits: array<bool>, src: nat, dst: nat)
      requires src < bits.Length && dst < bits.Length && src != dst
      modifies bits
      ensures bits[..] == old(bits[..])[dst := old(bits[src])]
    {
      if !bits[src] && bits[dst] {
        bits[dst] := false;
      }
      if bits[src] && !bits[dst] {
        bits[dst] := true;
      }
    }

    /** A signal piece: red goes dark, green counts up, rule by rule. */
    method SetSignalState(k: nat, green: bool)
      requires Valid() && k < |pieces| && pieces[k] == Signal(green)
      modifies one, two
      ensures Links() == Pass(pieces, old(Links()), k)
    {
      if !green {
        one[k] := false;
        two[k] := false;
      }
      if green && !two[k + 1] && !one[k + 1] {
        two[k] := false;
        one[k] := true;
      }
      if green && !two[k + 1] && one[k + 1] {
        two[k] := true;
        one[k] := false;
      }
      if green && two[k + 1] {
        two[k] := true;
        one[k] := true;
      }
    }

    method RunPiece(k: nat)
      requires Valid() && k < |pieces|
      modifies one, two
      ensures Links() == Pass(pieces, old(Links()), k)
    {
      match pieces[k]
      case Straight =>
        DefCopy(one, k + 1, k);
        DefCopy(two, k + 1, k);
        assert forall j | 0 <= j <= |pieces| :: one[j] == one[..][j] && two[j] == two[..][j];
        assert forall j | 0 <= j <= |pieces| :: old(one[j]) == old(one[..])[j] && old(two[j]) == old(two[..])[j];
      case Signal(green) => SetSignalState(k, green);
    }
  }
}
