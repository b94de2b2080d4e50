/**
 * What a sequence of picks over one fixed list adds up to, from a fresh balancer.
 *
 * The loop's iterations are looked at as one endless walk over the list.  A pick is a stretch
 * of that walk ending at the first stop, so the picks are exactly the stops of the walk, and
 * the walk splits into passes over the list at a fixed level.
 */
module Fairness {
  import opened Types
  import opened Balancer

  // ----- Picks and the walk -----

  /** The positions chosen by `k` consecutive picks. */
  ghost function Picks(ws: seq<real>, c: Cursor, k: nat): (r: seq<nat>)
    requires ws != [] && ValidCursor(c)
    ensures |r| == k
    decreases k
  {
    if k == 0 then []
    else var d := PickCursor(ws, c); [d.index as nat] + Picks(ws, d, k - 1)
  }

  ghost function StopAt(ws: seq<real>, d: Cursor): seq<nat>
    requires 0 <= d.index < |ws|
  {
    if Stops(ws, d) then [d.index as nat] else []
  }

  /** The positions at which `t` iterations stop. */
  ghost function Trace(ws: seq<real>, c: Cursor, t: nat): seq<nat>
    requires ws != [] && ValidCursor(c)
    decreases t
  {
    if t == 0 then []
    else var d := Advance(ws, c); StopAt(ws, d) + Trace(ws, d, t - 1)
  }

  lemma {:induction false} TraceSplit(ws: seq<real>, c: Cursor, a: nat, b: nat)
    requires ws != [] && ValidCursor(c)
    ensures After(ws, c, a + b) == After(ws, After(ws, c, a), b)
    ensures Trace(ws, c, a + b) == Trace(ws, c, a) + Trace(ws, After(ws, c, a), b)
    decreases a
  {
    if a == 0 {
      assert Trace(ws, c, 0) == [] && After(ws, c, 0) == c;
    } else {
      var d := Advance(ws, c);
      TraceSplit(ws, d, a - 1, b);
      assert a + b - 1 == a - 1 + b;
      assert Trace(ws, c, a) == StopAt(ws, d) + Trace(ws, d, a - 1);
    }
  }

  /** The walk up to one pick stops once, at the pick. */
  lemma {:induction false} PickIsWalk(ws: seq<real>, c: Cursor)
    requires ws != [] && ValidCursor(c)
    ensures var t := Iterations(ws, c);
            && After(ws, c, t) == PickCursor(ws, c)
            && Trace(ws, c, t) == [PickCursor(ws, c).index as nat]
    decreases Rank(ws, c)
  {
    var d := Advance(ws, c);
    if Stops(ws, d) {
      assert After(ws, c, 1) == After(ws, d, 0);
      assert Trace(ws, c, 1) == StopAt(ws, d) + Trace(ws, d, 0);
    } else {
      RankDecreases(ws, c);
      PickIsWalk(ws, d);
    }
  }

  /** Every number of picks is all the stops of some walk. */
  lemma {:induction false} PicksAreWalk(ws: seq<real>, c: Cursor, k: nat) returns (t: nat)
    requires ws != [] && ValidCursor(c)
    ensures Trace(ws, c, t) == Picks(ws, c, k)
    decreases k
  {
    if k == 0 {
      t := 0;
    } else {
      var d, m := PickCursor(ws, c), Iterations(ws, c);
      PickIsWalk(ws, c);
      var rest := PicksAreWalk(ws, d, k - 1);
      t := m + rest;
      TraceSplit(ws, c, m, rest);
    }
  }

  lemma {:induction false} NoStopBeforePick(ws: seq<real>, c: Cursor, t: nat)
    requires ws != [] && ValidCursor(c)
    requires t < Iterations(ws, c)
    ensures Trace(ws, c, t) == []
    decreases t
  {
    if t == 0 {
    } else {
      NoStopBeforePick(ws, Advance(ws, c), t - 1);
    }
  }

  /** Picks are the first stops of any walk that is long enough. */
  lemma {:induction false} PicksArePrefix(ws: seq<real>, c: Cursor, k: nat, t: nat)
    requires ws != [] && ValidCursor(c)
    requires k <= |Trace(ws, c, t)|
    ensures Picks(ws, c, k) == Trace(ws, c, t)[..k]
    decreases k
  {
    if k == 0 {
    } else {
      var d, m := PickCursor(ws, c), Iterations(ws, c);
      if t < m {
        NoStopBeforePick(ws, c, t);
      }
      PickIsWalk(ws, c);
      TraceSplit(ws, c, m, t - m);
      PicksArePrefix(ws, d, k - 1, t - m);
    }
  }

  // ----- Passes -----

  ghost predicate NonNegative(ws: seq<real>) {
    forall i :: 0 <= i < |ws| ==> ws[i] >= 0.0
  }

  /** The level of the p-th pass from a fresh balancer. */
  ghost function Level(ws: seq<real>, p: nat): (l: real)
    ensures l >= 0.0
  {
    if p == 0 then MaxWeight(ws)
    else
      var l := Level(ws, p - 1);
      if l - 1.0 <= 0.0 then MaxWeight(ws) else l - 1.0
  }

  /** The positions below `j` whose weight reaches the level, in order. */
  ghost function Pass(ws: seq<real>, l: real, j: nat): seq<nat>
    requires j <= |ws|
  {
    if j == 0 then [] else Pass(ws, l, j - 1) + (if ws[j - 1] >= l then [j - 1] else [])
  }

  /** The first `p` whole passes. */
  ghost function Passes(ws: seq<real>, p: nat): seq<nat> {
    if p == 0 then [] else Passes(ws, p - 1) + Pass(ws, Level(ws, p - 1), |ws|)
  }

  lemma {:induction false} PassWalk(ws: seq<real>, c: Cursor, l: real, j: nat)
    requires ws != [] && ValidCursor(c) && NonNegative(ws) && l >= 0.0
    requires Advance(ws, c) == Cursor(0, l)
    requires 0 < j <= |ws|
    ensures After(ws, c, j) == Cursor(j - 1, l)
    ensures Trace(ws, c, j) == Pass(ws, l, j)
  {
    if j == 1 {
      var d := Advance(ws, c);
      assert After(ws, c, 1) == After(ws, d, 0);
      assert Trace(ws, c, 1) == StopAt(ws, d) + Trace(ws, d, 0);
      assert Pass(ws, l, 1) == Pass(ws, l, 0) + StopAt(ws, d);
    } else {
      PassWalk(ws, c, l, j - 1);
      var e := Cursor(j - 2, l);
      var d := Advance(ws, e);
      TraceSplit(ws, c, j - 1, 1);
      NextIndexInPass(|ws|, j - 2);
      assert After(ws, e, 1) == After(ws, d, 0);
      assert Trace(ws, e, 1) == StopAt(ws, d) + Trace(ws, d, 0);
    }
  }

  lemma {:induction false} NextIndexInPass(n: nat, i: nat)
    requires i < n
    ensures NextIndex(n, i) == if i + 1 == n then 0 else i + 1
  {
  }

  /** The length of `p` passes over a list of length `n`. */
  ghost function Laps(n: nat, p: nat): nat {
    if p == 0 then 0 else Laps(n, p - 1) + n
  }

  lemma {:induction false} SplitIntoLaps(n: nat, t: nat) returns (p: nat, j: nat)
    requires n > 0
    ensures t == Laps(n, p) + j && j < n
  {
    p, j := 0, t;
    if t >= n {
      p, j := SplitIntoLaps(n, t - n);
      p := p + 1;
    }
  }

  /** From the last position the walk returns to the first, one level down. */
  lemma {:induction false} WrapAround(ws: seq<real>, l: real)
    requires ws != []
    ensures Advance(ws, Cursor(|ws| - 1, l)) == Cursor(0, if l - 1.0 <= 0.0 then MaxWeight(ws) else l - 1.0)
  {
    NextIndexInPass(|ws|, |ws| - 1);
  }

  /** After `p` passes the walk has stopped where they did, and the next step begins pass `p`. */
  ghost predicate PassStart(ws: seq<real>, t: nat, p: nat)
    requires ws != []
  {
    Trace(ws, FRESH, t) == Passes(ws, p) && Advance(ws, After(ws, FRESH, t)) == Cursor(0, Level(ws, p))
  }

  lemma {:induction false} PartialPass(ws: seq<real>, t: nat, p: nat, j: nat)
    requires ws != [] && NonNegative(ws) && j <= |ws| && PassStart(ws, t, p)
    ensures Trace(ws, FRESH, t + j) == Passes(ws, p) + Pass(ws, Level(ws, p), j)
    ensures j > 0 ==> After(ws, FRESH, t + j) == Cursor(j - 1, Level(ws, p))
  {
    if j > 0 {
      PassWalk(ws, After(ws, FRESH, t), Level(ws, p), j);
      TraceSplit(ws, FRESH, t, j);
    }
  }

  lemma {:induction false} NextPass(ws: seq<real>, t: nat, p: nat)
    requires ws != [] && NonNegative(ws) && PassStart(ws, t, p)
    ensures PassStart(ws, t + |ws|, p + 1)
  {
    PartialPass(ws, t, p, |ws|);
    WrapAround(ws, Level(ws, p));
    assert Passes(ws, p + 1) == Passes(ws, p) + Pass(ws, Level(ws, p), |ws|);
  }

  /** The walk from a fresh balancer is its passes. */
  lemma {:induction false} WalkIsPasses(ws: seq<real>, p: nat)
    requires ws != [] && NonNegative(ws)
    ensures PassStart(ws, Laps(|ws|, p), p)
  {
    if p == 0 {
      assert NextIndex(|ws|, -1) == 0;
    } else {
      WalkIsPasses(ws, p - 1);
      NextPass(ws, Laps(|ws|, p - 1), p - 1);
    }
  }

  lemma {:induction false} CountInPass(ws: seq<real>, l: real, j: nat, i: nat)
    requires j <= |ws| && i < |ws|
    ensures Count(Pass(ws, l, j), i) == if i < j && ws[i] >= l then 1 else 0
  {
    if j == 0 {
    } else {
      CountInPass(ws, l, j - 1, i);
      var tail: seq<nat> := if ws[j - 1] >= l then [j - 1] else [];
      CountConcat(Pass(ws, l, j - 1), tail, i);
      CountOne<nat>(j - 1, i);
    }
  }

  // ----- Prefix fairness -----

  lemma {:induction false} FairPasses(ws: seq<real>, p: nat, i: nat, j: nat)
    requires i < |ws| && j < |ws| && ws[i] >= ws[j]
    ensures Count(Passes(ws, p), i) >= Count(Passes(ws, p), j)
  {
    if p == 0 {
    } else {
      var l := Level(ws, p - 1);
      FairPasses(ws, p - 1, i, j);
      CountConcat(Passes(ws, p - 1), Pass(ws, l, |ws|), i);
      CountConcat(Passes(ws, p - 1), Pass(ws, l, |ws|), j);
      CountInPass(ws, l, |ws|, i);
      CountInPass(ws, l, |ws|, j);
    }
  }

  lemma {:induction false} FairWalk(ws: seq<real>, t: nat, i: nat, j: nat)
    requires NonNegative(ws) && i < |ws| && j < |ws| && ws[i] >= ws[j]
    ensures Count(Trace(ws, FRESH, t), i) >= Count(Trace(ws, FRESH, t), j) - 1
  {
    var p, r := SplitIntoLaps(|ws|, t);
    var l := Level(ws, p);
    WalkIsPasses(ws, p);
    PartialPass(ws, Laps(|ws|, p), p, r);
    FairPasses(ws, p, i, j);
    CountConcat(Passes(ws, p), Pass(ws, l, r), i);
    CountConcat(Passes(ws, p), Pass(ws, l, r), j);
    CountInPass(ws, l, r, i);
    CountInPass(ws, l, r, j);
  }

  /** After every number of picks, an endpoint is at most one pick behind any that weighs no more. */
  lemma {:induction false} PrefixFairness(ws: seq<real>, k: nat, i: nat, j: nat)
    requires NonNegative(ws) && i < |ws| && j < |ws| && ws[i] >= ws[j]
    ensures Count(Picks(ws, FRESH, k), i) >= Count(Picks(ws, FRESH, k), j) - 1
  {
    var t := PicksAreWalk(ws, FRESH, k);
    FairWalk(ws, t, i, j);
  }

  // ----- Exact proportionality -----

  /** One full cycle of levels: W, W - 1, and so on while positive. */
  ghost function Cycle(ws: seq<real>): seq<nat> {
    Passes(ws, Ceil(MaxWeight(ws)))
  }

  /** How often position i is picked in a cycle. */
  ghost function Share(ws: seq<real>, i: nat): int
    requires i < |ws|
  {
    Ceil(MaxWeight(ws)) - Ceil(MaxWeight(ws) - ws[i])
  }

  lemma {:induction false} LevelsOfCycle(ws: seq<real>, k: nat)
    requires MaxWeight(ws) > 0.0 && k <= Ceil(MaxWeight(ws))
    ensures Level(ws, k) == if k < Ceil(MaxWeight(ws)) then MaxWeight(ws) - k as real else MaxWeight(ws)
  {
    if k == 0 {
    } else {
      LevelsOfCycle(ws, k - 1);
    }
  }

  lemma {:induction false} CountInPasses(ws: seq<real>, k: nat, i: nat)
    requires NonNegative(ws) && MaxWeight(ws) > 0.0 && k <= Ceil(MaxWeight(ws)) && i < |ws|
    ensures var skipped := Ceil(MaxWeight(ws) - ws[i]);
            Count(Passes(ws, k), i) == if k <= skipped then 0 else k - skipped
  {
    if k == 0 {
    } else {
      var l := Level(ws, k - 1);
      LevelsOfCycle(ws, k - 1);
      CountInPasses(ws, k - 1, i);
      CountConcat(Passes(ws, k - 1), Pass(ws, l, |ws|), i);
      CountInPass(ws, l, |ws|, i);
    }
  }

  /**
   * In a cycle each position is picked ceil(W) - ceil(W - w) times: strictly within 1 of its
   * weight, and exactly its weight when that is an integer.
   */
  lemma {:induction false} CycleShares(ws: seq<real>, i: nat)
    requires NonNegative(ws) && MaxWeight(ws) > 0.0 && i < |ws|
    ensures Count(Cycle(ws), i) == Share(ws, i)
    ensures ws[i] - 1.0 < Share(ws, i) as real < ws[i] + 1.0
    ensures ws[i] == ws[i].Floor as real ==> Share(ws, i) == ws[i].Floor
  {
    CountInCycle(ws, i);
    ShareNearWeight(ws, i);
  }

  lemma {:induction false} CountInCycle(ws: seq<real>, i: nat)
    requires NonNegative(ws) && MaxWeight(ws) > 0.0 && i < |ws|
    ensures Count(Cycle(ws), i) == Share(ws, i)
  {
    CeilShift(MaxWeight(ws), ws[i]);
    CountInPasses(ws, Ceil(MaxWeight(ws)), i);
  }

  lemma {:induction false} ShareNearWeight(ws: seq<real>, i: nat)
    requires i < |ws|
    ensures ws[i] - 1.0 < Share(ws, i) as real < ws[i] + 1.0
    ensures ws[i] == ws[i].Floor as real ==> Share(ws, i) == ws[i].Floor
  {
    CeilShift(MaxWeight(ws), ws[i]);
  }

  lemma {:induction false} CeilShift(a: real, w: real)
    ensures w >= 0.0 ==> Ceil(a - w) <= Ceil(a)
    ensures w - 1.0 < (Ceil(a) - Ceil(a - w)) as real < w + 1.0
    ensures w == w.Floor as real ==> Ceil(a) - Ceil(a - w) == w.Floor
  {
    var x, y := Ceil(a), Ceil(a - w);
    assert a <= x as real < a + 1.0;
    assert a - w <= y as real < a - w + 1.0;
    assert (x - y) as real == x as real - y as real;
    if w == w.Floor as real {
      var f := w.Floor;
      assert ((x - y - f) as real) == x as real - y as real - w;
      assert -1.0 < (x - y - f) as real < 1.0;
    }
  }

  lemma {:induction false} SameNextSameWalk(ws: seq<real>, c: Cursor, d: Cursor, t: nat)
    requires ws != [] && ValidCursor(c) && ValidCursor(d) && Advance(ws, c) == Advance(ws, d)
    ensures Trace(ws, c, t) == Trace(ws, d, t)
  {
    if t > 0 {
      var e := Advance(ws, c);
      assert Trace(ws, c, t) == StopAt(ws, e) + Trace(ws, e, t - 1);
      assert Trace(ws, d, t) == StopAt(ws, e) + Trace(ws, e, t - 1);
    }
  }

  /** The picks repeat: a cycle first, then what a fresh balancer picks. */
  lemma {:induction false} PicksArePeriodic(ws: seq<real>, k: nat)
    requires NonNegative(ws) && MaxWeight(ws) > 0.0
    ensures ws != [] && |Cycle(ws)| > 0
    ensures Picks(ws, FRESH, |Cycle(ws)| + k) == Cycle(ws) + Picks(ws, FRESH, k)
  {
    var levels := Ceil(MaxWeight(ws));
    var laps := Laps(|ws|, levels);
    CycleIsNotEmpty(ws);
    LevelsOfCycle(ws, levels);
    WalkIsPasses(ws, levels);
    var e := After(ws, FRESH, laps);
    assert NextIndex(|ws|, -1) == 0;
    assert Advance(ws, e) == Advance(ws, FRESH);
    var t := PicksAreWalk(ws, FRESH, k);
    SameNextSameWalk(ws, e, FRESH, t);
    TraceSplit(ws, FRESH, laps, t);
    PicksArePrefix(ws, FRESH, |Cycle(ws)| + k, laps + t);
  }

  lemma {:induction false} CycleIsNotEmpty(ws: seq<real>)
    requires NonNegative(ws) && MaxWeight(ws) > 0.0
    ensures |Cycle(ws)| > 0
  {
    var m :| 0 <= m < |ws| && ws[m] == MaxWeight(ws);
    CycleShares(ws, m);
    assert Ceil(MaxWeight(ws) - ws[m]) == 0;
    assert Ceil(MaxWeight(ws)) > 0;
  }

  lemma {:induction false} OneMore(k: int, x: int)
    ensures k * x == x + (k - 1) * x
  {
  }

  /** Whole cycles of picks are exactly proportional to the shares. */
  lemma {:induction false} ExactProportion(ws: seq<real>, cycles: nat, i: nat)
    requires NonNegative(ws) && MaxWeight(ws) > 0.0 && i < |ws|
    ensures Count(Picks(ws, FRESH, cycles * |Cycle(ws)|), i) == cycles * Share(ws, i)
  {
    if cycles == 0 {
    } else {
      var rest := (cycles - 1) * |Cycle(ws)|;
      OneMore(cycles, |Cycle(ws)|);
      OneMore(cycles, Share(ws, i));
      ExactProportion(ws, cycles - 1, i);
      PicksArePeriodic(ws, rest);
      CountConcat(Cycle(ws), Picks(ws, FRESH, rest), i);
      CycleShares(ws, i);
    }
  }

  // ----- The length of a cycle -----

  /** How often the positions below n occur, together. */
  ghost function CountsBelow(t: seq<nat>, n: nat): nat {
    if n == 0 then 0 else CountsBelow(t, n - 1) + Count<nat>(t, n - 1)
  }

  ghost function SharesBelow(ws: seq<real>, n: nat): int
    requires n <= |ws|
  {
    if n == 0 then 0 else SharesBelow(ws, n - 1) + Share(ws, n - 1)
  }

  lemma {:induction false} CountsBelowConcat(a: seq<nat>, b: seq<nat>, n: nat)
    ensures CountsBelow(a + b, n) == CountsBelow(a, n) + CountsBelow(b, n)
  {
    if n == 0 {
    } else {
      CountsBelowConcat(a, b, n - 1);
      CountConcat<nat>(a, b, n - 1);
    }
  }

  lemma {:induction false} CountsBelowOne(x: nat, n: nat)
    ensures CountsBelow([x], n) == if x < n then 1 else 0
  {
    if n == 0 {
    } else {
      CountsBelowOne(x, n - 1);
      CountOne<nat>(x, n - 1);
    }
  }

  lemma {:induction false} CountsBelowNone(n: nat)
    ensures CountsBelow([], n) == 0
  {
    if n == 0 {
    } else {
      CountsBelowNone(n - 1);
    }
  }

  lemma {:induction false} CountsAreLength(t: seq<nat>, n: nat)
    requires forall i :: 0 <= i < |t| ==> t[i] < n
    ensures CountsBelow(t, n) == |t|
  {
    if t == [] {
      CountsBelowNone(n);
    } else {
      var first: seq<nat>, rest := [t[0]], t[1..];
      assert t == first + rest;
      CountsBelowConcat(first, rest, n);
      CountsBelowOne(t[0], n);
      CountsAreLength(rest, n);
    }
  }

  lemma {:induction false} PassInRange(ws: seq<real>, l: real, j: nat)
    requires j <= |ws|
    ensures forall i :: 0 <= i < |Pass(ws, l, j)| ==> Pass(ws, l, j)[i] < |ws|
  {
    if j == 0 {
    } else {
      PassInRange(ws, l, j - 1);
    }
  }

  lemma {:induction false} PassesInRange(ws: seq<real>, p: nat)
    ensures forall i :: 0 <= i < |Passes(ws, p)| ==> Passes(ws, p)[i] < |ws|
  {
    if p == 0 {
    } else {
      PassesInRange(ws, p - 1);
      PassInRange(ws, Level(ws, p - 1), |ws|);
    }
  }

  lemma {:induction false} CountsAreShares(ws: seq<real>, n: nat)
    requires NonNegative(ws) && MaxWeight(ws) > 0.0 && n <= |ws|
    ensures CountsBelow(Cycle(ws), n) == SharesBelow(ws, n)
  {
    if n == 0 {
    } else {
      CountsAreShares(ws, n - 1);
      CycleShares(ws, n - 1);
    }
  }

  /** A cycle is as many picks as the shares add up to. */
  lemma {:induction false} CycleLength(ws: seq<real>)
    requires NonNegative(ws) && MaxWeight(ws) > 0.0
    ensures |Cycle(ws)| == SharesBelow(ws, |ws|)
  {
    PassesInRange(ws, Ceil(MaxWeight(ws)));
    CountsAreLength(Cycle(ws), |ws|);
    CountsAreShares(ws, |ws|);
  }

  ghost predicate Integers(ws: seq<real>) {
    forall i :: 0 <= i < |ws| ==> ws[i] == ws[i].Floor as real
  }

  ghost function SumBelow(ws: seq<real>, n: nat): int
    requires n <= |ws|
  {
    if n == 0 then 0 else SumBelow(ws, n - 1) + ws[n - 1].Floor
  }

  lemma {:induction false} SharesAreWeights(ws: seq<real>, n: nat)
    requires Integers(ws) && n <= |ws|
    ensures SharesBelow(ws, n) == SumBelow(ws, n)
  {
    if n == 0 {
    } else {
      SharesAreWeights(ws, n - 1);
      ShareNearWeight(ws, n - 1);
    }
  }

  /** With integer weights, of every sum-of-weights picks from the start each has exactly its weight. */
  lemma {:induction false} IntegerWeightsAreExact(ws: seq<real>, cycles: nat, i: nat)
    requires NonNegative(ws) && Integers(ws) && MaxWeight(ws) > 0.0 && i < |ws|
    ensures SumBelow(ws, |ws|) > 0
    ensures Count(Picks(ws, FRESH, cycles * SumBelow(ws, |ws|)), i) == cycles * ws[i].Floor
  {
    CycleLength(ws);
    SharesAreWeights(ws, |ws|);
    CycleIsNotEmpty(ws);
    ShareNearWeight(ws, i);
    ExactProportion(ws, cycles, i);
  }

  // ----- The balancer object -----

  /** The endpoints at the given positions. */
  ghost function EndpointsAt(eps: seq<EndpointDetail>, ps: seq<nat>): seq<Option<EndpointDetail>> {
    if ps == [] then [] else [if ps[0] < |eps| then Some(eps[ps[0]]) else None] + EndpointsAt(eps, ps[1..])
  }

  /** Picking `k` times over one list chooses the endpoints at the positions `Picks` names. */
  method PickRepeatedly(
      lb: WeightedRoundRobin, endpoints: seq<EndpointDetail>, k: nat) returns (chosen: seq<Option<EndpointDetail>>)
    requires lb.Valid() && Healthy(endpoints) != []
    modifies lb
    ensures lb.Valid()
    ensures chosen == EndpointsAt(Healthy(endpoints), Picks(Weights(Healthy(endpoints)), old(lb.Fields()), k))
    decreases k
  {
    if k == 0 {
      return [];
    }
    ghost var ws, before := Weights(Healthy(endpoints)), lb.Fields();
    var r;
    ghost var iterations;
    r, iterations := lb.Pick(endpoints);
    ghost var after := lb.Fields();
    var rest := PickRepeatedly(lb, endpoints, k - 1);
    chosen := [Some(r.value)] + rest;
    PicksUnfold(ws, before, k);
    assert Picks(ws, before, k)[1..] == Picks(ws, after, k - 1);
  }

  lemma {:induction false} PicksUnfold(ws: seq<real>, c: Cursor, k: nat)
    requires ws != [] && ValidCursor(c) && k > 0
    ensures var d := PickCursor(ws, c); Picks(ws, c, k) == [d.index as nat] + Picks(ws, d, k - 1)
  {
  }
}
