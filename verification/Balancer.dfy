/**
 * The agent's weighted round-robin balancer.
 *
 * Weights are mathematical reals: float64 rounding, infinities and NaN are outside the
 * model.  One balancer serves every model of an agent, so consecutive picks may be given
 * unrelated endpoint lists; nothing below assumes otherwise.
 */
module Balancer {
  import opened Types

  /** The balancer's persistent fields, currentIndex and currentWeight. */
  datatype Cursor = Cursor(index: int, weight: real)

  const FRESH: Cursor := Cursor(-1, 0.0)

  /** The index only ever comes from -1 or from a remainder. */
  predicate ValidCursor(c: Cursor) {
    c.index >= -1
  }

  function Ceil(x: real): (k: int)
    ensures k as real - 1.0 < x <= k as real
  {
    -((-x).Floor)
  }

  /** The healthy endpoints, in the order given. */
  function Healthy(eps: seq<EndpointDetail>): (r: seq<EndpointDetail>)
    ensures forall e :: e in r <==> e in eps && e.healthy
  {
    if eps == [] then []
    else Healthy(eps[..|eps| - 1]) + (if eps[|eps| - 1].healthy then [eps[|eps| - 1]] else [])
  }

  /** The positions before i of healthy endpoints. */
  ghost function HealthyBefore(eps: seq<EndpointDetail>, i: nat): set<nat>
    requires i <= |eps|
  {
    set j: nat | j < i && eps[j].healthy
  }

  lemma {:induction false} HealthyCount(eps: seq<EndpointDetail>)
    ensures |Healthy(eps)| == |HealthyBefore(eps, |eps|)|
  {
    if eps == [] {
    } else {
      var last := |eps| - 1;
      HealthyCount(eps[..last]);
      HealthyOneMore(eps);
    }
  }

  lemma {:induction false} HealthyOneMore(eps: seq<EndpointDetail>)
    requires eps != []
    ensures var last := |eps| - 1;
            |HealthyBefore(eps, |eps|)|
            == |HealthyBefore(eps[..last], last)| + (if eps[last].healthy then 1 else 0)
  {
    var last := |eps| - 1;
    var before := HealthyBefore(eps[..last], last);
    assert HealthyBefore(eps, |eps|) == before + (if eps[last].healthy then {last} else {});
  }

  /** A healthy endpoint comes in the place that the healthy endpoints before it leave it. */
  lemma {:induction false} HealthyInOrder(eps: seq<EndpointDetail>, i: nat)
    requires i < |eps| && eps[i].healthy
    ensures |HealthyBefore(eps, i)| < |Healthy(eps)| && Healthy(eps)[|HealthyBefore(eps, i)|] == eps[i]
  {
    var last := |eps| - 1;
    assert HealthyBefore(eps, i) == HealthyBefore(eps[..last], i);
    if i == last {
      HealthyCount(eps[..last]);
    } else {
      HealthyInOrder(eps[..last], i);
    }
  }

  function Weights(eps: seq<EndpointDetail>): (ws: seq<real>)
    ensures |ws| == |eps| && forall i :: 0 <= i < |eps| ==> ws[i] == eps[i].weight
  {
    seq(|eps|, i requires 0 <= i < |eps| => eps[i].weight)
  }

  /** The larger of 0 and the largest weight. */
  function MaxWeight(ws: seq<real>): (w: real)
    ensures w >= 0.0
    ensures forall i :: 0 <= i < |ws| ==> ws[i] <= w
    ensures w == 0.0 || exists i :: 0 <= i < |ws| && ws[i] == w
  {
    if ws == [] then 0.0
    else
      var last := |ws| - 1;
      var rest := MaxWeight(ws[..last]);
      assert rest == 0.0 || exists i :: 0 <= i < last && ws[..last][i] == rest && ws[i] == rest;
      if ws[last] > rest then ws[last] else rest
  }

  // ----- One iteration of the picking loop -----

  function NextIndex(n: nat, index: int): (i: nat)
    requires n > 0 && index >= -1
    ensures i < n
  {
    (index + 1) % n
  }

  /** The cursor after one iteration: the level drops by 1 at index 0 and restarts at the maximum. */
  function Advance(ws: seq<real>, c: Cursor): (r: Cursor)
    requires ws != [] && ValidCursor(c)
    ensures ValidCursor(r) && 0 <= r.index < |ws|
  {
    var i := NextIndex(|ws|, c.index);
    if i != 0 then Cursor(i, c.weight)
    else if c.weight - 1.0 <= 0.0 then Cursor(0, MaxWeight(ws))
    else Cursor(0, c.weight - 1.0)
  }

  /** The loop returns on the endpoint under `c`: the zero-weight fallback, or a weight at the level. */
  predicate Stops(ws: seq<real>, c: Cursor)
    requires 0 <= c.index < |ws|
  {
    (c.index == 0 && c.weight == 0.0) || ws[c.index] >= c.weight
  }

  // ----- Termination -----

  /** How many whole passes the level stays above every weight. */
  function Excess(ws: seq<real>, c: Cursor): nat {
    var k := Ceil(c.weight - MaxWeight(ws));
    if k > 0 then k else 0
  }

  /** An index that stops the loop as soon as the level is no higher than the maximum weight. */
  ghost function Target(ws: seq<real>): (m: nat)
    requires ws != []
    ensures m < |ws|
    ensures ws[m] == MaxWeight(ws) || (m == 0 && MaxWeight(ws) == 0.0)
  {
    if exists i :: 0 <= i < |ws| && ws[i] == MaxWeight(ws)
    then var i :| 0 <= i < |ws| && ws[i] == MaxWeight(ws); i
    else 0
  }

  /** Iterations that remain at most: drop the level k times, then walk to the target. */
  ghost function Rank(ws: seq<real>, c: Cursor): nat
    requires ws != [] && ValidCursor(c)
  {
    var n, p, m, k := |ws|, NextIndex(|ws|, c.index), Target(ws), Excess(ws, c);
    if k == 0 then (if p <= m then m - p + 1 else m - p + n + 1)
    else
      TimesMonotone(0, k - 1, n);
      (if p == 0 then 1 else n - p + 1) + (k - 1) * n + m
  }

  lemma {:induction false} NextIndexSteps(n: nat, index: int)
    requires n > 0 && index >= -1
    ensures var p := NextIndex(n, index); NextIndex(n, p) == if p + 1 == n then 0 else p + 1
  {
  }

  /** Dropping the level by one lowers the excess by exactly one; restarting clears it. */
  lemma {:induction false} ExcessDrops(ws: seq<real>, c: Cursor)
    requires ws != [] && ValidCursor(c)
    ensures var d := Advance(ws, c);
            if d.index != 0 then Excess(ws, d) == Excess(ws, c)
            else if Excess(ws, c) == 0 then Excess(ws, d) == 0
            else Excess(ws, d) <= Excess(ws, c) - 1
  {
  }

  lemma {:induction false} PassLeft(k: nat, k': nat, n: nat)
    requires k >= 2 && k' <= k - 1
    ensures (k' - 1) * n + n <= (k - 1) * n
  {
    TimesMonotone(k', k - 1, n);
  }

  lemma {:induction false} RankDecreases(ws: seq<real>, c: Cursor)
    requires ws != [] && ValidCursor(c)
    requires !Stops(ws, Advance(ws, c))
    ensures Rank(ws, Advance(ws, c)) < Rank(ws, c)
  {
    var n, d, m := |ws|, Advance(ws, c), Target(ws);
    var p, k, k' := NextIndex(n, c.index), Excess(ws, c), Excess(ws, d);
    NextIndexSteps(n, c.index);
    ExcessDrops(ws, c);
    if k == 0 {
      assert d.weight <= MaxWeight(ws);
      assert p != m;
    } else if p == 0 {
      if k' == 0 {
        assert d.weight <= MaxWeight(ws);
        assert m != 0;
        assert (k - 1) * n >= 0;
      } else {
        PassLeft(k, k', n);
      }
    }
  }

  lemma {:induction false} RankBounded(ws: seq<real>, c: Cursor)
    requires ws != [] && ValidCursor(c)
    ensures 1 <= Rank(ws, c) <= |ws| * (Excess(ws, c) + 1)
  {
    var n, k := |ws|, Excess(ws, c);
    if k > 0 {
      assert n * (k + 1) == (k - 1) * n + 2 * n;
      assert (k - 1) * n >= 0;
    }
  }

  // ----- What a pick computes -----

  /** The cursor under which the picking loop returns. */
  ghost function PickCursor(ws: seq<real>, c: Cursor): (r: Cursor)
    requires ws != [] && ValidCursor(c)
    ensures ValidCursor(r) && 0 <= r.index < |ws| && Stops(ws, r)
    decreases Rank(ws, c)
  {
    var d := Advance(ws, c);
    if Stops(ws, d) then d else RankDecreases(ws, c); PickCursor(ws, d)
  }

  /** How many iterations the picking loop takes. */
  ghost function Iterations(ws: seq<real>, c: Cursor): (k: nat)
    requires ws != [] && ValidCursor(c)
    decreases Rank(ws, c)
  {
    var d := Advance(ws, c);
    if Stops(ws, d) then 1 else RankDecreases(ws, c); 1 + Iterations(ws, d)
  }

  /**
   * A pick from any cursor, left by any picks over any lists, takes at most
   * n * (max(0, ceil(currentWeight - W)) + 1) iterations.
   */
  lemma {:induction false} PickTerminates(ws: seq<real>, c: Cursor)
    requires ws != [] && ValidCursor(c)
    ensures 1 <= Iterations(ws, c) <= |ws| * (Excess(ws, c) + 1)
  {
    IterationsWithinRank(ws, c);
    RankBounded(ws, c);
  }

  lemma {:induction false} IterationsWithinRank(ws: seq<real>, c: Cursor)
    requires ws != [] && ValidCursor(c)
    ensures 1 <= Iterations(ws, c) <= Rank(ws, c)
    decreases Rank(ws, c)
  {
    var d := Advance(ws, c);
    RankBounded(ws, c);
    if !Stops(ws, d) {
      RankDecreases(ws, c);
      IterationsWithinRank(ws, d);
    }
  }

  /** One iteration, as a pick sees it. */
  lemma {:induction false} PickStep(ws: seq<real>, c: Cursor)
    requires ws != [] && ValidCursor(c)
    ensures var d := Advance(ws, c);
            if Stops(ws, d) then PickCursor(ws, c) == d && Iterations(ws, c) == 1
            else && PickCursor(ws, c) == PickCursor(ws, d) && Iterations(ws, c) == 1 + Iterations(ws, d)
                 && Rank(ws, d) < Rank(ws, c)
  {
    if !Stops(ws, Advance(ws, c)) {
      RankDecreases(ws, c);
    }
  }

  // ----- Where the walk is, in closed form -----

  /** The cursor after `t` iterations, stopping nowhere. */
  ghost function After(ws: seq<real>, c: Cursor, t: nat): (r: Cursor)
    requires ws != [] && ValidCursor(c)
    ensures ValidCursor(r)
    decreases t
  {
    if t == 0 then c else After(ws, Advance(ws, c), t - 1)
  }

  lemma {:induction false} AfterOneMore(ws: seq<real>, c: Cursor, t: nat)
    requires ws != [] && ValidCursor(c)
    ensures After(ws, c, t + 1) == Advance(ws, After(ws, c, t))
    decreases t
  {
    if t == 0 {
      assert After(ws, c, 1) == After(ws, Advance(ws, c), 0);
    } else {
      AfterOneMore(ws, Advance(ws, c), t - 1);
    }
  }

  /** How often `t` steps from the index reach a multiple of n. */
  function Wraps(n: nat, index: int, t: nat): int
    requires n > 0
  {
    (index + t) / n - index / n
  }

  function AtLeastOne(k: int): (r: nat)
    ensures r >= 1
  {
    if k > 1 then k else 1
  }

  /**
   * The level after k wraps: one less at each, until that would not be positive; from then on it
   * starts again and again from W.
   */
  function LevelAt(w: real, max: real, k: nat): real {
    var first := AtLeastOne(Ceil(w));
    if k < first then w - k as real else max - ((k - first) % AtLeastOne(Ceil(max))) as real
  }

  lemma {:induction false} ModStep(a: int, n: nat)
    requires n > 0
    ensures (a % n + 1) % n == (a + 1) % n
    ensures (a + 1) / n == a / n + if (a + 1) % n == 0 then 1 else 0
    ensures (a + 1) % n == if a % n + 1 == n then 0 else a % n + 1
  {
    var q, r := a / n, a % n;
    assert a == n * q + r;
    if r + 1 == n {
      DivModIs(a + 1, n, q + 1, 0);
      DivModIs(r + 1, n, 1, 0);
    } else {
      DivModIs(a + 1, n, q, r + 1);
      DivModIs(r + 1, n, 0, r + 1);
    }
  }

  lemma {:induction false} LevelStep(w: real, max: real, k: nat)
    ensures var l := LevelAt(w, max, k); LevelAt(w, max, k + 1) == if l - 1.0 <= 0.0 then max else l - 1.0
  {
    var first, period := AtLeastOne(Ceil(w)), AtLeastOne(Ceil(max));
    if k + 1 < first {
      assert (k + 1) as real < w;
    } else if k + 1 == first {
      assert 0 % period == 0;
    } else {
      ModStep(k - first, period);
      var j := (k - first) % period;
      if j + 1 < period {
        assert (j + 1) as real < max;
      }
    }
  }

  /** Where the walk is after t iterations, in arithmetic. */
  lemma {:induction false} WalkIsArithmetic(ws: seq<real>, c: Cursor, t: nat)
    requires ws != [] && ValidCursor(c)
    ensures Wraps(|ws|, c.index, t) >= 0
    ensures After(ws, c, t) == Cursor(if t == 0 then c.index else (c.index + t) % |ws|,
                                      LevelAt(c.weight, MaxWeight(ws), Wraps(|ws|, c.index, t)))
  {
    if t == 0 {
    } else {
      var n := |ws|;
      WalkIsArithmetic(ws, c, t - 1);
      AfterOneMore(ws, c, t - 1);
      ModStep(c.index + t - 1, n);
      LevelStep(c.weight, MaxWeight(ws), Wraps(n, c.index, t - 1));
    }
  }

  /** After t iterations the walk is on an endpoint whose weight is at the level, or on the fallback. */
  ghost predicate ReturnsAt(ws: seq<real>, c: Cursor, t: nat)
    requires ws != []
  {
    var i, wraps := (c.index + t) % |ws|, Wraps(|ws|, c.index, t);
    wraps >= 0 &&
    var level := LevelAt(c.weight, MaxWeight(ws), wraps);
    ws[i] >= level || (i == 0 && level == 0.0)
  }

  /**
   * A pick that starts at c takes t iterations to d: the first at which the walk may return, in at
   * most n * (max(0, ceil(currentWeight - W)) + 1).
   */
  ghost predicate Picked(ws: seq<real>, c: Cursor, d: Cursor, t: nat)
    requires ws != []
  {
    var wraps, above := Wraps(|ws|, c.index, t), Ceil(c.weight - MaxWeight(ws));
    && ReturnsAt(ws, c, t) && (forall s :: 1 <= s < t ==> !ReturnsAt(ws, c, s))
    && d.index == (c.index + t) % |ws|
    && wraps >= 0 && d.weight == LevelAt(c.weight, MaxWeight(ws), wraps)
    && 1 <= t <= |ws| * ((if above > 0 then above else 0) + 1)
  }

  lemma {:induction false} PickIsAfter(ws: seq<real>, c: Cursor)
    requires ws != [] && ValidCursor(c)
    ensures After(ws, c, Iterations(ws, c)) == PickCursor(ws, c)
    ensures forall s :: 1 <= s < Iterations(ws, c) ==>
              0 <= After(ws, c, s).index < |ws| && !Stops(ws, After(ws, c, s))
    decreases Rank(ws, c)
  {
    var d := Advance(ws, c);
    if Stops(ws, d) {
      assert After(ws, c, 1) == After(ws, d, 0);
    } else {
      RankDecreases(ws, c);
      PickIsAfter(ws, d);
      forall s | 1 <= s < Iterations(ws, c)
        ensures 0 <= After(ws, c, s).index < |ws| && !Stops(ws, After(ws, c, s))
      {
        if s == 1 {
          assert After(ws, c, 1) == After(ws, d, 0);
        } else {
          assert After(ws, c, s) == After(ws, d, s - 1);
        }
      }
    }
  }

  /** From every cursor, a pick takes the first iteration at which the walk may return. */
  lemma {:induction false} PickIsFirstReturn(ws: seq<real>, c: Cursor)
    requires ws != [] && ValidCursor(c)
    ensures Picked(ws, c, PickCursor(ws, c), Iterations(ws, c))
  {
    var t := Iterations(ws, c);
    PickTerminates(ws, c);
    PickIsAfter(ws, c);
    WalkIsArithmetic(ws, c, t);
    forall s | 1 <= s < t ensures !ReturnsAt(ws, c, s) {
      WalkIsArithmetic(ws, c, s);
    }
  }

  /** What the whole pick returns. */
  lemma {:induction false} PickIsHealthy(endpoints: seq<EndpointDetail>, c: Cursor)
    requires Healthy(endpoints) != [] && ValidCursor(c)
    ensures var k := PickCursor(Weights(Healthy(endpoints)), c).index;
            && 0 <= k < |Healthy(endpoints)|
            && Healthy(endpoints)[k] in endpoints && Healthy(endpoints)[k].healthy
  {
    var h := Healthy(endpoints);
    assert h[PickCursor(Weights(h), c).index] in h;
  }

  class WeightedRoundRobin {
    var currentIndex: int
    var currentWeight: real

    ghost predicate Valid()
      reads this
    {
      ValidCursor(Fields())
    }

    function Fields(): Cursor
      reads this
    {
      Cursor(currentIndex, currentWeight)
    }

    constructor ()
      ensures Valid() && Fields() == FRESH && currentIndex == -1 && currentWeight == 0.0
    {
      currentIndex, currentWeight := -1, 0.0;
    }

    /**
     * Selects a healthy endpoint.  The cursor moves one position at each iteration, around the
     * healthy endpoints of this call and whatever list came before, and the level drops at each
     * wrap; the pick is the first endpoint whose weight is at the level, or the fallback.
     */
    method Pick(endpoints: seq<EndpointDetail>) returns (r: Result<EndpointDetail>, ghost iterations: nat)
      requires Valid()
      modifies this
      ensures Valid()
      ensures Healthy(endpoints) == [] ==> r.Err? && Fields() == old(Fields())
      ensures Healthy(endpoints) != [] ==>
                var ws := Weights(Healthy(endpoints));
                && Fields() == PickCursor(ws, old(Fields()))
                && r == Ok(Healthy(endpoints)[currentIndex])
                && r.value in endpoints && r.value.healthy
                && iterations == Iterations(ws, old(Fields()))
                && Picked(ws, old(Fields()), Fields(), iterations)
    {
      iterations := 0;
      var healthy := FilterHealthy(endpoints);
      if |healthy| == 0 {
        return Err, 0;
      }
      ghost var ws := Weights(healthy);
      ghost var start := Fields();
      PickTerminates(ws, start);
      PickIsHealthy(endpoints, start);
      PickIsFirstReturn(ws, start);

      var maxWeight := HighestWeight(healthy);

      while true
        invariant Valid()
        invariant PickCursor(ws, Fields()) == PickCursor(ws, start)
        invariant iterations + Iterations(ws, Fields()) == Iterations(ws, start)
        decreases Rank(ws, Fields())
      {
        ghost var before := Fields();
        iterations := iterations + 1;
        PickStep(ws, before);
        var stop := Iterate(healthy, maxWeight);
        if stop {
          assert Fields() == PickCursor(ws, start) && iterations == Iterations(ws, start);
          return Ok(healthy[currentIndex]), iterations;
        }
      }
    }

    /** The body of the loop; `stop` tells that it returns the endpoint under the cursor. */
    method Iterate(healthy: seq<EndpointDetail>, maxWeight: real) returns (stop: bool)
      requires Valid() && healthy != [] && maxWeight == MaxWeight(Weights(healthy))
      modifies this
      ensures Valid() && 0 <= currentIndex < |healthy|
      ensures Fields() == Advance(Weights(healthy), old(Fields()))
      ensures stop == Stops(Weights(healthy), Fields())
    {
      currentIndex := (currentIndex + 1) % |healthy|;
      if currentIndex == 0 {
        currentWeight := currentWeight - 1.0;
        if currentWeight <= 0.0 {
          currentWeight := maxWeight;
          if currentWeight == 0.0 {
            return true;
          }
        }
      }
      stop := healthy[currentIndex].weight >= currentWeight;
    }
  }

  method HighestWeight(healthy: seq<EndpointDetail>) returns (maxWeight: real)
    ensures maxWeight == MaxWeight(Weights(healthy))
  {
    ghost var ws := Weights(healthy);
    maxWeight := 0.0;
    for i := 0 to |healthy|
      invariant maxWeight == MaxWeight(ws[..i])
    {
      assert ws[..i + 1][..i] == ws[..i];
      if healthy[i].weight > maxWeight {
        maxWeight := healthy[i].weight;
      }
    }
    assert ws[..|healthy|] == ws;
  }

  /** Returns only the healthy endpoints. */
  method FilterHealthy(endpoints: seq<EndpointDetail>) returns (healthy: seq<EndpointDetail>)
    ensures healthy == Healthy(endpoints)
  {
    healthy := [];
    for i := 0 to |endpoints|
      invariant healthy == Healthy(endpoints[..i])
    {
      assert endpoints[..i + 1][..i] == endpoints[..i];
      if endpoints[i].healthy {
        healthy := healthy + [endpoints[i]];
      }
    }
    assert endpoints[..|endpoints|] == endpoints;
  }
}
