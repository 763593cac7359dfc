/**
 The arithmetic behind the EEVDF run queue: what the accumulators of cfs_rq stand for, the
 O(1) average virtual time, eligibility, and the placement that preserves an entity's lag.
 */
module EevdfMath {
  import opened CArith

  /** What the sums see of a scheduling entity: vruntime and scale_load_down()ed weight. */
  datatype Ent = Ent(v: int, w: nat)

  /** \Sum w_i, what cfs_rq::avg_load holds. */
  ghost function LoadSum(t: seq<Ent>): nat {
    if t == [] then 0 else t[0].w + LoadSum(t[1..])
  }

  /** \Sum (v_i - v0) * w_i, what cfs_rq::avg_vruntime holds. */
  ghost function KeySum(t: seq<Ent>, v0: int): int {
    if t == [] then 0 else (t[0].v - v0) * t[0].w + KeySum(t[1..], v0)
  }

  lemma {:induction false} SumsOfConcat(a: seq<Ent>, b: seq<Ent>, v0: int)
    ensures LoadSum(a + b) == LoadSum(a) + LoadSum(b)
    ensures KeySum(a + b, v0) == KeySum(a, v0) + KeySum(b, v0)
  {
    if a == [] {
      assert a + b == b;
    } else {
      assert (a + b)[0] == a[0] && (a + b)[1..] == a[1..] + b;
      SumsOfConcat(a[1..], b, v0);
    }
  }

  /** One entity more, wherever the tree puts it, adds exactly its own term. */
  lemma SumsOfInsert(t: seq<Ent>, k: nat, e: Ent, v0: int)
    requires k <= |t|
    ensures LoadSum(t[..k] + [e] + t[k..]) == LoadSum(t) + e.w
    ensures KeySum(t[..k] + [e] + t[k..], v0) == KeySum(t, v0) + (e.v - v0) * e.w
  {
    SumsOfConcat(t[..k] + [e], t[k..], v0);
    SumsOfConcat(t[..k], [e], v0);
    SumsOfConcat(t[..k], t[k..], v0);
    assert t[..k] + t[k..] == t;
  }

  /** Moving the origin by d subtracts d times the total weight. */
  lemma {:induction false} KeySumRebase(t: seq<Ent>, v0: int, d: int)
    ensures KeySum(t, v0 + d) == KeySum(t, v0) - LoadSum(t) * d
  {
    if t != [] {
      KeySumRebase(t[1..], v0, d);
      var e := t[0];
      assert (e.v - (v0 + d)) * e.w == (e.v - v0) * e.w - e.w * d;
      assert LoadSum(t) * d == e.w * d + LoadSum(t[1..]) * d;
    }
  }

  /** avg_vruntime(): v0 + sum / load, the division biased so that it floors either sign. */
  function AvgVruntime(v0: int, sum: int, load: int): int
    requires load >= 0
  {
    if load == 0 then v0
    else v0 + TruncDiv(if sum < 0 then sum - (load - 1) else sum, load)
  }

  lemma AvgVruntimeIsFloor(v0: int, sum: int, load: int)
    requires load > 0
    ensures IsFloor(AvgVruntime(v0, sum, load) - v0, sum, load)
  {
    TruncDivBounds(if sum < 0 then sum - (load - 1) else sum, load);
    var q := AvgVruntime(v0, sum, load) - v0;
    if sum < 0 {
      assert (q - 1) * load < sum - (load - 1) <= q * load;
      assert (q - 1) * load == q * load - load;
      assert (q + 1) * load == q * load + load;
    }
  }

  /** Moving the origin and re-basing the sum leaves the average where it was. */
  lemma RebaseKeepsAverage(v0: int, sum: int, load: int, d: int)
    requires load > 0
    ensures AvgVruntime(v0 + d, sum - load * d, load) == AvgVruntime(v0, sum, load)
  {
    AvgVruntimeIsFloor(v0, sum, load);
    AvgVruntimeIsFloor(v0 + d, sum - load * d, load);
    FloorShift(AvgVruntime(v0, sum, load) - v0, sum, load, d);
    FloorUnique(AvgVruntime(v0 + d, sum - load * d, load) - (v0 + d),
                AvgVruntime(v0, sum, load) - v0 - d, sum - d * load, load);
  }

  /** abk_eevdf_eligible() */
  predicate Eligible(v: int, avg: int) {
    avg - v >= 0
  }

  /**
   Comparing with the rounded average decides the sign of the exact lag: an entity is
   eligible iff load * (v - v0) <= sum, no matter how the division rounded.
   */
  lemma EligibleIffLagNonNegative(v: int, v0: int, sum: int, load: int)
    requires load > 0
    ensures Eligible(v, AvgVruntime(v0, sum, load)) <==> load * (v - v0) <= sum
  {
    var q := AvgVruntime(v0, sum, load) - v0;
    AvgVruntimeIsFloor(v0, sum, load);
    if v - v0 <= q {
      MulMonotone(v - v0, q, load);
    } else {
      MulMonotone(q + 1, v - v0, load);
    }
  }

  /** No entity lies left of v. */
  ghost predicate Leftmost(t: seq<Ent>, v: int) {
    forall i :: 0 <= i < |t| ==> v <= t[i].v
  }

  lemma {:induction false} KeySumLowerBound(t: seq<Ent>, v0: int, v: int)
    requires Leftmost(t, v)
    ensures LoadSum(t) * (v - v0) <= KeySum(t, v0)
  {
    if t != [] {
      KeySumLowerBound(t[1..], v0, v);
      var e := t[0];
      MulMonotone(v - v0, e.v - v0, e.w);
      assert LoadSum(t) * (v - v0) == (v - v0) * e.w + LoadSum(t[1..]) * (v - v0);
    }
  }

  /** The leftmost of the competing entities is always eligible, so somebody is. */
  lemma LeftmostIsEligible(t: seq<Ent>, v0: int, v: int)
    requires LoadSum(t) > 0 && Leftmost(t, v)
    ensures Eligible(v, AvgVruntime(v0, KeySum(t, v0), LoadSum(t)))
  {
    KeySumLowerBound(t, v0, v);
    EligibleIffLagNonNegative(v, v0, KeySum(t, v0), LoadSum(t));
  }

  /** \Sum w_i * (avg - v_i): the service owed to all competing entities together. */
  ghost function LagSum(t: seq<Ent>, avg: int): int {
    -KeySum(t, avg)
  }

  /** Lags cancel out, up to less than one unit of rounding per unit of weight. */
  lemma LagsCancel(t: seq<Ent>, v0: int)
    requires LoadSum(t) > 0
    ensures
      var lags := LagSum(t, AvgVruntime(v0, KeySum(t, v0), LoadSum(t)));
      lags <= 0 && 0 < lags + LoadSum(t)
  {
    var W: int, S := LoadSum(t), KeySum(t, v0);
    var q := AvgVruntime(v0, S, W) - v0;
    AvgVruntimeIsFloor(v0, S, W);
    KeySumRebase(t, v0, q);
    MulAdd(q, 1, W);
  }

  /** abk_eevdf_preserved_lag(): clamp, then scale for the weight that is about to join. */
  function PreservedLag(vlag: int, limit: int, load: int, weight: int): int
    requires limit >= 0 && load >= 0
  {
    var lag := Clamp(vlag, limit);
    if load > 0 then TruncDiv(lag * (load + Max(weight, 1)), load) else lag
  }

  /** abk_eevdf_apply_lag_placement(): vruntime is unsigned, so it never goes below 0. */
  function PlaceAt(avg: int, lag: int): int {
    if lag > 0 then avg - Min(avg, lag)
    else if lag < 0 then avg + (-lag)
    else avg
  }

  /** What update_entity_lag() would now read back for an entity enqueued at v. */
  ghost function RecomputedLag(t: seq<Ent>, v0: int, v: int, w: int): int
    requires w > 0
  {
    AvgVruntime(v0, KeySum(t, v0) + (v - v0) * w, LoadSum(t) + w) - v
  }

  /** The same from the sums after the entity has joined. */
  lemma LagFromAverage(t: seq<Ent>, v0: int, v: int, w: nat, sum: int, load: nat)
    requires w > 0 && sum == KeySum(t, v0) + (v - v0) * w && load == LoadSum(t) + w
    ensures AvgVruntime(v0, sum, load) - v == RecomputedLag(t, v0, v, w)
  {
  }

  ghost predicate Within(a: int, b: int, d: int) {
    -d <= a - b <= d
  }

  /**
   The rounding core.  A is the tree's weighted vruntime sum, V its floored mean, q the
   truncated scaled lag, r the lag read back after the entity was enqueued at V - q.
   */
  lemma UnsaturatedPlacement(A: int, W: int, w: int, V: int, L: int, q: int, r: int)
    requires W > 0 && w > 0
    requires IsFloor(V, A, W)
    requires q == TruncDiv(L * (W + w), W)
    requires IsFloor(r, A - (V - q) * W, W + w)
    ensures L >= 0 ==> L - 1 <= r <= L
    ensures L <= 0 ==> L <= r <= L + 1
  {
    TruncDivBounds(L * (W + w), W);
    var D := W + w;
    MulSub(V, q, W);
    MulAdd(V, 1, W);
    SignOfProduct(L, D);
    MulAdd(q, 1, W);
    MulSub(q, 1, W);
    MulAdd(r, 1, D);
    RoundingBounds(A - V * W, W, D, L * D, q * W, L, r * D, r);
  }

  lemma SignOfProduct(x: int, b: int)
    requires b > 0
    ensures x >= 0 ==> x * b >= 0
    ensures x <= 0 ==> x * b <= 0
  {
  }

  /** The same with every product named, so that only linear arithmetic is left. */
  lemma RoundingBounds(e: int, W: int, D: int, LD: int, qW: int, L: int, rD: int, r: int)
    requires 0 <= e < W < D && LD == L * D && rD == r * D
    requires L >= 0 ==> LD - W < qW <= LD
    requires L <= 0 ==> LD <= qW < LD + W
    requires rD <= e + qW < rD + D
    ensures L >= 0 ==> L - 1 <= r <= L
    ensures L <= 0 ==> L <= r <= L + 1
  {
    MulSub(r, L, D);
    if L >= 0 {
      MulCancel(r - L, 1, D);
      MulCancel(-2, r - L, D);
    }
    if L <= 0 {
      MulCancel(r - L, 2, D);
      MulCancel(-1, r - L, D);
    }
  }

  lemma SumSeenFrom(A: int, W: int, w: int, v: int, v0: int)
    ensures A - W * v0 + (v - v0) * w - (v - v0) * (W + w) == A - v * W
  {
    MulAdd(W, w, v - v0);
    MulSub(v, v0, W);
  }

  lemma RecomputedLagIsFloor(t: seq<Ent>, v0: int, v: int, w: int)
    requires w > 0
    ensures IsFloor(RecomputedLag(t, v0, v, w), KeySum(t, 0) - v * LoadSum(t), LoadSum(t) + w)
  {
    var W: int := LoadSum(t);
    var D, S := W + w, KeySum(t, v0) + (v - v0) * w;
    assert S - (v - v0) * D == KeySum(t, 0) - v * W by {
      KeySumRebase(t, 0, v0);
      SumSeenFrom(KeySum(t, 0), W, w, v, v0);
    }
    assert IsFloor(AvgVruntime(v0, S, D) - v0, S, D) by { AvgVruntimeIsFloor(v0, S, D); }
    FloorShift(AvgVruntime(v0, S, D) - v0, S, D, v - v0);
  }

  /** The floored mean bounds the tree's weighted vruntime sum from both sides. */
  lemma AverageOfAbsoluteSum(t: seq<Ent>, v0: int)
    requires LoadSum(t) > 0
    ensures IsFloor(AvgVruntime(v0, KeySum(t, v0), LoadSum(t)), KeySum(t, 0), LoadSum(t))
  {
    var W: int, S := LoadSum(t), KeySum(t, v0);
    AvgVruntimeIsFloor(v0, S, W);
    var q, d := AvgVruntime(v0, S, W) - v0, 0 - v0;
    FloorShift(q, S, W, d);
    KeySumRebase(t, 0, v0);
    MulSub(0, v0, W);
  }

  /**
   Lag survives placement.  The entity is placed by its stored lag and enqueued; reading its
   lag back then gives the (clamped) stored lag to within one, despite two truncating
   divisions, exactly when the tree's weighted vruntime sum can pay for it.  The condition
   fails only when subtracting the lag would have made the unsigned vruntime negative.
   */
  lemma PlacementKeepsLag(t: seq<Ent>, v0: int, w: int, vlag: int, limit: int)
    requires LoadSum(t) > 0 && w > 0 && limit >= 0
    requires AvgVruntime(v0, KeySum(t, v0), LoadSum(t)) >= 0
    ensures
      var V := AvgVruntime(v0, KeySum(t, v0), LoadSum(t));
      var L := Clamp(vlag, limit);
      var lag := PreservedLag(vlag, limit, LoadSum(t), w);
      && (Within(RecomputedLag(t, v0, PlaceAt(V, lag), w), L, 1) <==>
          (L - 1) * (LoadSum(t) + w) <= KeySum(t, 0))
      && (lag <= V ==> (L - 1) * (LoadSum(t) + w) <= KeySum(t, 0))
  {
    var W, A := LoadSum(t), KeySum(t, 0);
    var V := AvgVruntime(v0, KeySum(t, v0), W);
    var L := Clamp(vlag, limit);
    var q := PreservedLag(vlag, limit, W, w);
    AverageOfAbsoluteSum(t, v0);
    var v := PlaceAt(V, q);
    var r := RecomputedLag(t, v0, v, w);
    RecomputedLagIsFloor(t, v0, v, w);
    if q <= V {
      assert v == V - q;
      UnsaturatedPlacement(A, W, w, V, L, q, r);
      PayableWhenUnsaturated(A, W, w, V, L, q);
    } else {
      assert v == 0;
      SaturatedPlacement(A, W, w, V, L, q, r);
    }
  }

  /** The failing half: a lag of 100 against a tree at virtual time 10 is read back as 5. */
  lemma SaturationLosesLag()
    ensures
      var tree := [Ent(10, 1)];
      var V := AvgVruntime(0, KeySum(tree, 0), LoadSum(tree));
      V == 10 && RecomputedLag(tree, 0, PlaceAt(V, PreservedLag(100, 100, LoadSum(tree), 1)), 1) == 5
  {
    var tree := [Ent(10, 1)];
    assert tree[1..] == [] && LoadSum(tree) == 1 && KeySum(tree, 0) == 10;
  }

  lemma PayableWhenUnsaturated(A: int, W: int, w: int, V: int, L: int, q: int)
    requires W > 0 && w > 0 && V >= 0 && V * W <= A
    requires q == TruncDiv(L * (W + w), W) && q <= V
    ensures (L - 1) * (W + w) <= A
  {
    TruncDivBounds(L * (W + w), W);
    var D := W + w;
    MulMonotone(q, V, W);
    MulMonotone(0, V, W);
    MulSub(L, 1, D);
    MulAdd(q, 1, W);
    SignOfProduct(L, D);
  }

  lemma SaturatedPlacement(A: int, W: int, w: int, V: int, L: int, q: int, r: int)
    requires W > 0 && w > 0 && V >= 0 && IsFloor(V, A, W)
    requires q == TruncDiv(L * (W + w), W) && V < q
    requires IsFloor(r, A, W + w)
    ensures r < L
    ensures Within(r, L, 1) <==> (L - 1) * (W + w) <= A
  {
    TruncDivBounds(L * (W + w), W);
    var D := W + w;
    SignOfProduct(L, D);
    MulMonotone(1, q, W);
    assert L > 0;
    MulMonotone(V + 1, q, W);
    MulCancel(r, L, D);
    if (L - 1) * D <= A {
      MulCancel(L - 1, r + 1, D);
    } else {
      MulCancel(r, L - 1, D);
    }
  }

  /** A new task, placed at the average itself, starts with no lag at all. */
  lemma InitialPlacementHasNoLag(t: seq<Ent>, v0: int, w: int)
    requires LoadSum(t) > 0 && w > 0
    ensures RecomputedLag(t, v0, AvgVruntime(v0, KeySum(t, v0), LoadSum(t)), w) == 0
  {
    var W, D, A := LoadSum(t), LoadSum(t) + w, KeySum(t, 0);
    var V := AvgVruntime(v0, KeySum(t, v0), W);
    AverageOfAbsoluteSum(t, v0);
    RecomputedLagIsFloor(t, v0, V, w);
    MulAdd(V, 1, W);
    FloorUnique(RecomputedLag(t, v0, V, w), 0, A - V * W, D);
  }

  /** An empty queue has nothing to hold a lag against: it is lost. */
  lemma EmptyQueueForgetsLag(v0: int, w: int, v: int)
    requires w > 0
    ensures RecomputedLag([], v0, v, w) == 0
  {
    RecomputedLagIsFloor([], v0, v, w);
    FloorUnique(RecomputedLag([], v0, v, w), 0, 0, w);
  }

  /**
   While current is running the average covers it but the scaling (which reads avg_load, the
   tree only) does not: a stored lag of 30 is read back as 40.
   */
  lemma RunningCurrentInflatesLag()
    ensures
      var tree, curr := [Ent(1000, 1)], Ent(1000, 1);
      var V := AvgVruntime(0, KeySum(tree, 0) + curr.v * curr.w, LoadSum(tree) + curr.w);
      var v := PlaceAt(V, PreservedLag(30, 100, LoadSum(tree), 1));
      RecomputedLag(tree + [curr], 0, v, 1) == 40
  {
    var tree, curr := [Ent(1000, 1)], Ent(1000, 1);
    assert tree[1..] == [] && (tree + [curr])[1..] == [curr] && [curr][1..] == [];
    assert LoadSum(tree) == 1 && KeySum(tree, 0) == 1000;
    assert LoadSum([curr]) == 1 && KeySum([curr], 0) == 1000;
    assert LoadSum(tree + [curr]) == 2 && KeySum(tree + [curr], 0) == 2000;
  }
}
