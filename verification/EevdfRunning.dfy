/**
 Placement while an entity is running.  The average covers the running entity, the scaling of
 the lag covers the tree only; this says what that does to a lag, for every weight.
 */
module EevdfRunning {
  import opened CArith
  import opened EevdfMath

  /** The scaled lag that abk_eevdf_preserved_lag() hands to the placement, from the clamped one. */
  function Scaled(lag: int, tree: nat, w: nat): int {
    if tree > 0 then TruncDiv(lag * (tree + w), tree) else lag
  }

  /**
   r is the lag that an entity of weight w, placed by the clamped lag L, has on a queue whose
   tree weighs W and whose running entity weighs C; A is the weighted vruntime sum of both and
   V its floored mean.  With X = L * w * C and D = (W + C + w) * W the lag is inflated by X / D.
   */
  ghost predicate LagCarried(L: int, W: nat, C: nat, A: int, V: int, w: nat, r: int) {
    var N, D, X := W + C + w, (W + C + w) * W, L * w * C;
    var v := PlaceAt(V, Scaled(L, W, w));
    && (Within(r, L, 1) <==> (L - 1) * N <= A - v * (W + C) < (L + 2) * N)
    && (W > 0 && Scaled(L, W, w) <= V ==>
          && (L >= 0 ==> (L - 2) * D + X < r * D < (L + 1) * D + X)
          && (L <= 0 ==> (L - 1) * D + X < r * D < (L + 2) * D + X)
          && (-D <= X <= D ==> Within(r, L, 1))
          && (X >= 3 * D || X <= -3 * D ==> !Within(r, L, 1)))
    && (W > 0 && Scaled(L, W, w) > V ==>
          v == 0 && r * D < (L + 1) * D + X && (Within(r, L, 1) <==> (L - 1) * N <= A < (L + 2) * N))
  }

  /** The products of the rounding bounds, each named. */
  lemma ScaledProduct(L: int, W: nat, C: nat, w: nat)
    ensures L * (W + w) * (W + C) == L * ((W + C + w) * W) + L * w * C
  {
    MulAdd(W, w, W + C);
    assert (W + w) * (W + C) == (W + C + w) * W + w * C by {
      MulAdd(W, C, W + w);
      MulAdd(W + w, C, W);
      MulAdd(W, w, C);
    }
    assert L * (W + w) * (W + C) == L * ((W + w) * (W + C)) by { MulAssoc(L, W + w, W + C); }
    MulAdd((W + C + w) * W, w * C, L);
    MulAssoc(L, w, C);
  }

  lemma MulAssoc(a: int, b: int, c: int)
    ensures a * b * c == a * (b * c)
  {
  }

  /** What the average's own rounding can add, scaled by the tree's load. */
  lemma SmallRest(e: int, W: nat, T: nat, w: nat)
    requires W > 0 && w > 0 && 0 <= e < T
    ensures 0 <= e * W < (T + w) * W
  {
    MulMonotone(0, e, W);
    MulMonotone(e + 1, T + w, W);
    MulAdd(e, 1, W);
  }

  /** The truncated scaled lag q, times the load of all competitors and that of the tree. */
  lemma ScaledQuotient(L: int, W: nat, C: nat, w: nat, q: int)
    requires W > 0 && w > 0 && q == TruncDiv(L * (W + w), W)
    ensures
      var D, X := (W + C + w) * W, L * w * C;
      && (L >= 0 ==> L * D + X - D < q * (W + C) * W <= L * D + X)
      && (L <= 0 ==> L * D + X <= q * (W + C) * W < L * D + X + D)
  {
    var T, P := W + C, L * (W + w);
    ScaledProduct(L, W, C, w);
    SignOfProduct(L, W + w);
    TruncBounds(P, W, q);
    assert q * T * W == q * W * T by { MulAssoc(q, T, W); MulAssoc(q, W, T); }
    assert T * W < (T + w) * W by { MulAdd(T, w, W); MulMonotone(1, w, W); }
    if L >= 0 {
      TimesBounds(q * W, P, q * W + W, T);
      MulAdd(q * W, W, T);
    }
    if L <= 0 {
      TimesBounds(q * W - W, P, q * W, T);
      MulSub(q * W, W, T);
    }
  }

  /** Both truncations, multiplied out: what reading the lag back gives, scaled by D. */
  lemma RoundedTwice(L: int, W: nat, C: nat, w: nat, e: int, q: int, r: int)
    requires W > 0 && w > 0 && 0 <= e < W + C && q == TruncDiv(L * (W + w), W)
    requires IsFloor(r, e + q * (W + C), W + C + w)
    ensures
      var D, X := (W + C + w) * W, L * w * C;
      && (L >= 0 ==> L * D + X - 2 * D < r * D < L * D + X + D)
      && (L <= 0 ==> L * D + X - D < r * D < L * D + X + 2 * D)
  {
    var T, N := W + C, W + C + w;
    ScaledQuotient(L, W, C, w, q);
    SmallRest(e, W, T, w);
    MulAdd(r, 1, N);
    TimesBounds(r * N, e + q * T, r * N + N, W);
    assert (r * N) * W == r * (N * W) by { MulAssoc(r, N, W); }
    MulAdd(r * N, N, W);
    MulAdd(e, q * T, W);
  }

  /** a <= b < c or a < b <= c, times a positive number, both ends kept weakly. */
  lemma TimesBounds(a: int, b: int, c: int, k: int)
    requires a <= b <= c && k > 0
    ensures a * k <= b * k <= c * k
    ensures a < b ==> a * k < b * k
    ensures b < c ==> b * k < c * k
  {
    MulMonotone(a, b, k);
    MulMonotone(b, c, k);
    if a < b { MulMonotone(a + 1, b, k); MulAdd(a, 1, k); }
    if b < c { MulMonotone(b + 1, c, k); MulAdd(b, 1, k); }
  }

  lemma TruncBounds(P: int, W: int, q: int)
    requires W > 0 && q == TruncDiv(P, W)
    ensures P >= 0 ==> q * W <= P < q * W + W
    ensures P <= 0 ==> q * W - W < P <= q * W
  {
    TruncDivBounds(P, W);
    MulAdd(q, 1, W);
    MulSub(q, 1, W);
  }

  /** From the bounds on r * D to r itself. */
  lemma KeptOrNot(L: int, D: int, X: int, r: int)
    requires D > 0
    requires L >= 0 ==> X >= 0 && L * D + X - 2 * D < r * D < L * D + X + D
    requires L <= 0 ==> X <= 0 && L * D + X - D < r * D < L * D + X + 2 * D
    ensures -D <= X <= D ==> Within(r, L, 1)
    ensures X >= 3 * D || X <= -3 * D ==> !Within(r, L, 1)
  {
    MulAdd(L, 1, D);
    MulAdd(L, 2, D);
    MulSub(L, 1, D);
    MulSub(L, 2, D);
    if -D <= X <= D {
      MulCancel(L - 2, r, D);
      MulCancel(r, L + 2, D);
    } else if X >= 3 * D {
      MulCancel(L + 1, r, D);
    } else if X <= -3 * D {
      MulCancel(r, L - 1, D);
    }
  }

  lemma ReadBackWithin(r: int, S: int, N: int, L: int)
    requires N > 0 && IsFloor(r, S, N)
    ensures Within(r, L, 1) <==> (L - 1) * N <= S < (L + 2) * N
  {
    if Within(r, L, 1) {
      MulMonotone(L - 1, r, N);
      MulMonotone(r + 1, L + 2, N);
    } else if r < L - 1 {
      MulMonotone(r + 1, L - 1, N);
    } else {
      MulMonotone(L + 2, r, N);
    }
  }

  lemma UnsaturatedCarried(L: int, W: nat, C: nat, A: int, V: int, w: nat, r: int)
    requires W > 0 && w > 0 && IsFloor(V, A, W + C)
    requires IsFloor(r, A - (V - Scaled(L, W, w)) * (W + C), W + C + w)
    ensures
      var D, X := (W + C + w) * W, L * w * C;
      && (L >= 0 ==> (L - 2) * D + X < r * D < (L + 1) * D + X)
      && (L <= 0 ==> (L - 1) * D + X < r * D < (L + 2) * D + X)
      && (-D <= X <= D ==> Within(r, L, 1))
      && (X >= 3 * D || X <= -3 * D ==> !Within(r, L, 1))
  {
    var T, q := W + C, Scaled(L, W, w);
    var D, X := (W + C + w) * W, L * w * C;
    var e := A - V * T;
    MulSub(V, q, T);
    MulAdd(V, 1, T);
    RoundedTwice(L, W, C, w, e, q, r);
    MulMonotone(1, W, W + C + w);
    assert L * w * C == L * (w * C) by { MulAssoc(L, w, C); }
    MulMonotone(0, w, C);
    SignOfWeighted(L, w * C);
    KeptOrNot(L, D, X, r);
    MulAdd(L, 1, D);
    MulAdd(L, 2, D);
    MulSub(L, 1, D);
    MulSub(L, 2, D);
  }

  lemma SignOfWeighted(x: int, b: nat)
    ensures x >= 0 ==> x * b >= 0
    ensures x <= 0 ==> x * b <= 0
  {
  }

  /** Where the unsigned vruntime stops at zero, the lag falls short of the inflated one. */
  lemma SaturatedCarried(L: int, W: nat, C: nat, A: int, V: int, w: nat, r: int)
    requires W > 0 && w > 0 && IsFloor(V, A, W + C) && 0 <= V < Scaled(L, W, w)
    requires IsFloor(r, A, W + C + w)
    ensures L > 0
    ensures var D, X := (W + C + w) * W, L * w * C; r * D < (L + 1) * D + X
  {
    var T, N, q := W + C, W + C + w, Scaled(L, W, w);
    var D := N * W;
    SignOfProduct(L, W + w);
    TruncBounds(L * (W + w), W, q);
    MulMonotone(1, q, W);
    ScaledProduct(L, W, C, w);
    MulMonotone(V + 1, q, T);
    TimesBounds(r * N, A, A, W);
    TimesBounds(A, q * T, q * T, W);
    assert (r * N) * W == r * D by { MulAssoc(r, N, W); }
    assert q * T * W == q * W * T by { MulAssoc(q, T, W); MulAssoc(q, W, T); }
    MulMonotone(q * W, L * (W + w), T);
    MulAdd(L, 1, D);
    MulMonotone(1, N, W);
  }

  /** What a placement does to a lag, in every case. */
  lemma CarriedLag(L: int, W: nat, C: nat, A: int, V: int, w: nat, r: int)
    requires W + C > 0 && w > 0 && V >= 0 && IsFloor(V, A, W + C)
    requires IsFloor(r, A - PlaceAt(V, Scaled(L, W, w)) * (W + C), W + C + w)
    ensures LagCarried(L, W, C, A, V, w, r)
  {
    var q := Scaled(L, W, w);
    ReadBackWithin(r, A - PlaceAt(V, q) * (W + C), W + C + w, L);
    if W > 0 {
      if q <= V {
        assert PlaceAt(V, q) == V - q;
        UnsaturatedCarried(L, W, C, A, V, w, r);
      } else {
        assert PlaceAt(V, q) == 0;
        SaturatedCarried(L, W, C, A, V, w, r);
      }
    }
  }

  /** The same on a queue: c competes, W of its load in the tree and C running. */
  lemma CarriedOnQueue(c: seq<Ent>, W: nat, C: nat, v0: int, w: nat, L: int)
    requires w > 0 && LoadSum(c) == W + C > 0
    requires AvgVruntime(v0, KeySum(c, v0), LoadSum(c)) >= 0
    ensures
      var V := AvgVruntime(v0, KeySum(c, v0), LoadSum(c));
      LagCarried(L, W, C, KeySum(c, 0), V, w, RecomputedLag(c, v0, PlaceAt(V, Scaled(L, W, w)), w))
  {
    AverageOfAbsoluteSum(c, v0);
    var V := AvgVruntime(v0, KeySum(c, v0), LoadSum(c));
    var v := PlaceAt(V, Scaled(L, W, w));
    RecomputedLagIsFloor(c, v0, v, w);
    CarriedLag(L, W, C, KeySum(c, 0), V, w, RecomputedLag(c, v0, v, w));
  }

  /**
   t is the tree, curr the running entity, both competing.  While |L| * w * C stays within D
   the lag survives placement to within one, from three times D on it never does.
   */
  lemma PlacementBesideCurrent(t: seq<Ent>, curr: Ent, v0: int, w: nat, vlag: int, limit: nat)
    requires w > 0 && LoadSum(t) + curr.w > 0
    requires AvgVruntime(v0, KeySum(t + [curr], v0), LoadSum(t + [curr])) >= 0
    ensures
      var V := AvgVruntime(v0, KeySum(t + [curr], v0), LoadSum(t + [curr]));
      var v := PlaceAt(V, PreservedLag(vlag, limit, LoadSum(t), w));
      LagCarried(Clamp(vlag, limit), LoadSum(t), curr.w, KeySum(t + [curr], 0), V, w,
                 RecomputedLag(t + [curr], v0, v, w))
  {
    SumsOfConcat(t, [curr], v0);
    assert [curr][1..] == [];
    CarriedOnQueue(t + [curr], LoadSum(t), curr.w, v0, w, Clamp(vlag, limit));
  }

  /** With nobody running, what is carried is decided as in PlacementKeepsLag. */
  lemma CarriedWithoutCurrent(L: int, W: nat, A: int, V: int, w: nat, r: int)
    requires W > 0 && w > 0 && V >= 0 && IsFloor(V, A, W) && LagCarried(L, W, 0, A, V, w, r)
    ensures Within(r, L, 1) <==> (L - 1) * (W + w) <= A
  {
    var q := Scaled(L, W, w);
    assert L * w * 0 == 0;
    MulMonotone(1, W, W + w);
    if q <= V {
      PayableWhenUnsaturated(A, W, w, V, L, q);
    } else {
      TruncBounds(L * (W + w), W, q);
      SignOfProduct(L, W + w);
      MulMonotone(V + 1, q, W);
      MulAdd(L, 2, W + w);
    }
  }

  /**
   With nobody in the tree the lag is not scaled at all and shrinks by w / (C + w) of itself: it
   survives to within one while |L| * w stays within C + w, and never from twice that on.
   */
  lemma PlacementBesideOnlyCurrent(L: int, C: nat, A: int, V: int, w: nat, r: int)
    requires C > 0 && w > 0 && IsFloor(V, A, C) && L <= V
    requires IsFloor(r, A - PlaceAt(V, Scaled(L, 0, w)) * C, C + w)
    ensures
      var N := C + w;
      && (L - 1) * N - L * w < r * N < L * N - L * w + C
      && (-N <= L * w <= N ==> Within(r, L, 1))
      && (L * w >= 2 * N || L * w <= -2 * N ==> !Within(r, L, 1))
  {
    var N := C + w;
    assert PlaceAt(V, L) == V - L;
    MulSub(V, L, C);
    MulAdd(V, 1, C);
    MulAdd(r, 1, N);
    MulAdd(C, w, L);
    MulSub(L, 1, N);
    MulAdd(L, 1, N);
    MulAdd(L, 2, N);
    MulSub(L, 2, N);
    SignOfProduct(L, w);
    if -N <= L * w <= N {
      if L >= 0 {
        MulCancel(L - 2, r, N);
        MulCancel(r, L + 1, N);
      } else {
        MulCancel(L - 1, r, N);
        MulCancel(r, L + 2, N);
      }
    } else if L * w >= 2 * N {
      MulCancel(r, L - 1, N);
    } else if L * w <= -2 * N {
      MulCancel(L + 1, r, N);
    }
  }
}
