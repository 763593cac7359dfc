/**
 One scheduling entity under EEVDF: the state its run queue reads and the rules that change
 it without looking at any other entity.
 */
module EevdfEntity {
  import opened CArith
  import opened EevdfMath
  import opened EevdfRunning

  /** The kernel helpers and knobs the scheduler reads; calcDelta is calc_delta_fair(delta, weight). */
  datatype Env = Env(
    scaleLoadDown: nat -> nat,
    calcDelta: (nat, nat) -> nat,
    minGranularity: nat,
    tickNsec: nat,
    runToParity: bool)
  {
    predicate Sane() { minGranularity > 0 }
  }

  /** The fields of struct sched_entity; tag is the KABI slot named min_vruntime. */
  datatype Se = Se(vruntime: int, weight: nat, deadline: int, tag: nat, vlag: int, slice: nat)

  const REL_DEADLINE_BIT: nat := 0x8000_0000_0000_0000

  predicate HasRelDeadline(s: Se) { (s.tag / REL_DEADLINE_BIT) % 2 == 1 }

  function GetRelDeadline(s: Se): nat { s.tag % REL_DEADLINE_BIT }

  function SetRelDeadline(s: Se, rel: nat): (r: Se)
    ensures HasRelDeadline(r)
    ensures rel < REL_DEADLINE_BIT ==> GetRelDeadline(r) == rel
  {
    s.(tag := REL_DEADLINE_BIT + rel % REL_DEADLINE_BIT)
  }

  function StoreRelDeadline(s: Se): Se {
    SetRelDeadline(s, if s.deadline != 0 && s.deadline - s.vruntime > 0 then s.deadline - s.vruntime else 0)
  }

  function ScaleRelDeadline(s: Se, oldWeight: nat, newWeight: nat): Se
    requires newWeight > 0
  {
    if !HasRelDeadline(s) then s
    else
      var d := GetRelDeadline(s);
      SetRelDeadline(s, if d > 0 then (d * oldWeight) / newWeight else d)
  }

  function Slice(s: Se, env: Env): nat {
    if s.slice != 0 then s.slice else env.minGranularity
  }

  function VSlice(s: Se, env: Env): (r: nat)
    ensures r >= 1
  {
    Max(env.calcDelta(Slice(s, env), s.weight), 1)
  }

  function LagLimit(s: Se, env: Env): (r: nat)
    ensures r >= 1
  {
    Max(env.calcDelta(Max(2 * Slice(s, env), env.tickNsec), s.weight), 1)
  }

  /** abk_eevdf_update_lag() */
  function UpdateLag(s: Se, avg: int, env: Env): Se {
    s.(vlag := Clamp(avg - s.vruntime, LagLimit(s, env)))
  }

  function ClaimSlice(s: Se, env: Env): Se {
    if s.slice == 0 then s.(slice := env.minGranularity) else s
  }

  /** A pending relative deadline becomes an absolute one again. */
  function TakeRelDeadline(s: Se): Se {
    if HasRelDeadline(s) then s.(deadline := s.vruntime + GetRelDeadline(s), tag := 0) else s
  }

  predicate RequestConsumed(s: Se) { TakeRelDeadline(s).vruntime >= TakeRelDeadline(s).deadline }

  /** abk_eevdf_refresh_deadline() */
  function RefreshDeadline(s: Se, env: Env): Se {
    var t := TakeRelDeadline(s);
    if t.vruntime < t.deadline then t
    else
      var u := ClaimSlice(t, env);
      u.(deadline := u.vruntime + VSlice(u, env))
  }

  /** update_curr() on the entity: charge the time run, renew the request if it is used up. */
  function Charge(s: Se, deltaExec: nat, env: Env): Se {
    RefreshDeadline(s.(vruntime := s.vruntime + env.calcDelta(deltaExec, s.weight)), env)
  }

  /** yield_task_fair(): jump to the end of the request and open the next one. */
  function ForfeitRequest(s: Se, env: Env): Se {
    s.(vruntime := s.deadline, deadline := s.deadline + VSlice(s, env))
  }

  /** What dequeue_entity() remembers: the lag and, unless the entity sleeps, its open request. */
  function Snapshot(s: Se, avg: int, env: Env, sleep: bool): Se {
    var u := UpdateLag(s, avg, env);
    if sleep then u else StoreRelDeadline(u)
  }

  lemma SnapshotWithin(s: Se, avg: int, env: Env, sleep: bool)
    ensures
      var r := Snapshot(s, avg, env, sleep);
      && Within(r.vlag, 0, LagLimit(r, env))
      && r == (if sleep then s else StoreRelDeadline(s)).(vlag := r.vlag)
      && (!sleep ==> HasRelDeadline(r))
  {
  }

  /** abk_eevdf_place_entity(), after the CFS half left the entity at s.vruntime. */
  function Place(s: Se, env: Env, avg: int, load: nat, initial: bool): Se {
    var rel := HasRelDeadline(s);
    var t := ClaimSlice(s, env);
    var vslice := VSlice(t, env);
    var u :=
      if !initial && (t.vlag != 0 || rel) then
        var lag := PreservedLag(t.vlag, LagLimit(t, env), load, env.scaleLoadDown(t.weight));
        t.(vruntime := PlaceAt(avg, lag))
      else if initial then t.(vruntime := avg)
      else t;
    if rel then
      var d := GetRelDeadline(u);
      u.(tag := 0, deadline := u.vruntime + (if d == 0 then vslice else d), vlag := 0)
    else
      var vs := if initial then Max(vslice / 2, 1) else vslice;
      u.(deadline := u.vruntime + vs, vlag := 0)
  }

  /** What reweight_entity() does to lag and pending deadline when the weight changes. */
  function ScaleForWeight(s: Se, weight: nat): Se {
    var o, n := Max(s.weight, 1), Max(weight, 1);
    ScaleRelDeadline(s.(vlag := TruncDiv(s.vlag * o, n)), o, n).(weight := weight)
  }

  /** What one request is worth to the entity: its own slice or the default, never nothing. */
  lemma RequestLength(s: Se, env: Env)
    ensures
      var slice := if s.slice == 0 then env.minGranularity else s.slice;
      var d := env.calcDelta(slice, s.weight);
      VSlice(s, env) == VSlice(ClaimSlice(s, env), env) == if d >= 1 then d else 1
  {
  }

  /**
   A refreshed entity always has a request outstanding: its deadline lies ahead of it.  A pending
   relative deadline counts from where the entity is; a deadline that is reached is replaced by
   one a request ahead, any other is kept.
   */
  lemma RefreshLeavesRequest(s: Se, env: Env)
    ensures
      var r := RefreshDeadline(s, env);
      var slice := if s.slice == 0 then env.minGranularity else s.slice;
      var request := Max(env.calcDelta(slice, s.weight), 1);
      var due := if HasRelDeadline(s) then s.vruntime + GetRelDeadline(s) else s.deadline;
      && r.vruntime == s.vruntime && r.vruntime < r.deadline && !HasRelDeadline(r)
      && r.deadline == (if due <= s.vruntime then s.vruntime + request else due)
      && r.weight == s.weight && r.vlag == s.vlag && r.slice == (if due <= s.vruntime then slice else s.slice)
      && (RequestConsumed(s) <==> due <= s.vruntime)
  {
  }

  /** Running costs virtual time in proportion; the request is renewed where it is used up. */
  lemma ChargeAdvances(s: Se, deltaExec: nat, env: Env)
    ensures
      var r, v := Charge(s, deltaExec, env), s.vruntime + env.calcDelta(deltaExec, s.weight);
      && r.vruntime == v && v < r.deadline
      && (!HasRelDeadline(s) && v < s.deadline ==> r.deadline == s.deadline)
      && (!HasRelDeadline(s) && s.deadline <= v ==>
            r.deadline == v + Max(env.calcDelta(if s.slice == 0 then env.minGranularity else s.slice, s.weight), 1))
  {
    RefreshLeavesRequest(s.(vruntime := s.vruntime + env.calcDelta(deltaExec, s.weight)), env);
  }

  /** Yielding jumps to the deadline and asks for one more request from there. */
  lemma ForfeitedRequest(s: Se, env: Env)
    ensures
      var r := ForfeitRequest(s, env);
      && r.vruntime == s.deadline && r.vruntime < r.deadline
      && r.deadline - r.vruntime
           == Max(env.calcDelta(if s.slice == 0 then env.minGranularity else s.slice, s.weight), 1)
  {
  }

  /** A new entity starts at the average, without lag, and with half a request unless one is pending. */
  lemma PlacedInitially(s: Se, env: Env, avg: int, load: nat)
    ensures
      var r := Place(s, env, avg, load, true);
      var request := Max(env.calcDelta(if s.slice == 0 then env.minGranularity else s.slice, s.weight), 1);
      && r.vruntime == avg && r.vlag == 0 && !HasRelDeadline(r)
      && r.deadline == avg +
           if !HasRelDeadline(s) then (if request >= 2 then request / 2 else 1)
           else if GetRelDeadline(s) > 0 then GetRelDeadline(s) else request
  {
  }

  /**
   lag is the service owed to an entity in state s among the competitors c: what the floored mean
   of their vruntimes is ahead of its own, cut to two requests or a tick, whichever is longer.
   */
  ghost predicate IsLagAmong(lag: int, s: Se, env: Env, c: seq<Ent>) {
    var slice := if s.slice == 0 then env.minGranularity else s.slice;
    var limit := Max(env.calcDelta(if 2 * slice >= env.tickNsec then 2 * slice else env.tickNsec, s.weight), 1);
    LoadSum(c) > 0 ==>
      && (lag >= 0 <==> LoadSum(c) * s.vruntime <= KeySum(c, 0))
      && (forall mean :: IsFloor(mean, KeySum(c, 0), LoadSum(c)) ==>
            lag == if mean - s.vruntime > limit then limit
                   else if mean - s.vruntime < -limit then -limit
                   else mean - s.vruntime)
  }

  /** What is stored when an entity leaves the competitors c is its lag among them. */
  lemma LagIsTaken(s: Se, env: Env, c: seq<Ent>, v0: int)
    ensures IsLagAmong(UpdateLag(s, AvgVruntime(v0, KeySum(c, v0), LoadSum(c)), env).vlag, s, env, c)
  {
    var A, W := KeySum(c, 0), LoadSum(c);
    if W > 0 {
      var avg := AvgVruntime(v0, KeySum(c, v0), W);
      AverageOfAbsoluteSum(c, v0);
      forall mean | IsFloor(mean, A, W) ensures mean == avg {
        FloorUnique(mean, avg, A, W);
      }
      FloorAgainst(avg, s.vruntime, A, W);
    }
  }

  /** The floor of a mean is not below an integer exactly when the mean is not. */
  lemma FloorAgainst(q: int, v: int, a: int, b: int)
    requires b > 0 && IsFloor(q, a, b)
    ensures v <= q <==> b * v <= a
  {
    if v <= q {
      MulMonotone(v, q, b);
    } else {
      MulMonotone(q + 1, v, b);
    }
  }

  /** How much virtual time was left of the request when the entity was taken off. */
  function Remaining(s: Se): nat {
    if s.deadline != 0 && s.deadline - s.vruntime > 0 then s.deadline - s.vruntime else 0
  }

  /**
   An entity that is placed because it carries lag or a pending deadline gets its pending
   deadline back, and the lag it then has among the entities t is the (clamped) stored one
   to within one, exactly when t's weighted vruntime sum can pay for it.
   */
  lemma PlacedByLag(s: Se, env: Env, t: seq<Ent>, v0: int)
    requires env.scaleLoadDown(s.weight) > 0 && LoadSum(t) > 0
    requires s.vlag != 0 || HasRelDeadline(s)
    requires AvgVruntime(v0, KeySum(t, v0), LoadSum(t)) >= 0
    ensures
      var on := Place(s, env, AvgVruntime(v0, KeySum(t, v0), LoadSum(t)), LoadSum(t), false);
      var w, L := env.scaleLoadDown(s.weight), Clamp(s.vlag, LagLimit(s, env));
      && on.vlag == 0 && (HasRelDeadline(s) ==> !HasRelDeadline(on))
      && on.deadline - on.vruntime
           == (if HasRelDeadline(s) && GetRelDeadline(s) > 0 then GetRelDeadline(s)
               else Max(env.calcDelta(if s.slice == 0 then env.minGranularity else s.slice, s.weight), 1))
      && (Within(RecomputedLag(t, v0, on.vruntime, w), L, 1) <==>
          (L - 1) * (LoadSum(t) + w) <= KeySum(t, 0))
  {
    var u := ClaimSlice(s, env);
    assert LagLimit(u, env) == LagLimit(s, env);
    PlacementKeepsLag(t, v0, env.scaleLoadDown(s.weight), s.vlag, LagLimit(u, env));
  }

  /** The lag a placement starts from. */
  function StoredLag(s: Se, env: Env): int { Clamp(s.vlag, LagLimit(s, env)) }

  /** Lag or a pending deadline, and a weight the sums can see. */
  predicate CarriesLag(s: Se, env: Env) {
    (s.vlag != 0 || HasRelDeadline(s)) && env.scaleLoadDown(s.weight) > 0
  }

  lemma PlacedWhere(s: Se, env: Env, avg: int, load: nat)
    requires CarriesLag(s, env)
    ensures Place(s, env, avg, load, false).vruntime
              == PlaceAt(avg, Scaled(StoredLag(s, env), load, env.scaleLoadDown(s.weight)))
  {
    assert LagLimit(ClaimSlice(s, env), env) == LagLimit(s, env);
  }

  /**
   r is the lag read back from an entity that was placed with state s when the tree weighed W,
   the running entity C, and A was their weighted vruntime sum with mean V: as LagCarried says in
   general, and within one of the stored lag when nobody runs and the tree can pay for it.
   */
  ghost predicate LagKept(s: Se, env: Env, W: nat, C: nat, A: int, V: int, r: int) {
    CarriesLag(s, env) && W + C > 0 && V >= 0 ==>
      var L, w := StoredLag(s, env), env.scaleLoadDown(s.weight);
      LagCarried(L, W, C, A, V, w, r) && (C == 0 ==> (Within(r, L, 1) <==> (L - 1) * (W + w) <= A))
  }

  lemma PlacedKeepsLag(s: Se, env: Env, c: seq<Ent>, W: nat, C: nat, v0: int)
    requires CarriesLag(s, env) && LoadSum(c) == W + C
    ensures
      var V := AvgVruntime(v0, KeySum(c, v0), LoadSum(c));
      LagKept(s, env, W, C, KeySum(c, 0), V,
              RecomputedLag(c, v0, Place(s, env, V, W, false).vruntime, env.scaleLoadDown(s.weight)))
  {
    var V := AvgVruntime(v0, KeySum(c, v0), LoadSum(c));
    var L, w := StoredLag(s, env), env.scaleLoadDown(s.weight);
    if W + C > 0 && V >= 0 {
      PlacedWhere(s, env, V, W);
      CarriedOnQueue(c, W, C, v0, w, L);
      if C == 0 {
        AverageOfAbsoluteSum(c, v0);
        CarriedWithoutCurrent(L, W, KeySum(c, 0), V, w, RecomputedLag(c, v0, PlaceAt(V, Scaled(L, W, w)), w));
      }
    }
  }

  /** The exception: no lag and no pending deadline leaves the entity where CFS put it. */
  lemma UnplacedKeepsVruntime(s: Se, env: Env, avg: int, load: nat)
    requires s.vlag == 0 && !HasRelDeadline(s)
    ensures
      var r := Place(s, env, avg, load, false);
      && r.vruntime == s.vruntime && r.vlag == 0
      && r.deadline - r.vruntime
           == Max(env.calcDelta(if s.slice == 0 then env.minGranularity else s.slice, s.weight), 1)
  {
  }

  /**
   Off one queue and onto another (or the same one) without sleeping: the entity keeps the
   remaining request exactly, and its lag as in PlacedByLag.
   */
  lemma MigrationKeepsLagAndDeadline(s: Se, env: Env, avg: int, t: seq<Ent>, v0: int)
    requires env.scaleLoadDown(s.weight) > 0 && LoadSum(t) > 0
    requires Remaining(s) < REL_DEADLINE_BIT
    requires AvgVruntime(v0, KeySum(t, v0), LoadSum(t)) >= 0
    ensures
      var off := StoreRelDeadline(UpdateLag(s, avg, env));
      var on := Place(off, env, AvgVruntime(v0, KeySum(t, v0), LoadSum(t)), LoadSum(t), false);
      var w := env.scaleLoadDown(s.weight);
      && on.deadline - on.vruntime
           == (if s.deadline != 0 && s.deadline > s.vruntime then s.deadline - s.vruntime
               else Max(env.calcDelta(if s.slice == 0 then env.minGranularity else s.slice, s.weight), 1))
      && (Within(RecomputedLag(t, v0, on.vruntime, w), off.vlag, 1) <==>
          (off.vlag - 1) * (LoadSum(t) + w) <= KeySum(t, 0))
  {
    PlacedByLag(StoreRelDeadline(UpdateLag(s, avg, env)), env, t, v0);
  }

  /**
   A weight change conserves weight * lag and weight * pending deadline: each quotient is
   the exact one rounded, the lag towards zero and the deadline down.
   */
  lemma ReweightConservesService(s: Se, weight: nat)
    requires weight > 0 && s.weight > 0 && HasRelDeadline(s)
    requires GetRelDeadline(s) * s.weight / weight < REL_DEADLINE_BIT
    ensures
      var r := ScaleForWeight(s, weight);
      && r.weight == weight && HasRelDeadline(r)
      && r.vlag == TruncDiv(s.vlag * s.weight, weight)
      && Within(r.vlag * weight, s.vlag * s.weight, weight - 1)
      && IsFloor(GetRelDeadline(r), GetRelDeadline(s) * s.weight, weight)
  {
    TruncDivBounds(s.vlag * s.weight, weight);
    var r := ScaleForWeight(s, weight);
    MulAdd(r.vlag, 1, weight);
    MulSub(r.vlag, 1, weight);
    FloorOfQuotient(GetRelDeadline(s) * s.weight, weight);
  }

  lemma FloorOfQuotient(a: nat, b: nat)
    requires b > 0
    ensures a / b >= 0 && IsFloor(a / b, a, b)
  {
  }
}
