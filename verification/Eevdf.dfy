/**
 The EEVDF run queue.  cfs_rq keeps \Sum (v_i - min_vruntime) * w_i and \Sum w_i over the
 entities in its tree; every operation below keeps both sums exact, whatever it does to
 vruntimes, weights and the origin, and min_vruntime never moves back.
 */
module Eevdf {
  import opened CArith
  import opened EevdfMath
  import opened EevdfEntity

  class SchedEntity {
    var vruntime: int
    var weight: nat
    var deadline: int
    var tag: nat
    var vlag: int
    var slice: nat
    var onRq: bool

    constructor (s: Se)
      ensures Value() == s && !onRq
    {
      vruntime, weight, deadline, tag, vlag, slice, onRq :=
        s.vruntime, s.weight, s.deadline, s.tag, s.vlag, s.slice, false;
    }

    function Value(): Se
      reads this
    {
      Se(vruntime, weight, deadline, tag, vlag, slice)
    }

    /** What the sums see of the entity. */
    function Load(env: Env): Ent
      reads this`vruntime, this`weight
    {
      Ent(vruntime, env.scaleLoadDown(weight))
    }

    /** abk_eevdf_place_entity() against a queue whose average is avg and whose tree weighs load. */
    method PlaceAgainst(env: Env, avg: int, load: nat, initial: bool)
      modifies this
      ensures Value() == Place(old(Value()), env, avg, load, initial) && onRq == old(onRq)
    {
      var rel := HasRelDeadline(Value());
      if slice == 0 {
        slice := env.minGranularity;
      }
      var vslice := VSlice(Value(), env);
      if !initial && (vlag != 0 || rel) {
        var lag := PreservedLag(vlag, LagLimit(Value(), env), load, env.scaleLoadDown(weight));
        vruntime := PlaceAt(avg, lag);
      } else if initial {
        vruntime := avg;
      }
      if rel {
        var d := GetRelDeadline(Value());
        tag := 0;
        deadline := vruntime + if d == 0 then vslice else d;
      } else {
        if initial {
          vslice := Max(vslice / 2, 1);
        }
        deadline := vruntime + vslice;
      }
      vlag := 0;
    }

    /** The lag and deadline half of reweight_entity(). */
    method Rescale(newWeight: nat)
      modifies this
      ensures Value() == ScaleForWeight(old(Value()), newWeight) && onRq == old(onRq)
    {
      var o, n := Max(weight, 1), Max(newWeight, 1);
      vlag := TruncDiv(vlag * o, n);
      if HasRelDeadline(Value()) {
        var d := GetRelDeadline(Value());
        if d > 0 {
          d := (d * o) / n;
        }
        tag := REL_DEADLINE_BIT + d % REL_DEADLINE_BIT;
      }
      weight := newWeight;
    }
  }

  ghost function Views(es: seq<SchedEntity>, env: Env): (r: seq<Ent>)
    reads es`vruntime, es`weight
    ensures |r| == |es|
  {
    if es == [] then [] else [es[0].Load(env)] + Views(es[1..], env)
  }

  lemma {:induction false} ViewsOfConcat(a: seq<SchedEntity>, b: seq<SchedEntity>, env: Env)
    ensures Views(a + b, env) == Views(a, env) + Views(b, env)
  {
    if a == [] {
      assert a + b == b;
    } else {
      assert (a + b)[1..] == a[1..] + b;
      ViewsOfConcat(a[1..], b, env);
    }
  }

  lemma {:induction false} ViewsAt(es: seq<SchedEntity>, i: nat, env: Env)
    requires i < |es|
    ensures Views(es, env)[i] == es[i].Load(env)
  {
    if i > 0 {
      ViewsAt(es[1..], i - 1, env);
    }
  }

  ghost predicate InOrder(es: seq<SchedEntity>)
    reads es`vruntime
  {
    && (forall i, j :: 0 <= i < j < |es| ==> es[i] != es[j])
    && (forall i, j :: 0 <= i < j < |es| ==> es[i].vruntime <= es[j].vruntime)
  }

  /** rb_add_cached() at a given place */
  function Insert<T>(s: seq<T>, k: nat, x: T): seq<T>
    requires k <= |s|
  {
    s[..k] + [x] + s[k..]
  }

  lemma InsertInOrder(es: seq<SchedEntity>, k: nat, se: SchedEntity)
    requires k <= |es| && InOrder(es) && se !in es
    requires forall i :: 0 <= i < k ==> es[i].vruntime <= se.vruntime
    requires k < |es| ==> se.vruntime <= es[k].vruntime
    ensures InOrder(Insert(es, k, se))
  {
    forall i | k <= i < |es| ensures se.vruntime <= es[i].vruntime {
      assert es[k].vruntime <= es[i].vruntime;
    }
  }

  lemma ElementsOfInsert(es: seq<SchedEntity>, k: nat, se: SchedEntity)
    requires k <= |es|
    ensures
      var more := Insert(es, k, se);
      forall e :: e in more <==> e in es || e == se
  {
    assert es == es[..k] + es[k..];
  }

  /** rb_erase_cached() */
  function Erase<T>(s: seq<T>, k: nat): seq<T>
    requires k < |s|
  {
    s[..k] + s[k+1..]
  }

  lemma ErasedFacts(es: seq<SchedEntity>, k: nat)
    requires k < |es| && InOrder(es)
    ensures
      var less := Erase(es, k);
      InOrder(less) && es[k] !in less && (forall e :: e in es <==> e in less || e == es[k])
  {
    ElementsOfErase(es, k);
  }

  lemma ElementsOfErase(es: seq<SchedEntity>, k: nat)
    requires k < |es|
    ensures forall e :: e in es <==> e in Erase(es, k) || e == es[k]
  {
    var less := Erase(es, k);
    assert es == Insert(less, k, es[k]);
    ElementsOfInsert(less, k, es[k]);
  }

  /** The sums over the entities es after one more joined them, wherever. */
  lemma SumsWithEntity(es: seq<SchedEntity>, k: nat, se: SchedEntity, env: Env, v0: int)
    requires k <= |es|
    ensures
      var w, more := env.scaleLoadDown(se.weight), Insert(es, k, se);
      && KeySum(Views(more, env), v0) == KeySum(Views(es, env), v0) + (se.vruntime - v0) * w
      && LoadSum(Views(more, env)) == LoadSum(Views(es, env)) + w
  {
    var e := se.Load(env);
    assert es == es[..k] + es[k..];
    ViewsOfConcat(es[..k], es[k..], env);
    ViewsOfConcat(es[..k] + [se], es[k..], env);
    ViewsOfConcat(es[..k], [se], env);
    assert Views([se], env) == [e];
    var t := Views(es, env);
    assert t[..k] == Views(es[..k], env) && t[k..] == Views(es[k..], env);
    SumsOfInsert(t, k, e, v0);
  }

  /** The sums over the entities es after the k-th left them. */
  lemma SumsAfterErase(es: seq<SchedEntity>, k: nat, env: Env, v0: int)
    requires k < |es|
    ensures
      var w, less := env.scaleLoadDown(es[k].weight), Erase(es, k);
      && KeySum(Views(less, env), v0) == KeySum(Views(es, env), v0) - (es[k].vruntime - v0) * w
      && LoadSum(Views(less, env)) == LoadSum(Views(es, env)) - w
  {
    var less := Erase(es, k);
    assert es == Insert(less, k, es[k]);
    SumsWithEntity(less, k, es[k], env, v0);
  }

  /** abk_eevdf_entity_before(): earlier deadline, then earlier vruntime; nobody loses to null. */
  predicate Before(a: SchedEntity?, b: SchedEntity?)
    reads a, b
  {
    if a == null then false
    else if b == null then true
    else if a.deadline == b.deadline then a.vruntime - b.vruntime < 0
    else a.deadline - b.deadline < 0
  }

  class CfsRq {
    const env: Env
    /** The rb-tree's entities in order. */
    var tree: seq<SchedEntity>
    var curr: SchedEntity?
    var next: SchedEntity?
    var skip: SchedEntity?
    var minVruntime: int
    var avgVruntime: int
    var avgLoad: int
    var pickDeadline: int
    var nrRunning: nat

    constructor (env: Env)
      requires env.Sane()
      ensures Valid() && tree == [] && curr == null && this.env == env
    {
      this.env := env;
      tree, curr, next, skip := [], null, null, null;
      minVruntime, avgVruntime, avgLoad, pickDeadline, nrRunning := 0, 0, 0, 0, 0;
    }

    ghost function Ents(): (r: seq<Ent>)
      reads this`tree, tree`vruntime, tree`weight
      ensures |r| == |tree|
    {
      Views(tree, env)
    }

    /** The tree and, while it is queued, the running entity: everybody who competes. */
    ghost function Competing(): seq<Ent>
      reads this`tree, this`curr, tree`vruntime, tree`weight, curr
    {
      Ents() + if curr != null && curr.onRq then [curr.Load(env)] else []
    }

    ghost predicate Ordered()
      reads this`tree, tree`vruntime
    {
      InOrder(tree)
    }

    /** The two accumulators are the sums they stand for. */
    ghost predicate Exact()
      reads this, tree`vruntime, tree`weight
    {
      && avgVruntime == KeySum(Ents(), minVruntime)
      && avgLoad == LoadSum(Ents())
    }

    ghost predicate Valid()
      reads this, tree`vruntime, tree`weight, tree`onRq
    {
      && env.Sane()
      && Ordered()
      && Exact()
      && (forall e :: e in tree ==> e.onRq)
      && (curr != null ==> curr !in tree)
    }

    /** What the running entity adds to the load while it is queued. */
    function RunningLoad(): nat
      reads this`curr, curr
    {
      if curr != null && curr.onRq then env.scaleLoadDown(curr.weight) else 0
    }

    /** And to the sum as seen from v0. */
    function RunningTerm(v0: int): int
      reads this`curr, curr
    {
      if curr != null && curr.onRq then (curr.vruntime - v0) * env.scaleLoadDown(curr.weight) else 0
    }

    /** The average for a tree with the given sums, plus the running entity while it is queued. */
    function AvgOf(sum: int, load: int): int
      requires load >= 0
      reads this`minVruntime, this`curr, curr
    {
      AvgVruntime(minVruntime, sum + RunningTerm(minVruntime), load + RunningLoad())
    }

    /** avg_vruntime(): reads the accumulators, never the tree. */
    function Avg(): int
      requires avgLoad >= 0
      reads this, curr
    {
      AvgOf(avgVruntime, avgLoad)
    }

    lemma SumsOfCompeting(v0: int)
      ensures LoadSum(Competing()) == LoadSum(Ents()) + RunningLoad()
      ensures KeySum(Competing(), v0) == KeySum(Ents(), v0) + RunningTerm(v0)
    {
      if curr != null && curr.onRq {
        var c := [curr.Load(env)];
        SumsOfConcat(Ents(), c, v0);
        assert c[1..] == [];
      } else {
        assert Competing() == Ents();
      }
    }

    /** The O(1) form is the floored weighted mean over everybody who competes. */
    lemma AvgIsMeanOfCompeting()
      requires Valid()
      ensures avgLoad >= 0
      ensures Avg() == AvgVruntime(minVruntime, KeySum(Competing(), minVruntime), LoadSum(Competing()))
      ensures LoadSum(Competing()) == 0 ==> Avg() == minVruntime
    {
      SumsOfCompeting(minVruntime);
    }

    /** The weighted vruntime sum of a tree with the given sums and of the running entity. */
    function SumFromZero(sum: int, load: int): int
      reads this`minVruntime, this`curr, curr
    {
      sum + RunningTerm(minVruntime) + (load + RunningLoad()) * minVruntime
    }

    lemma SumOfCompetingFromZero()
      requires Valid()
      ensures LoadSum(Competing()) == avgLoad + RunningLoad()
      ensures KeySum(Competing(), 0) == SumFromZero(avgVruntime, avgLoad)
    {
      SumsOfCompeting(minVruntime);
      KeySumRebase(Competing(), 0, minVruntime);
    }

    /** The average once an entity at v has been added to the sums is the one its lag is read from. */
    lemma AverageWith(v: int, w: nat)
      requires Exact() && w > 0
      ensures AvgOf(avgVruntime + (v - minVruntime) * w, avgLoad + w) - v == RecomputedLag(Competing(), minVruntime, v, w)
    {
      SumsOfCompeting(minVruntime);
      LagFromAverage(Competing(), minVruntime, v, w, avgVruntime + (v - minVruntime) * w + RunningTerm(minVruntime),
                     avgLoad + w + RunningLoad());
    }

    /** The lag that an entity placed with state s will be read back with. */
    ghost function PlacedLag(s: Se): int
      requires avgLoad >= 0
      reads this, curr
    {
      var v, w := Place(s, env, Avg(), avgLoad, false).vruntime, env.scaleLoadDown(s.weight);
      AvgOf(avgVruntime + (v - minVruntime) * w, avgLoad + w) - v
    }

    /** r is the lag of an entity placed with state s when the tree had these sums, as LagKept says. */
    ghost predicate ReadsLag(s: Se, sum: int, load: nat, r: int)
      reads this`minVruntime, this`curr, curr
    {
      LagKept(s, env, load, RunningLoad(), SumFromZero(sum, load), AvgOf(sum, load), r)
    }

    lemma PlacedLagIs(s: Se)
      requires Valid() && env.scaleLoadDown(s.weight) > 0
      ensures avgLoad >= 0
      ensures
        var on := Place(s, env, Avg(), avgLoad, false);
        PlacedLag(s) == RecomputedLag(Competing(), minVruntime, on.vruntime, env.scaleLoadDown(s.weight))
    {
      AvgIsMeanOfCompeting();
      AverageWith(Place(s, env, Avg(), avgLoad, false).vruntime, env.scaleLoadDown(s.weight));
    }

    lemma PlacedLagIsKept(s: Se)
      requires Valid()
      ensures avgLoad >= 0 && ReadsLag(s, avgVruntime, avgLoad, PlacedLag(s))
    {
      AvgIsMeanOfCompeting();
      SumOfCompetingFromZero();
      if CarriesLag(s, env) {
        PlacedKeepsLag(s, env, Competing(), avgLoad, RunningLoad(), minVruntime);
        PlacedLagIs(s);
      }
    }

    lemma AvgIsFloorOfMean()
      requires Valid() && LoadSum(Competing()) > 0
      ensures avgLoad >= 0
      ensures IsFloor(Avg() - minVruntime, KeySum(Competing(), minVruntime), LoadSum(Competing()))
    {
      AvgIsMeanOfCompeting();
      AvgVruntimeIsFloor(minVruntime, KeySum(Competing(), minVruntime), LoadSum(Competing()));
    }

    /** Eligible means owed service, exactly: the rounding of the average does not matter. */
    lemma EligibleMeansOwed(v: int)
      requires Valid() && LoadSum(Competing()) > 0
      ensures avgLoad >= 0 && (Eligible(v, Avg()) <==> LoadSum(Competing()) * v <= KeySum(Competing(), 0))
    {
      AvgIsMeanOfCompeting();
      var W, S := LoadSum(Competing()), KeySum(Competing(), minVruntime);
      EligibleIffLagNonNegative(v, minVruntime, S, W);
      KeySumRebase(Competing(), 0, minVruntime);
      MulSub(v, minVruntime, W);
    }

    /** abk_entity_key() times the weight: the entity's term of the sum. */
    function Term(se: SchedEntity): int
      reads this`minVruntime, se`vruntime, se`weight
    {
      (se.vruntime - minVruntime) * env.scaleLoadDown(se.weight)
    }

    /** abk_avg_vruntime_add() */
    method AvgVruntimeAdd(se: SchedEntity)
      modifies this`avgVruntime, this`avgLoad
      ensures avgVruntime == old(avgVruntime) + Term(se)
      ensures avgLoad == old(avgLoad) + env.scaleLoadDown(se.weight)
    {
      var w := env.scaleLoadDown(se.weight);
      avgVruntime := avgVruntime + (se.vruntime - minVruntime) * w;
      avgLoad := avgLoad + w;
    }

    /** abk_avg_vruntime_sub() */
    method AvgVruntimeSub(se: SchedEntity)
      modifies this`avgVruntime, this`avgLoad
      ensures avgVruntime == old(avgVruntime) - Term(se)
      ensures avgLoad == old(avgLoad) - env.scaleLoadDown(se.weight)
    {
      var w := env.scaleLoadDown(se.weight);
      avgVruntime := avgVruntime - (se.vruntime - minVruntime) * w;
      avgLoad := avgLoad - w;
    }

    /** The place for an entity: behind every one that is not later. */
    method FindPlace(se: SchedEntity) returns (i: nat)
      ensures i <= |tree| && (forall j :: 0 <= j < i ==> tree[j].vruntime <= se.vruntime)
      ensures i < |tree| ==> se.vruntime < tree[i].vruntime
    {
      i := 0;
      while i < |tree| && !(se.vruntime < tree[i].vruntime)
        invariant 0 <= i <= |tree|
        invariant forall j :: 0 <= j < i ==> tree[j].vruntime <= se.vruntime
      {
        i := i + 1;
      }
    }

    /** rb_add_cached(); k is where it went. */
    method RbAdd(se: SchedEntity) returns (ghost k: nat)
      requires Ordered() && se !in tree
      modifies this`tree
      ensures k <= |old(tree)| && tree == Insert(old(tree), k, se)
      ensures Ordered() && forall e :: e in tree <==> e in old(tree) || e == se
    {
      var i := FindPlace(se);
      InsertInOrder(tree, i, se);
      ElementsOfInsert(tree, i, se);
      tree := Insert(tree, i, se);
      k := i;
    }

    /** rb_erase_cached(); k is where it was. */
    method RbErase(se: SchedEntity) returns (ghost k: nat)
      requires Ordered() && se in tree
      modifies this`tree
      ensures k < |old(tree)| && old(tree)[k] == se && tree == Erase(old(tree), k)
      ensures Ordered() && se !in tree && forall e :: e in old(tree) <==> e in tree || e == se
    {
      var i :| 0 <= i < |tree| && tree[i] == se;
      k := i;
      ErasedFacts(tree, i);
      ghost var less := Erase(tree, i);
      tree := Erase(tree, i);
      assert tree == less;
    }

    /** __enqueue_entity(): account the entity, then insert it. */
    method EnqueueTree(se: SchedEntity)
      requires Ordered() && Exact() && se !in tree
      modifies this`tree, this`avgVruntime, this`avgLoad
      ensures Ordered() && Exact()
      ensures avgVruntime == old(avgVruntime) + Term(se)
      ensures avgLoad == old(avgLoad) + env.scaleLoadDown(se.weight)
      ensures forall e :: e in tree <==> e in old(tree) || e == se
    {
      ghost var es := tree;
      AvgVruntimeAdd(se);
      ghost var k := RbAdd(se);
      SumsWithEntity(es, k, se, env, minVruntime);
    }

    /** __dequeue_entity(): erase the entity, then unaccount it. */
    method DequeueTree(se: SchedEntity)
      requires Ordered() && Exact() && se in tree
      modifies this`tree, this`avgVruntime, this`avgLoad
      ensures Ordered() && Exact() && se !in tree
      ensures avgVruntime == old(avgVruntime) - Term(se)
      ensures avgLoad == old(avgLoad) - env.scaleLoadDown(se.weight)
      ensures forall e :: e in old(tree) <==> e in tree || e == se
    {
      ghost var es := tree;
      ghost var k := RbErase(se);
      SumsAfterErase(es, k, env, minVruntime);
      AvgVruntimeSub(se);
    }

    /** The same on a consistent queue; the entity itself stays queued. */
    method TakeFromTree(se: SchedEntity)
      requires Valid() && se in tree
      modifies this`tree, this`avgVruntime, this`avgLoad
      ensures Valid() && se !in tree
      ensures avgVruntime == old(avgVruntime) - Term(se)
      ensures avgLoad == old(avgLoad) - env.scaleLoadDown(se.weight)
      ensures forall e :: e in old(tree) <==> e in tree || e == se
    {
      DequeueTree(se);
    }

    /** Where update_min_vruntime() would like the origin to be. */
    function Candidate(): int
      reads this, tree, curr
    {
      var c := if curr != null && curr.onRq then curr.vruntime else minVruntime;
      if tree == [] then c
      else if curr != null && curr.onRq then Min(c, tree[0].vruntime)
      else tree[0].vruntime
    }

    /** That is the slowest competitor, or the origin itself while nobody competes. */
    lemma CandidateIsSlowest()
      requires Valid()
      ensures Competing() == [] ==> Candidate() == minVruntime
      ensures Leftmost(Competing(), Candidate())
      ensures Competing() != [] ==> exists i :: 0 <= i < |Competing()| && Competing()[i].v == Candidate()
    {
      forall i | 0 <= i < |tree| ensures Competing()[i].v == tree[i].vruntime && tree[0].vruntime <= tree[i].vruntime {
        ViewsAt(tree, i, env);
      }
      if tree != [] {
        assert Competing()[0].v == tree[0].vruntime;
      }
      if curr != null && curr.onRq {
        assert Competing()[|tree|].v == curr.vruntime;
      }
    }

    /** update_min_vruntime(): the origin follows the slowest competitor, never backwards. */
    method UpdateMinVruntime()
      requires Valid()
      modifies this`minVruntime, this`avgVruntime
      ensures Valid()
      ensures minVruntime == Max(old(minVruntime), old(Candidate()))
      ensures forall i :: 0 <= i < |Competing()| ==>
                minVruntime == old(minVruntime) || minVruntime <= Competing()[i].v
    {
      var vruntime, before := minVruntime, minVruntime;
      var running := curr != null && curr.onRq;
      if running {
        vruntime := curr.vruntime;
      }
      if tree != [] {
        vruntime := if running then Min(vruntime, tree[0].vruntime) else tree[0].vruntime;
      }
      minVruntime := Max(minVruntime, vruntime);
      if minVruntime != before {
        avgVruntime := avgVruntime - avgLoad * (minVruntime - before);
      }
      assert Ents() == old(Ents());
      KeySumRebase(Ents(), before, minVruntime - before);
      forall i | 0 <= i < |Competing()| && minVruntime != before
        ensures minVruntime <= Competing()[i].v
      {
        if i < |tree| {
          ViewsAt(tree, i, env);
          assert tree[0].vruntime <= tree[i].vruntime;
        }
      }
    }

    method ClearBuddies(se: SchedEntity)
      modifies this`next, this`skip
      ensures next == if old(next) == se then null else old(next)
      ensures skip == if old(skip) == se then null else old(skip)
    {
      if next == se { next := null; }
      if skip == se { skip := null; }
    }

    /** What the entity is owed now, among everybody who competes. */
    ghost function OwedTo(se: SchedEntity): int
      requires avgLoad >= 0
      reads this, curr, se
    {
      UpdateLag(se.Value(), Avg(), env).vlag
    }

    lemma OwedIsLag(se: SchedEntity)
      requires Valid()
      ensures avgLoad >= 0 && IsLagAmong(OwedTo(se), se.Value(), env, Competing())
    {
      AvgIsMeanOfCompeting();
      LagIsTaken(se.Value(), env, Competing(), minVruntime);
    }

    /** abk_eevdf_update_lag() */
    method UpdateEntityLag(se: SchedEntity)
      requires Valid()
      modifies se`vlag
      ensures Valid()
      ensures avgLoad >= 0 && se.Value() == UpdateLag(old(se.Value()), old(Avg()), env)
    {
      AvgIsMeanOfCompeting();
      var avg, limit := Avg(), LagLimit(se.Value(), env);
      se.vlag := Clamp(avg - se.vruntime, limit);
    }

    /** abk_eevdf_store_rel_deadline() */
    method StoreRel(se: SchedEntity)
      modifies se`tag
      ensures se.Value() == StoreRelDeadline(old(se.Value()))
    {
      var deadline: nat := 0;
      if se.deadline != 0 && se.deadline - se.vruntime > 0 {
        deadline := se.deadline - se.vruntime;
      }
      se.tag := REL_DEADLINE_BIT + deadline % REL_DEADLINE_BIT;
    }

    /** abk_eevdf_refresh_deadline(); true means the request was used up and renewed. */
    method Refresh(se: SchedEntity) returns (renewed: bool)
      modifies se, this`next, this`skip
      ensures se.Value() == RefreshDeadline(old(se.Value()), env) && se.onRq == old(se.onRq)
      ensures renewed <==> RequestConsumed(old(se.Value()))
      ensures renewed && nrRunning > 1 ==> next != se && skip != se
      ensures !(renewed && nrRunning > 1) ==> next == old(next) && skip == old(skip)
    {
      if HasRelDeadline(se.Value()) {
        var rel := GetRelDeadline(se.Value());
        se.tag := 0;
        se.deadline := se.vruntime + rel;
      }
      if se.vruntime < se.deadline {
        return false;
      }
      if se.slice == 0 {
        se.slice := env.minGranularity;
      }
      se.deadline := se.vruntime + VSlice(se.Value(), env);
      if nrRunning > 1 {
        ClearBuddies(se);
      }
      return true;
    }

    /** The average place_entity() sees once the CFS half has moved se to pulled. */
    function AvgOnceAt(se: SchedEntity, pulled: int): int
      requires avgLoad >= 0
      reads this, curr, se
    {
      if se == curr && curr.onRq then
        var w := env.scaleLoadDown(se.weight);
        AvgVruntime(minVruntime, avgVruntime + (pulled - minVruntime) * w, avgLoad + w)
      else
        Avg()
    }

    /** The CFS half of place_entity() leaves the entity at pulled. */
    method PullTo(se: SchedEntity, pulled: int)
      requires Valid() && se !in tree
      modifies se`vruntime
      ensures Valid() && avgLoad >= 0 && old(avgLoad) >= 0 && Avg() == old(AvgOnceAt(se, pulled))
      ensures se.Value() == old(se.Value()).(vruntime := pulled)
    {
      AvgIsMeanOfCompeting();
      se.vruntime := pulled;
      assert Ents() == old(Ents());
    }

    /** place_entity(); pulled is the vruntime its CFS half computed. */
    method PlaceEntity(se: SchedEntity, initial: bool, pulled: int)
      requires Valid() && se !in tree
      modifies se
      ensures Valid() && avgLoad >= 0 && old(avgLoad) >= 0 && se.onRq == old(se.onRq)
      ensures se.Value() == Place(old(se.Value()).(vruntime := pulled), env,
                                  old(AvgOnceAt(se, pulled)), avgLoad, initial)
    {
      PullTo(se, pulled);
      var avg := Avg();
      se.PlaceAgainst(env, avg, avgLoad, initial);
    }

    /** Charge the running entity and renew its request; the tree does not see that. */
    method ChargeCurr(deltaExec: nat)
      requires Valid() && curr != null
      modifies this`next, this`skip, curr
      ensures Valid() && curr.onRq == old(curr.onRq) && Ents() == old(Ents())
      ensures curr.Value() == Charge(old(curr.Value()), deltaExec, env) && curr.vruntime < curr.deadline
    {
      curr.vruntime := curr.vruntime + env.calcDelta(deltaExec, curr.weight);
      RefreshLeavesRequest(curr.Value(), env);
      var _ := Refresh(curr);
      assert Ents() == old(Ents());
    }

    /** update_curr(): charge the running entity, renew its request, move the origin. */
    method UpdateCurr(deltaExec: nat)
      requires Valid()
      modifies this`minVruntime, this`avgVruntime, this`next, this`skip, curr
      ensures Valid() && old(minVruntime) <= minVruntime
      ensures curr == old(curr) && (curr != null ==> curr.onRq == old(curr.onRq))
      ensures curr != null ==>
                curr.Value() == Charge(old(curr.Value()), deltaExec, env) && curr.vruntime < curr.deadline
    {
      if curr != null {
        ChargeCurr(deltaExec);
        UpdateMinVruntime();
      }
    }

    /** __enqueue_entity() of a not running entity, and what it does to the average. */
    method Join(se: SchedEntity)
      requires Ordered() && Exact() && se !in tree && se != curr
      modifies this`tree, this`avgVruntime, this`avgLoad
      ensures Ordered() && Exact() && avgLoad >= 0 && old(avgLoad) >= 0
      ensures Avg() == old(AvgOf(avgVruntime + Term(se), avgLoad + env.scaleLoadDown(se.weight)))
      ensures forall e :: e in tree <==> e in old(tree) || e == se
    {
      EnqueueTree(se);
    }

    /** place_entity() and __enqueue_entity() in a row, with the lag that is then read. */
    method PlaceAndRead(se: SchedEntity, pulled: int)
      requires Valid() && se !in tree && se != curr
      modifies this`tree, this`avgVruntime, this`avgLoad, se
      ensures Ordered() && Exact() && avgLoad >= 0 && old(avgLoad) >= 0 && se.onRq == old(se.onRq)
      ensures forall e :: e in tree <==> e in old(tree) || e == se
      ensures se.Value() == Place(old(se.Value()).(vruntime := pulled), env, old(Avg()), old(avgLoad), false)
      ensures Avg() - se.vruntime == old(PlacedLag(se.Value().(vruntime := pulled)))
    {
      PlaceEntity(se, false, pulled);
      Join(se);
    }

    /** The same, judged against the stored lag. */
    method PlaceAndJoin(se: SchedEntity, pulled: int)
      requires Valid() && se !in tree && se != curr
      modifies this`tree, this`avgVruntime, this`avgLoad, se
      ensures Ordered() && Exact() && avgLoad >= 0 && old(avgLoad) >= 0 && se.onRq == old(se.onRq)
      ensures forall e :: e in tree <==> e in old(tree) || e == se
      ensures se.Value() == Place(old(se.Value()).(vruntime := pulled), env, old(Avg()), old(avgLoad), false)
      ensures ReadsLag(old(se.Value()).(vruntime := pulled), old(avgVruntime), old(avgLoad), Avg() - se.vruntime)
    {
      PlacedLagIsKept(se.Value().(vruntime := pulled));
      PlaceAndRead(se, pulled);
    }

    /** Whether enqueue_entity() places the entity. */
    predicate Places(s: Se, wakeup: bool) { wakeup || HasRelDeadline(s) || s.vlag != 0 }

    /** enqueue_entity() up to on_rq, for an entity other than current. */
    method EnqueueOther(se: SchedEntity, wakeup: bool, pulled: int)
      requires Valid() && se !in tree && se != curr
      modifies this`tree, this`avgVruntime, this`avgLoad, se
      ensures Ordered() && Exact() && old(avgLoad) >= 0 && avgLoad >= 0
      ensures forall e :: e in tree <==> e in old(tree) || e == se
      ensures se.Value() ==
              var s := old(se.Value());
              if Places(s, wakeup) then Place(s.(vruntime := pulled), env, old(Avg()), old(avgLoad), false) else s
      ensures ReadsLag(old(se.Value()).(vruntime := pulled), old(avgVruntime), old(avgLoad), Avg() - se.vruntime)
    {
      AvgIsMeanOfCompeting();
      if Places(se.Value(), wakeup) {
        PlaceAndJoin(se, pulled);
      } else {
        Join(se);
      }
    }

    /** The same for the current entity, which stays outside the tree. */
    method EnqueueCurrent(wakeup: bool, pulled: int)
      requires Valid() && curr != null
      modifies curr
      ensures Valid() && old(avgLoad) >= 0
      ensures curr.Value() ==
              var s := old(curr.Value());
              if Places(s, wakeup) then Place(s.(vruntime := pulled), env, old(AvgOnceAt(curr, pulled)), avgLoad, false)
              else s
      ensures curr.onRq == old(curr.onRq)
    {
      AvgIsMeanOfCompeting();
      if Places(curr.Value(), wakeup) {
        PlaceEntity(curr, false, pulled);
      }
    }

    /** se->on_rq = 1 */
    method MarkQueued(se: SchedEntity)
      requires env.Sane() && Ordered() && Exact() && avgLoad >= 0 && (curr != null ==> curr !in tree)
      requires forall e :: e in tree ==> e == se || e.onRq
      modifies se`onRq
      ensures Valid() && se.onRq && se.Value() == old(se.Value())
      ensures se != curr ==> Avg() == old(Avg()) && RunningLoad() == old(RunningLoad())
    {
      se.onRq := true;
    }

    /**
     The enqueue_entity() payload: place what carries lag or a deadline, then insert it, unless
     it is the current entity.
     */
    method EnqueueEntity(se: SchedEntity, wakeup: bool, pulled: int)
      requires Valid() && se !in tree && (se == curr ==> !se.onRq)
      modifies this`tree, this`avgVruntime, this`avgLoad, se
      ensures Valid() && se.onRq && old(avgLoad) >= 0 && avgLoad >= 0
      ensures forall e :: e in tree <==> e in old(tree) || (e == se && se != curr)
      ensures se.Value() ==
              var s := old(se.Value());
              if Places(s, wakeup) then Place(s.(vruntime := pulled), env, old(Avg()), old(avgLoad), false) else s
      ensures se != curr ==>
        ReadsLag(old(se.Value()).(vruntime := pulled), old(avgVruntime), old(avgLoad), Avg() - se.vruntime)
    {
      if se == curr {
        EnqueueCurrent(wakeup, pulled);
      } else {
        EnqueueOther(se, wakeup, pulled);
      }
      MarkQueued(se);
    }

    /** Remember the entity's lag and, unless it goes to sleep, its open request. */
    method SnapshotForDequeue(se: SchedEntity, sleep: bool)
      requires Valid()
      modifies this`next, this`skip, se`vlag, se`tag
      ensures Valid() && next != se && skip != se && avgLoad >= 0
      ensures se.Value() == Snapshot(old(se.Value()), old(Avg()), env, sleep)
    {
      ClearBuddies(se);
      UpdateEntityLag(se);
      if !sleep {
        StoreRel(se);
      }
    }

    method LeaveQueue(se: SchedEntity)
      requires Valid() && (se == curr || se in tree)
      modifies this`tree, this`avgVruntime, this`avgLoad, this`minVruntime, se`onRq
      ensures Valid() && se !in tree && !se.onRq
      ensures old(minVruntime) <= minVruntime
      ensures forall e :: e in tree <==> e in old(tree) && e != se
    {
      if se != curr {
        TakeFromTree(se);
      }
      se.onRq := false;
      UpdateMinVruntime();
    }

    /** The dequeue_entity() payload once current has been charged. */
    method DequeueCharged(se: SchedEntity, sleep: bool)
      requires Valid() && (se == curr || se in tree)
      modifies this`tree, this`avgVruntime, this`avgLoad, this`minVruntime, this`next, this`skip
      modifies se`vlag, se`tag, se`onRq
      ensures Valid() && se !in tree && !se.onRq
      ensures old(minVruntime) <= minVruntime
      ensures next != se && skip != se
      ensures forall e :: e in tree <==> e in old(tree) && e != se
      ensures old(avgLoad) >= 0 && se.Value() == Snapshot(old(se.Value()), old(Avg()), env, sleep)
      ensures IsLagAmong(se.vlag, old(se.Value()), env, old(Competing()))
    {
      OwedIsLag(se);
      SnapshotForDequeue(se, sleep);
      LeaveQueue(se);
    }

    /** The dequeue_entity() payload; c is who competes once current has been charged. */
    method DequeueEntity(se: SchedEntity, sleep: bool, deltaExec: nat) returns (ghost c: seq<Ent>)
      requires Valid() && (se == curr || se in tree)
      modifies this`tree, this`avgVruntime, this`avgLoad, this`minVruntime, this`next, this`skip, curr, se
      ensures Valid() && se !in tree && !se.onRq && curr == old(curr)
      ensures old(minVruntime) <= minVruntime
      ensures next != se && skip != se
      ensures forall e :: e in tree <==> e in old(tree) && e != se
      ensures c == old(Ents()) +
        if curr != null && old(curr.onRq)
        then [Ent(old(curr.vruntime) + env.calcDelta(deltaExec, old(curr.weight)), env.scaleLoadDown(old(curr.weight)))]
        else []
      ensures
        var s := if se == curr then Charge(old(se.Value()), deltaExec, env) else old(se.Value());
        && se.Value() == (if sleep then s else StoreRelDeadline(s)).(vlag := se.vlag)
        && IsLagAmong(se.vlag, s, env, c)
      ensures curr != null && curr != se ==> curr.Value() == Charge(old(curr.Value()), deltaExec, env)
    {
      c := ChargeAll(deltaExec);
      AvgIsMeanOfCompeting();
      SnapshotWithin(se.Value(), Avg(), env, sleep);
      DequeueCharged(se, sleep);
    }

    /** update_curr(), and who competes then. */
    method ChargeAll(deltaExec: nat) returns (ghost c: seq<Ent>)
      requires Valid()
      modifies this`minVruntime, this`avgVruntime, this`next, this`skip, curr
      ensures Valid() && curr == old(curr) && old(minVruntime) <= minVruntime
      ensures curr != null ==>
        && curr.onRq == old(curr.onRq) && curr.Value() == Charge(old(curr.Value()), deltaExec, env)
        && curr.vruntime == old(curr.vruntime) + env.calcDelta(deltaExec, old(curr.weight)) < curr.deadline
      ensures c == Competing() == old(Ents()) +
        if curr != null && old(curr.onRq)
        then [Ent(old(curr.vruntime) + env.calcDelta(deltaExec, old(curr.weight)), env.scaleLoadDown(old(curr.weight)))]
        else []
    {
      if curr != null {
        ChargeAdvances(curr.Value(), deltaExec, env);
      }
      UpdateCurr(deltaExec);
      assert Ents() == old(Ents());
      c := Competing();
    }

    /** The set_next_entity() payload: stash the deadline it was picked with, take it out. */
    method StashAndTake(se: SchedEntity)
      requires Valid() && (se.onRq ==> se in tree)
      modifies this`tree, this`avgVruntime, this`avgLoad, this`curr, this`pickDeadline
      ensures Valid() && curr == se
      ensures forall e :: e in tree <==> e in old(tree) && e != se
      ensures pickDeadline == if se.onRq then se.deadline else old(pickDeadline)
    {
      if se.onRq {
        pickDeadline := se.deadline;
        TakeFromTree(se);
      }
      curr := se;
    }

    /** set_next_entity() */
    method SetNextEntity(se: SchedEntity)
      requires Valid() && (se.onRq ==> se in tree)
      modifies this`tree, this`avgVruntime, this`avgLoad, this`curr, this`pickDeadline, this`next, this`skip
      ensures Valid() && curr == se && next != se && skip != se
      ensures forall e :: e in tree <==> e in old(tree) && e != se
      ensures pickDeadline == if se.onRq then se.deadline else old(pickDeadline)
    {
      ClearBuddies(se);
      StashAndTake(se);
    }

    /** put_prev_entity(): charge the running entity and, if it stays queued, reinsert it. */
    method PutPrevEntity(deltaExec: nat)
      requires Valid() && curr != null
      modifies this`tree, this`avgVruntime, this`avgLoad, this`minVruntime, this`curr, this`next, this`skip, curr
      ensures Valid() && curr == null && old(minVruntime) <= minVruntime
      ensures forall e :: e in tree <==> e in old(tree) || (e == old(curr) && old(curr.onRq))
      ensures
        var s := old(curr.Value());
        old(curr).Value() == if old(curr.onRq) then Charge(s, deltaExec, env) else s
    {
      if curr.onRq {
        UpdateCurr(deltaExec);
        EnqueueTree(curr);
      }
      curr := null;
    }

    /** Snapshot the queued, not running entity and take it out of the tree. */
    method TakeOut(se: SchedEntity)
      requires Valid() && se in tree
      modifies this`tree, this`avgVruntime, this`avgLoad, se`vlag, se`tag
      ensures Valid() && avgLoad >= 0 && old(avgLoad) >= 0
      ensures forall e :: e in old(tree) <==> e in tree || e == se
      ensures se !in tree
      ensures se.Value() == StoreRelDeadline(UpdateLag(old(se.Value()), old(Avg()), env))
      ensures avgVruntime == old(avgVruntime) - old(Term(se))
      ensures avgLoad == old(avgLoad) - env.scaleLoadDown(se.weight)
    {
      UpdateEntityLag(se);
      StoreRel(se);
      TakeFromTree(se);
      AvgIsMeanOfCompeting();
    }

    /** The same, scaled for another weight. */
    method TakeOutScaled(se: SchedEntity, weight: nat) returns (ghost lag: int)
      requires Valid() && se in tree
      modifies this`tree, this`avgVruntime, this`avgLoad, se
      ensures Valid() && avgLoad >= 0 && old(avgLoad) >= 0 && se.onRq && se !in tree && se != curr
      ensures forall e :: e in old(tree) <==> e in tree || e == se
      ensures se.Value() ==
              ScaleForWeight(StoreRelDeadline(UpdateLag(old(se.Value()), old(Avg()), env)), weight)
      ensures avgVruntime == old(avgVruntime) - old(Term(se))
      ensures avgLoad == old(avgLoad) - env.scaleLoadDown(old(se.weight))
      ensures lag == old(OwedTo(se)) && se.vlag == TruncDiv(lag * Max(old(se.weight), 1), Max(weight, 1))
    {
      TakeOut(se);
      lag := se.vlag;
      se.Rescale(weight);
    }

    /**
     reweight_entity() on a queued entity that is not running: it is placed against the queue
     without itself.  lag is what it was owed, s its state when it is placed, load what the tree
     weighs without it.
     */
    method ReweightQueued(se: SchedEntity, weight: nat, pulled: int)
      returns (ghost lag: int, ghost s: Se, ghost load: nat)
      requires Valid() && se in tree
      modifies this`tree, this`avgVruntime, this`avgLoad, se
      ensures Valid() && avgLoad >= 0 && old(avgLoad) >= 0 && se.onRq
      ensures forall e :: e in tree <==> e in old(tree)
      ensures load == old(avgLoad) - env.scaleLoadDown(old(se.weight))
      ensures s == ScaleForWeight(StoreRelDeadline(UpdateLag(old(se.Value()), old(Avg()), env)), weight).(vruntime := pulled)
      ensures IsLagAmong(lag, old(se.Value()), env, old(Competing()))
      ensures s.vlag == TruncDiv(lag * Max(old(se.weight), 1), Max(weight, 1)) && s.weight == weight
      ensures se.Value() == Place(s, env, AvgOf(old(avgVruntime) - old(Term(se)), load), load, false)
      ensures ReadsLag(s, old(avgVruntime) - old(Term(se)), load, Avg() - se.vruntime)
    {
      OwedIsLag(se);
      lag := TakeOutScaled(se, weight);
      s, load := se.Value().(vruntime := pulled), avgLoad;
      PlaceAndJoin(se, pulled);
    }

    /** Take lag and open request of the running entity and scale them. */
    method RescaleCurrent(weight: nat) returns (ghost lag: int)
      requires Valid() && curr != null
      modifies curr
      ensures Valid() && avgLoad >= 0 && curr.onRq == old(curr.onRq)
      ensures curr.Value() == ScaleForWeight(StoreRelDeadline(UpdateLag(old(curr.Value()), old(Avg()), env)), weight)
      ensures lag == old(OwedTo(curr)) && curr.vlag == TruncDiv(lag * Max(old(curr.weight), 1), Max(weight, 1))
    {
      UpdateEntityLag(curr);
      lag := curr.vlag;
      StoreRel(curr);
      curr.Rescale(weight);
    }

    /** reweight_entity() on the running entity, once it has been charged; lag is what it was owed. */
    method ReweightCharged(weight: nat, pulled: int) returns (ghost lag: int, ghost s: Se)
      requires Valid() && curr != null
      modifies curr
      ensures Valid() && avgLoad >= 0 && curr.onRq == old(curr.onRq)
      ensures IsLagAmong(lag, old(curr.Value()), env, old(Competing()))
      ensures s == ScaleForWeight(StoreRelDeadline(UpdateLag(old(curr.Value()), old(Avg()), env)), weight)
      ensures s.vlag == TruncDiv(lag * Max(old(curr.weight), 1), Max(weight, 1)) && s.weight == weight
      ensures
        var w := if curr.onRq then env.scaleLoadDown(weight) else 0;
        curr.Value() == Place(s.(vruntime := pulled), env,
                              AvgVruntime(minVruntime, avgVruntime + (pulled - minVruntime) * w, avgLoad + w),
                              avgLoad, false)
    {
      OwedIsLag(curr);
      lag := RescaleCurrent(weight);
      s := curr.Value();
      PlaceEntity(curr, false, pulled);
    }

    /** reweight_entity() on the running entity. */
    method ReweightRunning(weight: nat, deltaExec: nat, pulled: int)
      requires Valid() && curr != null
      modifies this`minVruntime, this`avgVruntime, this`next, this`skip, curr
      ensures Valid() && curr == old(curr) && curr.onRq == old(curr.onRq)
      ensures old(minVruntime) <= minVruntime && curr.weight == weight && curr.vlag == 0
    {
      UpdateCurr(deltaExec);
      var _, _ := ReweightCharged(weight, pulled);
    }

    /**
     reweight_entity(): lag and open request are taken, scaled by the weight ratio and placed
     again, on the queued and on the running path.
     */
    method ReweightEntity(se: SchedEntity, weight: nat, deltaExec: nat, pulled: int)
      requires Valid() && (se.onRq ==> se == curr || se in tree)
      modifies this`tree, this`avgVruntime, this`avgLoad, this`minVruntime, this`next, this`skip, curr, se
      ensures Valid() && curr == old(curr) && se.onRq == old(se.onRq)
      ensures old(minVruntime) <= minVruntime
      ensures forall e :: e in tree <==> e in old(tree)
      ensures se.weight == weight
      ensures !old(se.onRq) ==> se.Value() == ScaleForWeight(old(se.Value()), weight)
    {
      if !se.onRq {
        se.Rescale(weight);
      } else if se == curr {
        ReweightRunning(weight, deltaExec, pulled);
      } else {
        var _, _, _ := ReweightQueued(se, weight, pulled);
      }
    }

    /** An eligible current forfeits the rest of its request; an ineligible one keeps it. */
    method Forfeit() returns (ghost forfeited: bool)
      requires Valid() && curr != null && curr.vruntime < curr.deadline
      modifies this`minVruntime, this`avgVruntime, curr
      ensures Valid() && curr == old(curr) && old(minVruntime) <= minVruntime && old(avgLoad) >= 0
      ensures forfeited <==> Eligible(old(curr.vruntime), old(Avg()))
      ensures curr.onRq == old(curr.onRq)
      ensures curr.Value() == if forfeited then ForfeitRequest(old(curr.Value()), env) else old(curr.Value())
      ensures curr.vruntime < curr.deadline
    {
      AvgIsMeanOfCompeting();
      forfeited := Eligible(curr.vruntime, Avg());
      if Eligible(curr.vruntime, Avg()) {
        var vslice := VSlice(curr.Value(), env);
        curr.vruntime := curr.deadline;
        curr.deadline := curr.deadline + vslice;
        UpdateMinVruntime();
      }
    }

    /** Forfeit() on a live queue: owed means not ahead of the weighted mean of all competitors. */
    method ForfeitIfOwed(ghost c: seq<Ent>, ghost v: int) returns (ghost forfeited: bool)
      requires Valid() && curr != null && curr.vruntime < curr.deadline && c == Competing() && v == curr.vruntime
      modifies this`minVruntime, this`avgVruntime, curr
      ensures Valid() && curr == old(curr) && old(minVruntime) <= minVruntime
      ensures LoadSum(c) > 0 ==> (forfeited <==> LoadSum(c) * v <= KeySum(c, 0))
      ensures curr.onRq == old(curr.onRq)
      ensures curr.Value() == if forfeited then ForfeitRequest(old(curr.Value()), env) else old(curr.Value())
      ensures curr.vruntime < curr.deadline
    {
      if LoadSum(Competing()) > 0 {
        EligibleMeansOwed(curr.vruntime);
      }
      forfeited := Forfeit();
    }

    /** set_skip_buddy() */
    method SetSkipBuddy()
      requires Valid()
      modifies this`skip
      ensures Valid() && skip == curr
    {
      skip := curr;
    }

    /** The first half of yield_task_fair(). */
    method ChargeForYield(deltaExec: nat) returns (ghost c: seq<Ent>, ghost v: int)
      requires Valid() && curr != null
      modifies this`minVruntime, this`avgVruntime, this`next, this`skip, curr
      ensures Valid() && curr == old(curr) && old(minVruntime) <= minVruntime && curr.onRq == old(curr.onRq)
      ensures curr.Value() == Charge(old(curr.Value()), deltaExec, env)
      ensures v == curr.vruntime < curr.deadline && v == old(curr.vruntime) + env.calcDelta(deltaExec, old(curr.weight))
      ensures c == Competing() ==
        old(Ents()) + if old(curr.onRq) then [Ent(v, env.scaleLoadDown(old(curr.weight)))] else []
    {
      ClearBuddies(curr);
      assert Ents() == old(Ents());
      c := ChargeAll(deltaExec);
      v := curr.vruntime;
    }

    /** The yield_task_fair() payload; c is who competes once current has been charged up to v. */
    method YieldTask(deltaExec: nat) returns (ghost forfeited: bool, ghost c: seq<Ent>, ghost v: int)
      requires Valid() && curr != null
      modifies this`minVruntime, this`avgVruntime, this`next, this`skip, curr
      ensures Valid() && curr == old(curr) && skip == curr
      ensures old(minVruntime) <= minVruntime
      ensures v == old(curr.vruntime) + env.calcDelta(deltaExec, old(curr.weight))
      ensures c == old(Ents()) + if old(curr.onRq) then [Ent(v, env.scaleLoadDown(old(curr.weight)))] else []
      ensures LoadSum(c) > 0 ==> (forfeited <==> LoadSum(c) * v <= KeySum(c, 0))
      ensures
        var r := Charge(old(curr.Value()), deltaExec, env);
        curr.Value() == if forfeited then ForfeitRequest(r, env) else r
      ensures curr.vruntime < curr.deadline
    {
      c, v := ChargeForYield(deltaExec);
      forfeited := ForfeitIfOwed(c, v);
      SetSkipBuddy();
    }

    /** Queued and owed service. */
    predicate Runnable(se: SchedEntity?, avg: int)
      reads se
    {
      se != null && se.onRq && Eligible(se.vruntime, avg)
    }

    /** RUN_TO_PARITY: current still runs the request it was picked with. */
    predicate AtParity(cur: SchedEntity?)
      reads this`pickDeadline, cur
    {
      env.runToParity && cur != null && cur.deadline != 0 && pickDeadline == cur.deadline
    }

    /** The tree's leftmost entity is eligible whenever current is not the leftmost competitor. */
    lemma FirstInTreeIsEligible()
      requires Valid() && LoadSum(Competing()) > 0
      requires curr != null && curr.onRq && avgLoad >= 0 ==> !Eligible(curr.vruntime, Avg())
      ensures avgLoad >= 0 && tree != [] && Eligible(tree[0].vruntime, Avg())
    {
      AvgIsMeanOfCompeting();
      var c := Competing();
      if curr != null && curr.onRq {
        CurrentIsNotLeftmost();
      }
      LeftmostOfCompeting();
      LeftmostIsEligible(c, minVruntime, tree[0].vruntime);
    }

    lemma CurrentIsNotLeftmost()
      requires Valid() && LoadSum(Competing()) > 0 && avgLoad >= 0
      requires curr != null && curr.onRq && !Eligible(curr.vruntime, Avg())
      ensures tree != [] && tree[0].vruntime < curr.vruntime
    {
      AvgIsMeanOfCompeting();
      if tree == [] || curr.vruntime <= tree[0].vruntime {
        forall i | 0 <= i < |Competing()| ensures curr.vruntime <= Competing()[i].v {
          if i < |tree| {
            ViewsAt(tree, i, env);
            assert tree[0].vruntime <= tree[i].vruntime;
          }
        }
        LeftmostIsEligible(Competing(), minVruntime, curr.vruntime);
      }
    }

    lemma LeftmostOfCompeting()
      requires Valid() && LoadSum(Competing()) > 0
      requires curr != null && curr.onRq ==> tree != [] && tree[0].vruntime < curr.vruntime
      ensures tree != [] && Leftmost(Competing(), tree[0].vruntime)
    {
      forall i | 0 <= i < |Competing()| ensures tree != [] && tree[0].vruntime <= Competing()[i].v {
        if i < |tree| {
          ViewsAt(tree, i, env);
          assert tree[0].vruntime <= tree[i].vruntime;
        }
      }
      assert Competing() != [];
    }

    /** The next buddy if it is runnable and earlier than c. */
    method NextOr(c: SchedEntity?, avg: int) returns (best: SchedEntity?)
      ensures best == c || (best == next && Runnable(next, avg) && Before(next, c))
      ensures Runnable(next, avg) ==> !Before(next, best)
    {
      best := c;
      if Runnable(next, avg) && Before(next, best) {
        best := next;
      }
    }

    /** The loop over the tree: the earliest of start and the eligible entities other than skip. */
    method EarliestFrom(start: SchedEntity?, avg: int) returns (best: SchedEntity?)
      ensures best == start || (Before(best, start) && best in tree && best != skip && Eligible(best.vruntime, avg))
      ensures forall e :: e in tree && e != skip && Eligible(e.vruntime, avg) ==> !Before(e, best)
    {
      best := start;
      for i := 0 to |tree|
        invariant best == start || (Before(best, start) && best in tree && best != skip && Eligible(best.vruntime, avg))
        invariant forall j :: 0 <= j < i && tree[j] != skip && Eligible(tree[j].vruntime, avg) ==>
          !Before(tree[j], best)
      {
        if Eligible(tree[i].vruntime, avg) && skip != tree[i] && Before(tree[i], best) {
          best := tree[i];
        }
      }
    }

    /** The selection proper, from an eligible current or none. */
    method EarliestEligible(c: SchedEntity?, avg: int) returns (best: SchedEntity?)
      requires c != null ==> Eligible(c.vruntime, avg)
      ensures best != null ==> Eligible(best.vruntime, avg)
      ensures best != null ==> best == c || best == next || (best in tree && best != skip)
      ensures c != null ==> best != null && !Before(c, best)
      ensures Runnable(next, avg) ==> !Before(next, best)
      ensures forall e :: e in tree && e != skip && Eligible(e.vruntime, avg) ==> !Before(e, best)
    {
      best := NextOr(c, avg);
      best := EarliestFrom(best, avg);
    }

    /**
     abk_pick_eevdf(): among the eligible, the earliest virtual deadline.  cur is the running
     entity, or null once it has been put back.
     */
    method PickEevdf(cur: SchedEntity?) returns (best: SchedEntity?)
      requires Valid()
      requires cur == curr || (cur == null && !curr.onRq)
      ensures avgLoad >= 0
      ensures LoadSum(Competing()) > 0 ==> best != null && Eligible(best.vruntime, Avg())
      ensures best != null ==> best in tree || best == cur || best == next
      ensures
        var stays := cur != null && cur.onRq && Eligible(cur.vruntime, Avg())
          && env.runToParity && cur.deadline != 0 && pickDeadline == cur.deadline;
        && (stays ==> best == cur)
        && (!stays ==> forall e: SchedEntity ::
              (e in tree && e != skip && Eligible(e.vruntime, Avg()))
              || (e == cur && e.onRq && Eligible(e.vruntime, Avg()))
              || (e == next && e.onRq && Eligible(e.vruntime, Avg())) ==>
                best != null
                && (best.deadline < e.deadline || (best.deadline == e.deadline && best.vruntime <= e.vruntime)))
      ensures best != null && best == skip ==>
                || best == cur || best == next
                || (forall e :: e in tree && Eligible(e.vruntime, Avg()) ==> e == skip)
                || LoadSum(Competing()) == 0
    {
      AvgIsMeanOfCompeting();
      var avg := Avg();
      var c := cur;
      if c != null && (!c.onRq || !Eligible(c.vruntime, avg)) {
        c := null;
      }
      if AtParity(c) {
        return c;
      }
      best := PickOffParity(c);
    }

    /** The rest of it, from an eligible current or none. */
    method PickOffParity(c: SchedEntity?) returns (best: SchedEntity?)
      requires Valid() && avgLoad >= 0
      requires c != null ==> c.onRq && Eligible(c.vruntime, Avg())
      requires c == null && curr != null && curr.onRq ==> !Eligible(curr.vruntime, Avg())
      ensures LoadSum(Competing()) > 0 ==> best != null && Eligible(best.vruntime, Avg())
      ensures best != null ==> best in tree || best == c || best == next
      ensures c != null ==> best != null && !Before(c, best)
      ensures Runnable(next, Avg()) ==> !Before(next, best)
      ensures forall e :: e in tree && e != skip && Eligible(e.vruntime, Avg()) ==> !Before(e, best)
      ensures best != null && best == skip ==>
                || best == c || best == next
                || (forall e :: e in tree && Eligible(e.vruntime, Avg()) ==> e == skip)
                || LoadSum(Competing()) == 0
    {
      best := EarliestEligible(c, Avg());
      if best == null {
        best := Fallback(c);
      }
    }

    /** Nobody seen: current, or else the leftmost entity, which is eligible if current is not. */
    method Fallback(c: SchedEntity?) returns (r: SchedEntity?)
      requires Valid() && avgLoad >= 0
      requires curr != null && curr.onRq ==> !Eligible(curr.vruntime, Avg())
      ensures r == if c != null && c.onRq then c else if tree != [] then tree[0] else null
      ensures (c != null ==> !c.onRq) && LoadSum(Competing()) > 0 ==> r != null && Eligible(r.vruntime, Avg())
    {
      if LoadSum(Competing()) > 0 {
        FirstInTreeIsEligible();
      }
      r := if c != null && c.onRq then c else if tree != [] then tree[0] else null;
    }
  }
}
