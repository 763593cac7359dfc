/** One memcg counter over the whole cgroup tree, and what flushing it upwards conserves. */
module MemcgColumn {
  import opened Wrappers
  import opened CgroupTree

  /**
   The counter for every memcg: its aggregate, what its children left for it, and per cpu the
   running count and its value at the last flush.
   */
  datatype Col = Col(agg: seq<int>, pend: seq<int>, cur: seq<seq<int>>, prev: seq<seq<int>>)

  predicate Well(t: Tree, c: Col) {
    && |c.agg| == |c.pend| == |c.cur| == |c.prev| == |t|
    && (forall m :: 0 <= m < |t| ==> |c.cur[m]| == |c.prev[m]|)
  }

  function Zero(t: Tree, cpus: nat): (c: Col)
    ensures Well(t, c) && (forall m :: 0 <= m < |t| ==> |c.cur[m]| == cpus)
  {
    var z := seq(|t|, _ => 0);
    var zz := seq(|t|, _ => seq(cpus, _ => 0));
    Col(z, z, zz, zz)
  }

  predicate At(t: Tree, c: Col, m: nat, cpu: nat) {
    Well(t, c) && m < |t| && cpu < |c.cur[m]|
  }

  /** __this_cpu_add(state[i], val) */
  function Update(t: Tree, c: Col, m: nat, cpu: nat, val: int): (r: Col)
    requires At(t, c, m, cpu)
    ensures Well(t, r) && (forall d :: 0 <= d < |t| ==> |r.cur[d]| == |c.cur[d]|)
  {
    c.(cur := c.cur[m := c.cur[m][cpu := c.cur[m][cpu] + val]])
  }

  function Delta(t: Tree, c: Col, m: nat, cpu: nat): int
    requires At(t, c, m, cpu)
  {
    c.pend[m] + c.cur[m][cpu] - c.prev[m][cpu]
  }

  /** The aggregate takes what the children and this cpu have for it. */
  function Collect(t: Tree, c: Col, m: nat, cpu: nat): (r: Col)
    requires At(t, c, m, cpu)
    ensures Well(t, r)
  {
    Col(c.agg[m := c.agg[m] + Delta(t, c, m, cpu)], c.pend[m := 0], c.cur,
      c.prev[m := c.prev[m][cpu := c.cur[m][cpu]]])
  }

  function LeaveFor(t: Tree, c: Col, p: nat, delta: int): (r: Col)
    requires Well(t, c) && p < |t|
    ensures Well(t, r)
  {
    c.(pend := c.pend[p := c.pend[p] + delta])
  }

  /** One turn of the loop in mem_cgroup_css_rstat_flush(). */
  function Flush(t: Tree, c: Col, m: nat, cpu: nat): (r: Col)
    requires At(t, c, m, cpu)
    ensures Well(t, r) && r.cur == c.cur
  {
    var r := Collect(t, c, m, cpu);
    if t[m].Some? then LeaveFor(t, r, t[m].value, Delta(t, c, m, cpu)) else r
  }

  // ---- what has not reached an aggregate yet ----

  function CpuDiff(cur: seq<int>, prev: seq<int>): int
    requires |cur| == |prev|
  {
    if cur == [] then 0 else cur[0] - prev[0] + CpuDiff(cur[1..], prev[1..])
  }

  lemma {:induction false} CpuDiffUpdate(cur: seq<int>, prev: seq<int>, k: nat, x: int, y: int)
    requires k < |cur| == |prev|
    ensures CpuDiff(cur[k := x], prev[k := y]) == CpuDiff(cur, prev) - (cur[k] - prev[k]) + (x - y)
  {
    if k == 0 {
      assert cur[k := x][1..] == cur[1..] && prev[k := y][1..] == prev[1..];
    } else {
      CpuDiffUpdate(cur[1..], prev[1..], k - 1, x, y);
      assert cur[k := x][1..] == cur[1..][k - 1 := x] && prev[k := y][1..] == prev[1..][k - 1 := y];
    }
  }

  lemma {:induction false} CpuDiffZero(cur: seq<int>, prev: seq<int>)
    requires cur == prev
    ensures CpuDiff(cur, prev) == 0
  {
    if cur != [] {
      CpuDiffZero(cur[1..], prev[1..]);
    }
  }

  /** The memcg's own share of what is still on its way. */
  function Local(t: Tree, c: Col, d: nat): int
    requires Well(t, c) && d < |t|
  {
    c.pend[d] + CpuDiff(c.cur[d], c.prev[d])
  }

  /** On its way in the subtree of m, counting memcgs below n. */
  function OnTheWay(t: Tree, c: Col, m: nat, n: nat): int
    requires Well(t, c) && n <= |t|
  {
    if n == 0 then 0
    else OnTheWay(t, c, m, n - 1) + (if Below(t, m, n - 1) then Local(t, c, n - 1) else 0)
  }

  /** Aggregate plus everything on its way. */
  function Total(t: Tree, c: Col, m: nat): int
    requires Well(t, c) && m < |t|
  {
    c.agg[m] + OnTheWay(t, c, m, |t|)
  }

  /** What changes when the share of one memcg changes by x. */
  lemma {:induction false} OnTheWayChange(t: Tree, c: Col, r: Col, m: nat, n: nat, d: nat, x: int)
    requires Well(t, c) && Well(t, r) && n <= |t| && d < |t|
    requires forall e :: 0 <= e < |t| ==> Local(t, r, e) == Local(t, c, e) + if e == d then x else 0
    ensures OnTheWay(t, r, m, n) == OnTheWay(t, c, m, n) + if d < n && Below(t, m, d) then x else 0
  {
    if n > 0 {
      OnTheWayChange(t, c, r, m, n - 1, d, x);
    }
  }

  lemma TotalAfterUpdate(t: Tree, c: Col, m: nat, cpu: nat, val: int, a: nat)
    requires At(t, c, m, cpu) && a < |t|
    ensures Total(t, Update(t, c, m, cpu, val), a) == Total(t, c, a) + if Below(t, a, m) then val else 0
  {
    var r := Update(t, c, m, cpu, val);
    CpuDiffUpdate(c.cur[m], c.prev[m], cpu, c.cur[m][cpu] + val, c.prev[m][cpu]);
    assert c.prev[m][cpu := c.prev[m][cpu]] == c.prev[m];
    OnTheWayChange(t, c, r, a, |t|, m, val);
  }

  lemma TotalAfterCollect(t: Tree, c: Col, m: nat, cpu: nat, a: nat)
    requires At(t, c, m, cpu) && a < |t|
    ensures
      Total(t, Collect(t, c, m, cpu), a)
      == Total(t, c, a) - if Below(t, a, m) && a != m then Delta(t, c, m, cpu) else 0
  {
    var r := Collect(t, c, m, cpu);
    CpuDiffUpdate(c.cur[m], c.prev[m], cpu, c.cur[m][cpu], c.cur[m][cpu]);
    assert c.cur[m][cpu := c.cur[m][cpu]] == c.cur[m];
    OnTheWayChange(t, c, r, a, |t|, m, -Delta(t, c, m, cpu));
  }

  lemma TotalAfterLeaving(t: Tree, c: Col, p: nat, delta: int, a: nat)
    requires Well(t, c) && p < |t| && a < |t|
    ensures Total(t, LeaveFor(t, c, p, delta), a) == Total(t, c, a) + if Below(t, a, p) then delta else 0
  {
    OnTheWayChange(t, c, LeaveFor(t, c, p, delta), a, |t|, p, delta);
  }

  /** A flush moves counts up the tree and neither makes nor loses any, for every memcg at once. */
  lemma FlushConserves(t: Tree, c: Col, m: nat, cpu: nat, a: nat)
    requires At(t, c, m, cpu) && a < |t|
    ensures Total(t, Flush(t, c, m, cpu), a) == Total(t, c, a)
  {
    TotalAfterCollect(t, c, m, cpu, a);
    if t[m].Some? {
      TotalAfterLeaving(t, Collect(t, c, m, cpu), t[m].value, Delta(t, c, m, cpu), a);
      if a == m && Below(t, m, t[m].value) {
        BelowIsYounger(t, m, t[m].value);
      }
    }
  }

  // ---- every update is accounted for ----

  datatype Op = Updated(m: nat, cpu: nat, val: int) | Flushed(m: nat, cpu: nat)

  predicate OpOk(t: Tree, cpus: nat, op: Op) { op.m < |t| && op.cpu < cpus }

  predicate OpsOk(t: Tree, cpus: nat, ops: seq<Op>) {
    forall k :: 0 <= k < |ops| ==> OpOk(t, cpus, ops[k])
  }

  predicate Wide(t: Tree, c: Col, cpus: nat) {
    Well(t, c) && (forall m :: 0 <= m < |t| ==> |c.cur[m]| == cpus)
  }

  function Do(t: Tree, cpus: nat, c: Col, op: Op): (r: Col)
    requires Wide(t, c, cpus) && OpOk(t, cpus, op)
    ensures Wide(t, r, cpus)
  {
    match op
    case Updated(m, cpu, val) => Update(t, c, m, cpu, val)
    case Flushed(m, cpu) => Flush(t, c, m, cpu)
  }

  function After(t: Tree, cpus: nat, c: Col, ops: seq<Op>): (r: Col)
    requires Wide(t, c, cpus) && OpsOk(t, cpus, ops)
    ensures Wide(t, r, cpus)
  {
    if ops == [] then c else Do(t, cpus, After(t, cpus, c, ops[..|ops| - 1]), ops[|ops| - 1])
  }

  /** The sum of all updates ever made in the subtree of m. */
  function Made(t: Tree, ops: seq<Op>, m: nat): int
    requires forall k :: 0 <= k < |ops| ==> ops[k].m < |t|
  {
    if ops == [] then 0
    else
      var op := ops[|ops| - 1];
      Made(t, ops[..|ops| - 1], m) + if op.Updated? && Below(t, m, op.m) then op.val else 0
  }

  lemma {:induction false} NothingOnTheWay(t: Tree, c: Col, m: nat, n: nat)
    requires Well(t, c) && n <= |t|
    requires forall d :: 0 <= d < n && Below(t, m, d) ==> c.pend[d] == 0 && c.cur[d] == c.prev[d]
    ensures OnTheWay(t, c, m, n) == 0
  {
    if n > 0 {
      NothingOnTheWay(t, c, m, n - 1);
      if Below(t, m, n - 1) {
        CpuDiffZero(c.cur[n - 1], c.prev[n - 1]);
      }
    }
  }

  /** At any time, for every memcg: aggregate + on its way in the subtree == all updates made there. */
  lemma {:induction false} AllUpdatesAccounted(t: Tree, cpus: nat, ops: seq<Op>, m: nat)
    requires OpsOk(t, cpus, ops) && m < |t|
    ensures Total(t, After(t, cpus, Zero(t, cpus), ops), m) == Made(t, ops, m)
  {
    if ops == [] {
      NothingOnTheWay(t, Zero(t, cpus), m, |t|);
    } else {
      var k := |ops| - 1;
      AllUpdatesAccounted(t, cpus, ops[..k], m);
      var c := After(t, cpus, Zero(t, cpus), ops[..k]);
      if ops[k].Updated? {
        TotalAfterUpdate(t, c, ops[k].m, ops[k].cpu, ops[k].val, m);
      } else {
        FlushConserves(t, c, ops[k].m, ops[k].cpu, m);
      }
    }
  }

  // ---- a complete flush of a subtree ----

  /** Every memcg below m, each after its children: how rstat visits a subtree on one cpu. */
  ghost predicate BottomUp(t: Tree, m: nat, order: seq<nat>) {
    && (forall k :: 0 <= k < |order| ==> order[k] < |t|)
    && (forall d :: 0 <= d < |t| && Below(t, m, d) ==> d in order)
    && (forall j, k :: 0 <= j < |order| && 0 <= k < |order| && t[order[j]] == Some(order[k]) ==> j < k)
  }

  function FlushCpu(t: Tree, cpus: nat, c: Col, order: seq<nat>, cpu: nat): (r: Col)
    requires Wide(t, c, cpus) && cpu < cpus && forall k :: 0 <= k < |order| ==> order[k] < |t|
    ensures Wide(t, r, cpus)
  {
    if order == [] then c
    else Flush(t, FlushCpu(t, cpus, c, order[..|order| - 1], cpu), order[|order| - 1], cpu)
  }

  /** cgroup_rstat_flush_locked(): cpu by cpu, each time bottom-up. */
  function FlushAll(t: Tree, cpus: nat, c: Col, order: seq<nat>, done: nat): (r: Col)
    requires Wide(t, c, cpus) && done <= cpus && forall k :: 0 <= k < |order| ==> order[k] < |t|
    ensures Wide(t, r, cpus)
  {
    if done == 0 then c else FlushCpu(t, cpus, FlushAll(t, cpus, c, order, done - 1), order, done - 1)
  }

  /** Pending has been collected from the first n memcgs of the order, and none of it came back. */
  lemma {:induction false} FlushCpuClears(t: Tree, cpus: nat, c: Col, order: seq<nat>, cpu: nat, n: nat)
    requires Wide(t, c, cpus) && cpu < cpus && n <= |order| && forall k :: 0 <= k < |order| ==> order[k] < |t|
    requires forall j, k :: 0 <= j < |order| && 0 <= k < |order| && t[order[j]] == Some(order[k]) ==> j < k
    ensures
      var r := FlushCpu(t, cpus, c, order[..n], cpu);
      && r.cur == c.cur
      && (forall k :: 0 <= k < n ==> r.pend[order[k]] == 0 && r.prev[order[k]][cpu] == c.cur[order[k]][cpu])
      && (forall d, e :: 0 <= d < |t| && 0 <= e < cpus && e != cpu ==> r.prev[d][e] == c.prev[d][e])
  {
    if n > 0 {
      FlushCpuClears(t, cpus, c, order, cpu, n - 1);
      assert order[..n][..n - 1] == order[..n - 1] && order[..n][n - 1] == order[n - 1];
      var q := FlushCpu(t, cpus, c, order[..n - 1], cpu);
      var m := order[n - 1];
      if t[m].Some? {
        forall k | 0 <= k < n ensures t[m] != Some(order[k]) {
        }
      }
    }
  }

  lemma {:induction false} FlushAllClears(t: Tree, cpus: nat, c: Col, order: seq<nat>, m: nat, done: nat)
    requires Wide(t, c, cpus) && done <= cpus && BottomUp(t, m, order)
    ensures
      var r := FlushAll(t, cpus, c, order, done);
      && r.cur == c.cur
      && (forall d :: 0 <= d < |t| && d in order && done > 0 ==> r.pend[d] == 0)
      && (forall d, e :: 0 <= d < |t| && d in order && 0 <= e < done ==> r.prev[d][e] == c.cur[d][e])
  {
    if done > 0 {
      FlushAllClears(t, cpus, c, order, m, done - 1);
      FlushCpuClears(t, cpus, FlushAll(t, cpus, c, order, done - 1), order, done - 1, |order|);
      assert order[..|order|] == order;
    }
  }

  lemma {:induction false} FlushCpuConserves(t: Tree, cpus: nat, c: Col, order: seq<nat>, cpu: nat, m: nat)
    requires Wide(t, c, cpus) && cpu < cpus && m < |t| && forall k :: 0 <= k < |order| ==> order[k] < |t|
    ensures Total(t, FlushCpu(t, cpus, c, order, cpu), m) == Total(t, c, m)
  {
    if order != [] {
      var rest := order[..|order| - 1];
      FlushCpuConserves(t, cpus, c, rest, cpu, m);
      FlushConserves(t, FlushCpu(t, cpus, c, rest, cpu), order[|order| - 1], cpu, m);
    }
  }

  lemma {:induction false} FlushAllConserves(t: Tree, cpus: nat, c: Col, order: seq<nat>, done: nat, m: nat)
    requires Wide(t, c, cpus) && done <= cpus && m < |t| && forall k :: 0 <= k < |order| ==> order[k] < |t|
    ensures Total(t, FlushAll(t, cpus, c, order, done), m) == Total(t, c, m)
  {
    if done > 0 {
      FlushAllConserves(t, cpus, c, order, done - 1, m);
      FlushCpuConserves(t, cpus, FlushAll(t, cpus, c, order, done - 1), order, done - 1, m);
    }
  }

  /**
   After any history of updates and partial flushes, a complete bottom-up flush leaves in the
   aggregate of m exactly the updates ever made in its subtree.
   */
  lemma FlushedAggregateIsExact(t: Tree, cpus: nat, ops: seq<Op>, order: seq<nat>, m: nat)
    requires OpsOk(t, cpus, ops) && m < |t| && cpus > 0 && BottomUp(t, m, order)
    ensures FlushAll(t, cpus, After(t, cpus, Zero(t, cpus), ops), order, cpus).agg[m] == Made(t, ops, m)
  {
    var c := After(t, cpus, Zero(t, cpus), ops);
    AllUpdatesAccounted(t, cpus, ops, m);
    FlushAllConserves(t, cpus, c, order, cpus, m);
    FlushAllClears(t, cpus, c, order, m, cpus);
    NothingOnTheWay(t, FlushAll(t, cpus, c, order, cpus), m, |t|);
  }
}
