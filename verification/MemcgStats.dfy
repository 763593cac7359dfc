/**
 The compact per-cpu statistics: only the listed items have a per-cpu slot, the aggregates stay
 indexed by item.
 */
module MemcgStats {
  import opened CgroupTree
  import opened MemcgColumn

  const S8_MAX := 127

  /** items[i] is the item behind slot i. */
  predicate Listing(items: seq<nat>, total: nat) {
    && total < S8_MAX
    && (forall i :: 0 <= i < |items| ==> items[i] < total)
    && (forall i, j :: 0 <= i < j < |items| ==> items[i] != items[j])
  }

  /** Slots are fewer than items, so that a slot number fits the table's s8. */
  lemma ListingFits(items: seq<nat>, total: nat)
    requires Listing(items, total)
    ensures |items| <= total < S8_MAX
  {
    ElementsCount(items);
    SubsetIsSmaller(Elements(items), Upto(total));
  }

  ghost function Elements(items: seq<nat>): (r: set<nat>)
    ensures forall x :: x in r <==> x in items
  {
    set x | x in items
  }

  lemma {:induction false} ElementsCount(items: seq<nat>)
    requires forall i, j :: 0 <= i < j < |items| ==> items[i] != items[j]
    ensures |Elements(items)| == |items|
  {
    if items != [] {
      var k := |items| - 1;
      ElementsCount(items[..k]);
      assert items == items[..k] + [items[k]];
      assert Elements(items) == Elements(items[..k]) + {items[k]};
    }
  }

  ghost function Upto(n: nat): (r: set<nat>)
    ensures |r| == n && forall x :: x in r <==> 0 <= x < n
  {
    if n == 0 then {} else Upto(n - 1) + {n - 1}
  }

  lemma {:induction false} SubsetIsSmaller(a: set<nat>, b: set<nat>)
    requires a <= b
    ensures |a| <= |b|
    decreases a
  {
    if x :| x in a {
      SubsetIsSmaller(a - {x}, b - {x});
    }
  }

  /** memcg_stats_index(): the slot of an item, -1 for one without memcg accounting. */
  function SlotOf(items: seq<nat>, item: nat): (r: int)
    ensures -1 <= r < |items|
    ensures r >= 0 ==> items[r] == item
    ensures r == -1 ==> item !in items
  {
    if items == [] then -1
    else if items[|items| - 1] == item then |items| - 1
    else SlotOf(items[..|items| - 1], item)
  }

  /** The one loop body of init_memcg_stats(): entries are handed out from j + 1 on. */
  method FillIndex(table: array<int>, items: seq<nat>, j0: int) returns (j: int)
    requires 0 <= j0 && j0 + |items| < S8_MAX && Listing(items, table.Length)
    modifies table
    ensures j == j0 + |items| < S8_MAX
    ensures forall i :: 0 <= i < |items| ==> table[items[i]] == j0 + i + 1
    ensures forall item :: 0 <= item < table.Length && item !in items ==> table[item] == old(table[item])
  {
    j := j0;
    for i := 0 to |items|
      invariant j == j0 + i
      invariant forall k :: 0 <= k < i ==> table[items[k]] == j0 + k + 1
      invariant forall item :: 0 <= item < table.Length && item !in items[..i] ==> table[item] == old(table[item])
    {
      j := j + 1;
      table[items[i]] := j;
      assert items[..i + 1] == items[..i] + [items[i]];
    }
  }

  /**
   init_memcg_stats(): node items first, memcg-only items after them.  Running it again, as
   every new root does, changes nothing.
   */
  method InitIndex(table: array<int>, nodeItems: seq<nat>, memcgItems: seq<nat>)
    requires Listing(nodeItems + memcgItems, table.Length)
    requires forall item :: 0 <= item < table.Length ==>
      table[item] == 0 || table[item] == SlotOf(nodeItems + memcgItems, item) + 1
    modifies table
    ensures forall item :: 0 <= item < table.Length ==> table[item] - 1 == SlotOf(nodeItems + memcgItems, item)
    ensures forall i :: 0 <= i < |nodeItems| ==> SlotOf(nodeItems + memcgItems, nodeItems[i]) == i
  {
    var items := nodeItems + memcgItems;
    ListingFits(items, table.Length);
    assert forall i :: 0 <= i < |nodeItems| ==> items[i] == nodeItems[i];
    assert forall i :: 0 <= i < |memcgItems| ==> items[|nodeItems| + i] == memcgItems[i];
    var j := FillIndex(table, nodeItems, 0);
    j := FillIndex(table, memcgItems, j);
    assert forall i :: 0 <= i < |items| ==> table[items[i]] == i + 1;
  }

  // ---- compact against full-width ----

  datatype StatOp = Mod(m: nat, cpu: nat, item: nat, val: int) | Rstat(m: nat, cpu: nat)

  predicate StatOpOk(t: Tree, cpus: nat, total: nat, op: StatOp) {
    op.m < |t| && op.cpu < cpus && (op.Mod? ==> op.item < total)
  }

  predicate AllWide(t: Tree, cpus: nat, cols: seq<Col>) {
    forall i :: 0 <= i < |cols| ==> Wide(t, cols[i], cpus)
  }

  function FlushEach(t: Tree, cpus: nat, cols: seq<Col>, m: nat, cpu: nat): (r: seq<Col>)
    requires AllWide(t, cpus, cols) && m < |t| && cpu < cpus
    ensures |r| == |cols| && AllWide(t, cpus, r)
    ensures forall i :: 0 <= i < |cols| ==> r[i] == Flush(t, cols[i], m, cpu)
  {
    if cols == [] then []
    else FlushEach(t, cpus, cols[..|cols| - 1], m, cpu) + [Flush(t, cols[|cols| - 1], m, cpu)]
  }

  /** The full-width statistics: a column per item. */
  function DoFull(t: Tree, cpus: nat, full: seq<Col>, op: StatOp): (r: seq<Col>)
    requires AllWide(t, cpus, full) && StatOpOk(t, cpus, |full|, op)
    ensures |r| == |full| && AllWide(t, cpus, r)
  {
    match op
    case Mod(m, cpu, item, val) => full[item := Update(t, full[item], m, cpu, val)]
    case Rstat(m, cpu) => FlushEach(t, cpus, full, m, cpu)
  }

  /** The compact statistics: a column per slot; updates of unlisted items are dropped. */
  function DoCompact(t: Tree, cpus: nat, items: seq<nat>, slots: seq<Col>, op: StatOp): (r: seq<Col>)
    requires |slots| == |items| && AllWide(t, cpus, slots) && op.m < |t| && op.cpu < cpus
    ensures |r| == |items| && AllWide(t, cpus, r)
  {
    match op
    case Mod(m, cpu, item, val) =>
      var i := SlotOf(items, item);
      if i < 0 then slots else slots[i := Update(t, slots[i], m, cpu, val)]
    case Rstat(m, cpu) => FlushEach(t, cpus, slots, m, cpu)
  }

  ghost predicate Agrees(items: seq<nat>, slots: seq<Col>, full: seq<Col>) {
    |slots| == |items| && forall i :: 0 <= i < |items| && items[i] < |full| ==> slots[i] == full[items[i]]
  }

  lemma StepAgrees(t: Tree, cpus: nat, items: seq<nat>, slots: seq<Col>, full: seq<Col>, op: StatOp)
    requires Listing(items, |full|) && Agrees(items, slots, full)
    requires AllWide(t, cpus, full) && AllWide(t, cpus, slots) && StatOpOk(t, cpus, |full|, op)
    ensures Agrees(items, DoCompact(t, cpus, items, slots, op), DoFull(t, cpus, full, op))
  {
  }

  function RunFull(t: Tree, cpus: nat, full: seq<Col>, ops: seq<StatOp>): (r: seq<Col>)
    requires AllWide(t, cpus, full) && forall k :: 0 <= k < |ops| ==> StatOpOk(t, cpus, |full|, ops[k])
    ensures |r| == |full| && AllWide(t, cpus, r)
  {
    if ops == [] then full else DoFull(t, cpus, RunFull(t, cpus, full, ops[..|ops| - 1]), ops[|ops| - 1])
  }

  function RunCompact(t: Tree, cpus: nat, items: seq<nat>, slots: seq<Col>, ops: seq<StatOp>): (r: seq<Col>)
    requires |slots| == |items| && AllWide(t, cpus, slots)
    requires forall k :: 0 <= k < |ops| ==> ops[k].m < |t| && ops[k].cpu < cpus
    ensures |r| == |items| && AllWide(t, cpus, r)
  {
    if ops == [] then slots
    else DoCompact(t, cpus, items, RunCompact(t, cpus, items, slots, ops[..|ops| - 1]), ops[|ops| - 1])
  }

  function Fresh(t: Tree, cpus: nat, width: nat): (r: seq<Col>)
    ensures |r| == width && AllWide(t, cpus, r) && forall i :: 0 <= i < width ==> r[i] == Zero(t, cpus)
  {
    seq(width, _ => Zero(t, cpus))
  }

  ghost predicate HistoryOk(t: Tree, cpus: nat, total: nat, ops: seq<StatOp>) {
    forall k :: 0 <= k < |ops| ==> StatOpOk(t, cpus, total, ops[k])
  }

  /** Compact and full-width statistics agree on every listed item after any history. */
  lemma {:induction false} CompactRefinesFull(t: Tree, cpus: nat, items: seq<nat>, total: nat, ops: seq<StatOp>)
    requires Listing(items, total) && HistoryOk(t, cpus, total, ops)
    ensures
      assert forall k :: 0 <= k < |ops| ==> StatOpOk(t, cpus, total, ops[k]);
      Agrees(items, RunCompact(t, cpus, items, Fresh(t, cpus, |items|), ops),
        RunFull(t, cpus, Fresh(t, cpus, total), ops))
  {
    if ops != [] {
      var rest := ops[..|ops| - 1];
      CompactRefinesFull(t, cpus, items, total, rest);
      StepAgrees(t, cpus, items, RunCompact(t, cpus, items, Fresh(t, cpus, |items|), rest),
        RunFull(t, cpus, Fresh(t, cpus, total), rest), ops[|ops| - 1]);
    }
  }

  /** What a history means for one item. */
  function Project(ops: seq<StatOp>, item: nat): seq<Op> {
    if ops == [] then []
    else
      var op := ops[|ops| - 1];
      var rest := Project(ops[..|ops| - 1], item);
      if op.Rstat? then rest + [Flushed(op.m, op.cpu)]
      else if op.item == item then rest + [Updated(op.m, op.cpu, op.val)]
      else rest
  }

  lemma {:induction false} FullColumn(t: Tree, cpus: nat, total: nat, ops: seq<StatOp>, item: nat)
    requires HistoryOk(t, cpus, total, ops) && item < total
    ensures OpsOk(t, cpus, Project(ops, item))
    ensures
      assert forall k :: 0 <= k < |ops| ==> StatOpOk(t, cpus, total, ops[k]);
      RunFull(t, cpus, Fresh(t, cpus, total), ops)[item] == After(t, cpus, Zero(t, cpus), Project(ops, item))
  {
    if ops != [] {
      var rest, op := ops[..|ops| - 1], ops[|ops| - 1];
      FullColumn(t, cpus, total, rest, item);
      var p := Project(rest, item);
      if Project(ops, item) != p {
        assert Project(ops, item)[..|p|] == p;
      }
    }
  }

  /**
   The compact statistics are exact: after any history and a complete bottom-up flush, the
   aggregate of a listed item at m is the sum of all updates of that item in m's subtree.
   */
  lemma CompactFlushIsExact(
    t: Tree, cpus: nat, items: seq<nat>, total: nat, ops: seq<StatOp>, i: nat, order: seq<nat>, m: nat)
    requires Listing(items, total) && HistoryOk(t, cpus, total, ops) && i < |items|
    requires m < |t| && cpus > 0 && BottomUp(t, m, order)
    ensures OpsOk(t, cpus, Project(ops, items[i]))
    ensures
      assert forall k :: 0 <= k < |ops| ==> StatOpOk(t, cpus, total, ops[k]);
      var col := RunCompact(t, cpus, items, Fresh(t, cpus, |items|), ops)[i];
      FlushAll(t, cpus, col, order, cpus).agg[m] == Made(t, Project(ops, items[i]), m)
  {
    CompactRefinesFull(t, cpus, items, total, ops);
    FullColumn(t, cpus, total, ops, items[i]);
    FlushedAggregateIsExact(t, cpus, Project(ops, items[i]), order, m);
  }
}
