/** The arrays behind the statistics and the code that updates and flushes them in place. */
module MemcgTable {
  import opened Wrappers
  import opened CgroupTree
  import opened MemcgColumn
  import opened MemcgStats

  class StatTable {
    const parents: Tree
    const cpus: nat
    const nodeItems: seq<nat>
    const memcgItems: seq<nat>
    const index: array<int>        // by item
    const state: array2<int>       // memcg, item
    const pending: array2<int>     // memcg, item
    const cur: array3<int>         // memcg, cpu, slot
    const prev: array3<int>        // memcg, cpu, slot

    ghost const items: seq<nat> := nodeItems + memcgItems

    predicate Layout() {
      && state != pending && cur != prev
      && state.Length0 == pending.Length0 == |parents|
      && state.Length1 == pending.Length1 == index.Length
      && cur.Length0 == prev.Length0 == |parents|
      && cur.Length1 == prev.Length1 == cpus
      && cur.Length2 == prev.Length2 == |nodeItems| + |memcgItems|
    }

    ghost predicate Valid()
      reads index
    {
      && Layout()
      && Listing(items, index.Length)
      && (forall item :: 0 <= item < index.Length ==> index[item] - 1 == SlotOf(items, item))
    }

    /** The column c is what the table holds for slot i. */
    ghost predicate Shows(i: nat, c: Col)
      requires Layout() && Listing(items, index.Length) && i < |items|
      reads state, pending, cur, prev
    {
      && Wide(parents, c, cpus)
      && (forall m :: 0 <= m < |parents| ==> state[m, items[i]] == c.agg[m] && pending[m, items[i]] == c.pend[m])
      && (forall m, k :: 0 <= m < |parents| && 0 <= k < cpus ==>
            cur[m, k, i] == c.cur[m][k] && prev[m, k, i] == c.prev[m][k])
    }

    ghost predicate ShowsAll(cols: seq<Col>)
      requires Layout() && Listing(items, index.Length)
      reads state, pending, cur, prev
    {
      |cols| == |items| && forall i :: 0 <= i < |items| ==> Shows(i, cols[i])
    }

    /** Counters that are all zero show columns nothing has happened to. */
    lemma ZeroShowsFresh()
      requires Layout() && Listing(items, index.Length)
      requires forall m, j :: 0 <= m < |parents| && 0 <= j < index.Length ==> state[m, j] == 0 && pending[m, j] == 0
      requires forall m, k, i :: 0 <= m < |parents| && 0 <= k < cpus && 0 <= i < |items| ==>
        cur[m, k, i] == 0 && prev[m, k, i] == 0
      ensures ShowsAll(Fresh(parents, cpus, |items|))
    {
      forall i: nat | i < |items| ensures Shows(i, Fresh(parents, cpus, |items|)[i]) {
      }
    }

    /** All counters zero, the index table filled by init_memcg_stats(). */
    constructor (parents: Tree, cpus: nat, nodeItems: seq<nat>, memcgItems: seq<nat>, total: nat)
      requires Listing(nodeItems + memcgItems, total)
      ensures this.parents == parents && this.cpus == cpus && index.Length == total
      ensures this.nodeItems == nodeItems && this.memcgItems == memcgItems
      ensures Valid() && ShowsAll(Fresh(parents, cpus, |items|))
      ensures fresh(index) && fresh(state) && fresh(pending) && fresh(cur) && fresh(prev)
    {
      var slots := |nodeItems| + |memcgItems|;
      this.parents, this.cpus, this.nodeItems, this.memcgItems := parents, cpus, nodeItems, memcgItems;
      index := new int[total](_ => 0);
      state := new int[|parents|, total]((_, _) => 0);
      pending := new int[|parents|, total]((_, _) => 0);
      cur := new int[|parents|, cpus, slots]((_, _, _) => 0);
      prev := new int[|parents|, cpus, slots]((_, _, _) => 0);
      new;
      ZeroShowsFresh();
      InitIndex(index, nodeItems, memcgItems);
    }

    /** __mod_memcg_state() and __count_memcg_events() */
    method ModState(m: nat, cpu: nat, idx: nat, val: int, ghost cols: seq<Col>)
      requires Valid() && ShowsAll(cols) && m < |parents| && cpu < cpus && idx < index.Length
      modifies cur
      ensures ShowsAll(DoCompact(parents, cpus, items, cols, Mod(m, cpu, idx, val)))
    {
      var i := index[idx] - 1;
      if i < 0 {
        return;
      }
      cur[m, cpu, i] := cur[m, cpu, i] + val;
    }

    /** The item behind a slot, found in the two lists. */
    method ItemOf(i: nat) returns (item: nat)
      requires i < |nodeItems| + |memcgItems|
      ensures item == items[i]
    {
      item := if i < |nodeItems| then nodeItems[i] else memcgItems[i - |nodeItems|];
    }

    /** What one turn of the flush loop does to the arrays. */
    twostate predicate SlotFlushed(m: nat, cpu: nat, i: nat)
      requires Layout() && Listing(items, index.Length) && i < |items| && m < |parents| && cpu < cpus
      reads state, pending, cur, prev
    {
      var item := items[i];
      var delta := old(pending[m, item] + cur[m, cpu, i] - prev[m, cpu, i]);
      && (forall d, x :: 0 <= d < |parents| && 0 <= x < index.Length ==>
            state[d, x] == old(state[d, x]) + if d == m && x == item then delta else 0)
      && (forall d, x :: 0 <= d < |parents| && 0 <= x < index.Length ==>
            pending[d, x] == (if d == m && x == item then 0 else old(pending[d, x]))
              + if parents[m] == Some(d) && x == item then delta else 0)
      && (forall d, k, j :: 0 <= d < |parents| && 0 <= k < cpus && 0 <= j < |items| ==>
            prev[d, k, j] == if d == m && k == cpu && j == i then cur[d, k, j] else old(prev[d, k, j]))
      && (forall d, k, j :: 0 <= d < |parents| && 0 <= k < cpus && 0 <= j < |items| ==>
            cur[d, k, j] == old(cur[d, k, j]))
    }

    /** One turn of the state loop in mem_cgroup_css_rstat_flush(). */
    method FlushSlot(m: nat, cpu: nat, i: nat)
      requires Valid() && i < |items| && m < |parents| && cpu < cpus
      modifies state, pending, prev
      ensures SlotFlushed(m, cpu, i)
    {
      var item := ItemOf(i);
      var delta := pending[m, item];
      if delta != 0 {
        pending[m, item] := 0;
      }
      var v := cur[m, cpu, i];
      if v != prev[m, cpu, i] {
        delta := delta + (v - prev[m, cpu, i]);
        prev[m, cpu, i] := v;
      }
      if delta == 0 {
        return;
      }
      state[m, item] := state[m, item] + delta;
      if parents[m].Some? {
        pending[parents[m].value, item] := pending[parents[m].value, item] + delta;
      }
    }

    /** The same, seen as columns. */
    method FlushSlotShown(m: nat, cpu: nat, i: nat, ghost cols: seq<Col>)
      requires Valid() && i < |items| && m < |parents| && cpu < cpus && ShowsAll(cols)
      modifies state, pending, prev
      ensures SlotFlushed(m, cpu, i)
      ensures ShowsAll(cols[i := Flush(parents, cols[i], m, cpu)])
    {
      FlushSlot(m, cpu, i);
      assert old(Shows(i, cols[i]));
      forall j | 0 <= j < |items| && j != i ensures Shows(j, cols[j]) {
        assert old(Shows(j, cols[j])) && items[j] != items[i];
      }
    }

    /** mem_cgroup_css_rstat_flush(); what belongs to unlisted items stays as it was. */
    method RstatFlush(m: nat, cpu: nat, ghost cols: seq<Col>)
      requires Valid() && ShowsAll(cols) && AllWide(parents, cpus, cols) && m < |parents| && cpu < cpus
      modifies state, pending, prev
      ensures ShowsAll(FlushEach(parents, cpus, cols, m, cpu))
      ensures forall d, x :: 0 <= d < |parents| && 0 <= x < index.Length && x !in items ==>
        state[d, x] == old(state[d, x]) && pending[d, x] == old(pending[d, x])
    {
      ghost var now := cols;
      for i := 0 to |nodeItems| + |memcgItems|
        invariant |now| == |cols| && ShowsAll(now)
        invariant forall j :: 0 <= j < |items| ==>
          now[j] == if j < i then Flush(parents, cols[j], m, cpu) else cols[j]
        invariant forall d, x :: 0 <= d < |parents| && 0 <= x < index.Length && x !in items ==>
          state[d, x] == old(state[d, x]) && pending[d, x] == old(pending[d, x])
      {
        FlushSlotShown(m, cpu, i, now);
        now := now[i := Flush(parents, cols[i], m, cpu)];
      }
      assert now == FlushEach(parents, cpus, cols, m, cpu);
    }
  }
}
