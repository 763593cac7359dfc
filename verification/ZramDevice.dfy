/** The code that runs under the slot lock and over the request lists, as it changes them in place. */
module ZramDevice {
  import opened Wrappers
  import opened ZramSlots
  import opened ZramWriteback

  class Zram {
    const table: array<Slot>
    const unit: nat          // budget units per page
    var busy: set<nat>
    var media: map<nat, nat>
    var hugePages: int
    var comprSize: int
    var stored: int
    var limitEnable: bool
    var limit: int
    var written: nat

    ghost function View(): Dev
      reads this, table
    {
      Dev(table[..], busy, media, hugePages, comprSize, stored)
    }

    constructor (pages: nat, unit: nat)
      ensures this.unit == unit && fresh(table) && table.Length == pages
      ensures StatsExact(View()) && SlotsOk(View()) && busy == {}
    {
      this.unit := unit;
      table := new Slot[pages](_ => Slot(0, false, false, false, false, false, false, 0, 0, 0));
      busy, media, hugePages, comprSize, stored := {}, map[], 0, 0, 0;
      limitEnable, limit, written := false, 0, 0;
      new;
      EmptyTable(table[..]);
    }

    /** What zram_free_page() clears whatever the slot holds. */
    method ClearFlags(i: nat)
      requires i < table.Length
      modifies this`hugePages, table
      ensures table[..] == old(table[..])[i := old(table[i]).(idle := false, huge := false, incompressible := false, prio := 0)]
      ensures hugePages == old(hugePages) - (if old(table[i]).huge && !old(table[i]).wb then 1 else 0)
    {
      ghost var was := table[..];
      if table[i].idle {
        table[i] := table[i].(idle := false);
      }
      if table[i].huge {
        table[i] := table[i].(huge := false);
        if !table[i].wb {
          hugePages := hugePages - 1;
        }
      }
      table[i] := table[i].(incompressible := false, prio := 0);
      assert table[..] == was[i := table[i]];
    }

    /** zram_free_page(), called with the slot lock held. */
    method FreePage(i: nat)
      requires i < table.Length
      modifies this`busy, this`hugePages, this`comprSize, this`stored, table
      ensures View() == ZramSlots.FreePage(old(View()), i)
    {
      ClearFlags(i);
      ghost var was := table[..];
      if table[i].wb {
        table[i] := table[i].(wb := false);
        busy := busy - {table[i].element};
      } else if table[i].same {
        table[i] := table[i].(same := false);
      } else if table[i].size == 0 {
        assert table[..] == was[i := table[i]];
        return;
      } else {
        comprSize := comprSize - table[i].size;
      }
      stored := stored - 1;
      table[i] := table[i].(element := 0, size := 0);
      assert table[..] == was[i := table[i]];
    }

    /** Unmark the slot and give the block back: the write failed or the slot is another by now. */
    method Discard(i: nat, blk: nat)
      requires i < table.Length
      modifies this`busy, table
      ensures View() == Put(old(View()), i, Marked(old(table[i]), false, false)).(busy := old(busy) - {blk})
    {
      ghost var was := table[..];
      busy := busy - {blk};
      table[i] := table[i].(underWb := false);
      table[i] := table[i].(idle := false);
      assert table[..] == was[i := table[i]];
    }

    /** The block takes the object's place, the slot's metadata stays. */
    method TakeOver(i: nat, blk: nat)
      requires i < table.Length
      modifies this`hugePages, this`comprSize, table
      ensures View() == WriteBack(old(View()), i, blk)
    {
      ghost var was := table[..];
      table[i] := table[i].(idle := false);
      if table[i].huge {
        hugePages := hugePages - 1;
      }
      comprSize := comprSize - table[i].size;
      table[i] := table[i].(underWb := false);
      table[i] := table[i].(wb := true);
      table[i] := table[i].(element := blk);
      assert table[..] == was[i := table[i]];
    }

    /** zram_writeback_complete() */
    method WritebackComplete(q: Req) returns (err: bool)
      requires q.phase.Done? && q.index < table.Length
      modifies this`busy, this`hugePages, this`comprSize, this`limit, this`written, table
      ensures View() == Completed(old(View()), q)
      ensures err == !q.phase.ok
      ensures limit == (if err && limitEnable then old(limit) + unit else old(limit))
      ensures written == (if err then old(written) else old(written) + 1)
    {
      err := !q.phase.ok;
      if err {
        if limitEnable {
          limit := limit + unit;
        }
        Discard(q.index, q.blk);
        return;
      }
      written := written + 1;
      if !Allocated(table[q.index]) || !table[q.index].idle {
        Discard(q.index, q.blk);
        return;
      }
      TakeOver(q.index, q.blk);
    }
  }

  lemma {:induction false} EmptyTable(t: seq<Slot>)
    requires forall i :: 0 <= i < |t| ==> t[i] == Slot(0, false, false, false, false, false, false, 0, 0, 0)
    ensures Sum(t, HugeOf) == 0 && Sum(t, SizeOf) == 0 && Sum(t, StoredOf) == 0
  {
    if t != [] {
      EmptyTable(t[1..]);
    }
  }

  ghost predicate Listed(l: seq<ReqId>, reqs: map<ReqId, Req>, phase: Phase -> bool) {
    && (forall i, j :: 0 <= i < j < |l| ==> l[i] != l[j])
    && (forall r :: r in l <==> r in reqs && phase(reqs[r].phase))
  }

  /** struct zram_wb_ctl: the pool and its two lists. */
  class WbCtl {
    var reqs: map<ReqId, Req>
    var idleReqs: seq<ReqId>
    var doneReqs: seq<ReqId>
    var numInflight: int

    ghost predicate Valid()
      reads this
    {
      && Listed(idleReqs, reqs, (p: Phase) => p.Idle?)
      && Listed(doneReqs, reqs, (p: Phase) => p.Done?)
    }

    ghost function View(z: Zram): Ctl
      reads this, z
    {
      Ctl(reqs, numInflight, z.limitEnable, z.limit, z.written)
    }

    /** init_wb_ctl(): as many requests as can be allocated, up to the batch size. */
    constructor (batch: nat, granted: nat)
      ensures Valid() && numInflight == 0 && doneReqs == []
      ensures |idleReqs| == if batch < granted then batch else granted
      ensures forall r :: r in reqs ==> reqs[r].phase.Idle?
    {
      reqs, idleReqs, doneReqs, numInflight := map[], [], [], 0;
      new;
      var i := 0;
      while i < batch
        invariant 0 <= i <= batch && i <= granted
        invariant numInflight == 0 && doneReqs == [] && |idleReqs| == i
        invariant forall r: ReqId :: r in reqs <==> r < i
        invariant forall r :: r in reqs ==> reqs[r].phase.Idle?
        invariant Listed(idleReqs, reqs, (p: Phase) => p.Idle?)
      {
        if i == granted {
          break;
        }
        assert i !in idleReqs;
        reqs := reqs[i := Req(Idle, 0, 0, 0)];
        idleReqs := [i] + idleReqs;
        i := i + 1;
      }
    }

    /** zram_select_idle_req() */
    method SelectIdleReq(z: Zram) returns (r: Option<ReqId>)
      requires Valid()
      modifies this`reqs, this`idleReqs
      ensures Valid()
      ensures r.None? <==> !HasIdle(old(View(z)))
      ensures r.None? ==> reqs == old(reqs)
      ensures r.Some? ==>
        && r.value in old(reqs) && old(reqs)[r.value].phase.Idle?
        && reqs == old(reqs)[r.value := old(reqs)[r.value].(phase := Selected)]
    {
      if idleReqs == [] {
        return None;
      }
      assert idleReqs[0] in idleReqs;
      r := Some(idleReqs[0]);
      reqs := reqs[r.value := reqs[r.value].(phase := Selected)];
      idleReqs := idleReqs[1..];
    }

    /** zram_submit_wb_request() for the slot at index, under the reservation blk. */
    method SubmitWbRequest(z: Zram, r: ReqId, index: nat, blk: nat)
      requires Valid() && r in reqs && reqs[r].phase.Selected? && index < z.table.Length
      modifies this`reqs, this`numInflight, z`limit
      ensures Valid()
      ensures
        var c := Charge(old(View(z)), z.unit);
        View(z) == c.(
          numInflight := old(numInflight) + 1,
          reqs := old(reqs)[r := Req(InFlight, index, blk, z.table[index].gen)])
    {
      reqs := reqs[r := Req(InFlight, index, blk, z.table[index].gen)];
      if z.limitEnable && z.limit > 0 {
        z.limit := if z.limit >= z.unit then z.limit - z.unit else z.limit - z.unit + U64;
      }
      numInflight := numInflight + 1;
    }

    /** zram_writeback_endio() */
    method WritebackEndio(z: Zram, r: ReqId, ok: bool)
      requires Valid() && r in reqs && reqs[r].phase.InFlight?
      modifies this`reqs, this`doneReqs
      ensures Valid() && reqs == old(reqs)[r := old(reqs)[r].(phase := Done(ok))]
    {
      reqs := reqs[r := reqs[r].(phase := Done(ok))];
      doneReqs := [r] + doneReqs;
    }

    /** One turn of zram_complete_done_reqs(): the first done request. */
    method CompleteFirst(z: Zram, ghost s: State) returns (r: ReqId, failed: bool)
      requires Valid() && s.dev == z.View() && s.ctl == View(z) && s.unit == z.unit
      requires doneReqs != []
      requires forall r :: r in reqs && reqs[r].phase.Done? ==> reqs[r].index < z.table.Length
      modifies this`reqs, this`idleReqs, this`doneReqs, this`numInflight
      modifies z`busy, z`hugePages, z`comprSize, z`limit, z`written, z.table
      ensures Valid() && |doneReqs| == |old(doneReqs)| - 1
      ensures r in s.ctl.reqs && s.ctl.reqs[r].phase == Done(!failed) && s.ctl.reqs[r].index < |s.dev.table|
      ensures s.(dev := z.View(), ctl := View(z)) == CompleteOne(s, r)
      ensures DoneSince(s, reqs)
    {
      r := doneReqs[0];
      assert r in doneReqs;
      doneReqs := doneReqs[1..];
      failed := z.WritebackComplete(reqs[r]);
      numInflight := numInflight - 1;
      reqs := reqs[r := reqs[r].(phase := Idle, blk := 0)];
      idleReqs := [r] + idleReqs;
    }

    /**
     zram_complete_done_reqs(): completes done requests one by one, as CompleteDone steps do,
     until none is left or nothing is in flight; err tells whether one of them failed.
     */
    method CompleteDoneReqs(z: Zram, ghost s: State) returns (err: bool, ghost order: seq<ReqId>)
      requires Valid() && s.dev == z.View() && s.ctl == View(z) && s.unit == z.unit && s.sw.pc.Completing?
      requires forall r :: r in reqs && reqs[r].phase.Done? ==> reqs[r].index < z.table.Length
      modifies this`reqs, this`idleReqs, this`doneReqs, this`numInflight
      modifies z`busy, z`hugePages, z`comprSize, z`limit, z`written, z.table
      ensures Valid() && CompletesTo(s, order, s.(dev := z.View(), ctl := View(z)))
      ensures numInflight <= 0 || doneReqs == []
      ensures err <==> AnyFailed(s, order)
    {
      err, order := false, [];
      while numInflight > 0
        invariant Valid() && CompletesTo(s, order, s.(dev := z.View(), ctl := View(z)))
        invariant DoneSince(s, reqs) && (err <==> AnyFailed(s, order))
        decreases |doneReqs|
      {
        if doneReqs == [] {
          break;
        }
        ghost var m, before := s.(dev := z.View(), ctl := View(z)), order;
        var r, failed := CompleteFirst(z, m);
        err := err || failed;
        order := order + [r];
        CompletesOneMore(s, before, m, r);
        FailedOneMore(s, before, r);
      }
    }
  }

  ghost predicate FailedAt(s: State, r: ReqId) { r in s.ctl.reqs && s.ctl.reqs[r].phase == Done(false) }

  ghost predicate AnyFailed(s: State, order: seq<ReqId>) { exists k :: 0 <= k < |order| && FailedAt(s, order[k]) }

  ghost predicate DoneSince(s: State, reqs: map<ReqId, Req>) {
    forall r :: r in reqs && reqs[r].phase.Done? ==> r in s.ctl.reqs && reqs[r] == s.ctl.reqs[r]
  }

  lemma FailedOneMore(s: State, order: seq<ReqId>, r: ReqId)
    ensures AnyFailed(s, order + [r]) <==> AnyFailed(s, order) || FailedAt(s, r)
  {
    assert forall k :: 0 <= k < |order| ==> (order + [r])[k] == order[k];
    assert (order + [r])[|order|] == r;
  }

  lemma CompletesOneMore(s: State, order: seq<ReqId>, m: State, r: ReqId)
    requires CompletesTo(s, order, m) && Enabled(m, CompleteDone(r))
    ensures CompletesTo(s, order + [r], Apply(m, CompleteDone(r)))
  {
    assert (order + [r])[..|order|] == order;
  }

  /** The state after CompleteDone steps for the requests in order, each enabled in its turn. */
  ghost predicate CompletesTo(s: State, order: seq<ReqId>, t: State)
    decreases |order|
  {
    if order == [] then t == s
    else
      var last := |order| - 1;
      exists m :: CompletesTo(s, order[..last], m) && Enabled(m, CompleteDone(order[last]))
        && t == Apply(m, CompleteDone(order[last]))
  }
}
