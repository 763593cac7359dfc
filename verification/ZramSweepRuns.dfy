/** Theorems about whole runs of a writeback sweep. */
module ZramSweepRuns {
  import opened Wrappers
  import opened CArith
  import opened ZramSlots
  import opened ZramWriteback
  import opened ZramOwnership
  import opened ZramSweepSafety

  // ---- where a sweep starts ----

  datatype Range = Range(index: nat, count: nat)

  /** writeback_store() under init_lock: first index and number of iterations, or -EINVAL. */
  function SweepBounds(mode: Mode, requested: nat, pages: nat): (r: Option<Range>)
    ensures r.None? <==> pages == 0 || (mode == PageMode && requested >= pages)
    ensures r.Some? ==> 0 < r.value.count && r.value.index + r.value.count <= pages
  {
    var index := if mode == PageMode then requested else 0;
    if index >= pages then None else Some(Range(index, if mode == PageMode then 1 else pages))
  }

  /** A page sweep goes over the requested page, any other over all there are. */
  lemma BoundsCover(mode: Mode, requested: nat, pages: nat, i: nat)
    requires SweepBounds(mode, requested, pages).Some?
    ensures
      var r := SweepBounds(mode, requested, pages).value;
      r.index <= i < r.index + r.count <==> i < pages && (mode == PageMode ==> i == requested)
  {
  }

  ghost predicate Quiet(d: Dev) {
    && StatsExact(d) && SlotsOk(d)
    && (forall i :: 0 <= i < |d.table| ==> !d.table[i].underWb)
    && (forall i :: 0 <= i < |d.table| && d.table[i].wb ==>
          && d.table[i].element in d.busy && d.table[i].element != 0
          && d.table[i].element in d.media && d.media[d.table[i].element] == d.table[i].gen)
    && (forall b :: b in d.busy ==> exists i :: 0 <= i < |d.table| && d.table[i].wb && d.table[i].element == b)
    && (forall i, j :: 0 <= i < j < |d.table| && d.table[i].wb && d.table[j].wb ==>
          d.table[i].element != d.table[j].element)
  }

  /** A sweep about to enter its loop on a device nobody else writes back. */
  ghost predicate Init(s: State) {
    && Quiet(s.dev)
    && s.ctl.reqs != map[] && (forall r :: r in s.ctl.reqs ==> s.ctl.reqs[r].phase.Idle?)
    && s.ctl.numInflight == 0 && s.ctl.written == 0
    && s.sw.pc == Head && s.sw.blk == 0 && s.sw.req == None
    && (exists requested ::
          SweepBounds(s.sw.mode, requested, |s.dev.table|) == Some(Range(s.sw.index, s.sw.remaining)))
  }

  /** While completions are being collected there is something to collect or to hand out. */
  ghost predicate Fed(s: State) {
    && (s.sw.pc == Completing(false) ==> HasIdle(s.ctl) || HasDone(s.ctl))
    && (s.sw.pc == Completing(true) ==> s.sw.req == None)
  }

  lemma InitCore(s: State)
    requires Init(s)
    ensures Core(s) && Fed(s) && Out(s.ctl) == {}
  {
    assert Out(s.ctl) == {};
    assert OwnedOnce(s) by {
      forall b | b in s.dev.busy ensures exists o :: Owns(s, o, b) {
        var i :| 0 <= i < |s.dev.table| && s.dev.table[i].wb && s.dev.table[i].element == b;
        assert Owns(s, Entry(i), b);
      }
    }
  }

  ghost predicate IsRun(run: seq<State>, steps: seq<Step>) {
    && |run| == |steps| + 1
    && (forall k :: 0 <= k < |steps| ==> Enabled(run[k], steps[k]) && run[k + 1] == Apply(run[k], steps[k]))
  }

  lemma {:induction false} RunKeeps(run: seq<State>, steps: seq<Step>, k: nat)
    requires IsRun(run, steps) && k <= |steps| && Init(run[0])
    ensures Core(run[k]) && Fed(run[k])
  {
    if k == 0 {
      InitCore(run[0]);
    } else {
      RunKeeps(run, steps, k - 1);
      CoreAfter(run[k - 1], steps[k - 1]);
      FedAfter(run[k - 1], steps[k - 1]);
    }
  }

  lemma FedAfter(s: State, step: Step)
    requires PoolOk(s) && Fed(s) && Enabled(s, step)
    ensures Fed(Apply(s, step))
  {
    var t := Apply(s, step);
    if t.sw.pc == Completing(false) {
      if step.CompleteDone? {
        assert t.ctl.reqs[step.r].phase.Idle?;
      } else if step.EndIo? {
        assert t.ctl.reqs[step.r].phase.Done?;
      } else {
        assert t.ctl == s.ctl;
      }
    }
  }

  // ---- safety in every state of every run ----

  /** Every busy block has exactly one owner; requests and the sweep only ever index the table. */
  lemma BlocksOwnedOnce(run: seq<State>, steps: seq<Step>, k: nat)
    requires IsRun(run, steps) && k <= |steps| && Init(run[0])
    ensures OwnedOnce(run[k])
    ensures run[k].ctl.numInflight == |Out(run[k].ctl)|
    ensures run[k].sw.pc in {AtSlot, Reading} ==> AtIndex(run[k])
    ensures forall r :: r in Out(run[k].ctl) ==> run[k].ctl.reqs[r].index < |run[k].dev.table|
  {
    RunKeeps(run, steps, k);
  }

  /**
   A written-back slot reads back what was stored in it, and the statistics are exact, whatever
   was freed, rewritten or failed in flight.
   */
  lemma WrittenSlotsHoldTheirContents(run: seq<State>, steps: seq<Step>, k: nat, i: nat)
    requires IsRun(run, steps) && k <= |steps| && Init(run[0])
    ensures StatsExact(run[k].dev)
    ensures run[k].dev.hugePages >= 0 && run[k].dev.comprSize >= 0 && run[k].dev.stored >= 0
    ensures i < |run[k].dev.table| && run[k].dev.table[i].wb ==>
              BlockHolds(run[k], run[k].dev.table[i].element, run[k].dev.table[i].gen)
  {
    RunKeeps(run, steps, k);
    StatsNonNegative(run[k].dev);
  }

  /**
   When the sweep drops init_lock nothing is in flight, no slot is left marked and the device
   is as quiet as it was found: every busy block belongs to one written-back slot.
   */
  lemma FinishedIsQuiet(run: seq<State>, steps: seq<Step>, k: nat)
    requires IsRun(run, steps) && k <= |steps| && Init(run[0]) && run[k].sw.pc == Finished
    ensures Out(run[k].ctl) == {} && run[k].sw.blk == 0 && run[k].sw.req == None
    ensures Quiet(run[k].dev)
  {
    RunKeeps(run, steps, k);
    FinishedCore(run[k]);
  }

  lemma FinishedCore(s: State)
    requires Core(s) && s.sw.pc == Finished
    ensures Out(s.ctl) == {} && s.sw.blk == 0 && s.sw.req == None
    ensures Quiet(s.dev)
  {
    assert Out(s.ctl) == {};
    assert forall i :: 0 <= i < |s.dev.table| && s.dev.table[i].underWb ==> Holder(s, i);
    assert forall r :: r in s.ctl.reqs && Outstanding(s.ctl.reqs[r]) ==> r in Out(s.ctl);
    assert forall r :: r in s.ctl.reqs ==> !Outstanding(s.ctl.reqs[r]);
    forall b | b in s.dev.busy
      ensures exists i :: 0 <= i < |s.dev.table| && s.dev.table[i].wb && s.dev.table[i].element == b
    {
      var o :| Owns(s, o, b);
      assert o.Entry?;
    }
    forall i | 0 <= i < |s.dev.table| && s.dev.table[i].wb
      ensures s.dev.table[i].element in s.dev.busy && s.dev.table[i].element != 0
    {
      assert Owns(s, Entry(i), s.dev.table[i].element);
    }
    forall i, j | 0 <= i < j < |s.dev.table| && s.dev.table[i].wb && s.dev.table[j].wb
      ensures s.dev.table[i].element != s.dev.table[j].element
    {
      assert Owns(s, Entry(i), s.dev.table[i].element) && Owns(s, Entry(j), s.dev.table[j].element);
    }
  }

  // ---- progress ----

  /** What is outstanding is done, or its bio can still end. */
  lemma OutstandingMoves(s: State, r: ReqId)
    requires r in s.ctl.reqs && Outstanding(s.ctl.reqs[r]) && !HasDone(s.ctl)
    ensures Enabled(s, EndIo(r, true))
  {
    assert s.ctl.reqs[r].phase.InFlight?;
  }

  lemma NeedReqMoves(s: State)
    requires PoolOk(s) && s.sw.pc == NeedReq
    ensures exists step :: Enabled(s, step) && !TouchesSlot(step)
  {
    if HasIdle(s.ctl) {
      var r :| r in s.ctl.reqs && s.ctl.reqs[r].phase.Idle?;
      assert Enabled(s, SelectIdle(r));
    } else if HasDone(s.ctl) {
      assert Enabled(s, WaitForDone);
    } else {
      var r :| r in s.ctl.reqs;
      assert !s.ctl.reqs[r].phase.Idle? && !s.ctl.reqs[r].phase.Selected?;
      OutstandingMoves(s, r);
    }
  }

  lemma CompletingMoves(s: State)
    requires MarksOk(s) && s.sw.pc.Completing?
    ensures exists step :: Enabled(s, step) && !TouchesSlot(step)
  {
    if s.ctl.numInflight > 0 && HasDone(s.ctl) {
      var r :| r in s.ctl.reqs && s.ctl.reqs[r].phase.Done?;
      assert Enabled(s, CompleteDone(r));
    } else {
      assert Enabled(s, StopCompleting);
    }
  }

  lemma TailMoves(s: State)
    requires PoolOk(s) && s.sw.pc == TailDrain
    ensures exists step :: Enabled(s, step) && !TouchesSlot(step)
  {
    if s.ctl.numInflight <= 0 {
      assert Enabled(s, Finish);
    } else if HasDone(s.ctl) {
      assert Enabled(s, DrainWait);
    } else {
      assert Out(s.ctl) != {};
      var r :| r in Out(s.ctl);
      OutstandingMoves(s, r);
    }
  }

  lemma BlockMoves(s: State)
    requires PoolOk(s) && s.sw.pc == NeedBlk
    ensures exists step :: Enabled(s, step) && !TouchesSlot(step)
  {
    if b: nat :| 0 < b < s.nrBlocks && b !in s.dev.busy {
      assert Enabled(s, AllocBlock(b));
    } else {
      assert Enabled(s, NoSpace);
    }
  }

  lemma SlotMoves(s: State)
    requires PoolOk(s) && s.sw.pc in {AtSlot, Reading}
    ensures exists step :: Enabled(s, step) && !TouchesSlot(step)
  {
    if s.sw.pc == AtSlot {
      assert Enabled(s, SkipSlot) || Enabled(s, MarkSlot);
    } else {
      assert Enabled(s, ReadAndSubmit);
    }
  }

  lemma EndsMove(s: State)
    requires s.sw.pc in {Head, TailBlk, TailReq}
    ensures exists step :: Enabled(s, step) && !TouchesSlot(step)
  {
    if s.sw.pc == Head {
      assert Enabled(s, EndLoop) || Enabled(s, OutOfBudget) || Enabled(s, PassBudget);
    } else {
      assert Enabled(s, ReleaseBlk) || Enabled(s, ReleaseReq);
    }
  }

  /**
   Until it finishes, the sweep can move or is waiting for a bio that is really in flight: it
   never waits for a completion that cannot come.
   */
  lemma NeverStuck(s: State)
    requires Core(s) && s.sw.pc != Finished
    ensures exists step :: Enabled(s, step) && !TouchesSlot(step)
  {
    if s.sw.pc == NeedReq {
      NeedReqMoves(s);
    } else if s.sw.pc.Completing? {
      CompletingMoves(s);
    } else if s.sw.pc == TailDrain {
      TailMoves(s);
    } else if s.sw.pc == NeedBlk {
      BlockMoves(s);
    } else if s.sw.pc in {AtSlot, Reading} {
      SlotMoves(s);
    } else {
      EndsMove(s);
    }
  }

  ghost function Flying(c: Ctl): set<ReqId> {
    set r | r in c.reqs && c.reqs[r].phase.InFlight?
  }

  ghost function Rank(s: State): nat {
    match s.sw.pc
    case Head => 12
    case NeedReq => if HasIdle(s.ctl) then 9 else 11
    case Completing(tail) => if tail then 2 else 10
    case NeedBlk => 8
    case AtSlot => 7
    case Reading => 6
    case TailBlk => 5
    case TailReq => 4
    case TailDrain => if HasDone(s.ctl) then 3 else 1
    case Finished => 0
  }

  /** What the sweep still has to do, counting each bio in flight. */
  ghost function Work(s: State): nat {
    11 * s.sw.remaining + |Out(s.ctl)| + 3 * |Flying(s.ctl)| + Rank(s)
  }

  lemma WorkAfterSelect(s: State, r: ReqId)
    requires PoolOk(s) && Enabled(s, SelectIdle(r))
    ensures Work(Apply(s, SelectIdle(r))) < Work(s)
  {
    var t := Apply(s, SelectIdle(r));
    assert HasIdle(s.ctl) && Out(t.ctl) == Out(s.ctl) && Flying(t.ctl) == Flying(s.ctl);
  }

  lemma WorkAfterComplete(s: State, r: ReqId)
    requires Enabled(s, CompleteDone(r))
    ensures Work(Apply(s, CompleteDone(r))) < Work(s)
  {
    var t := Apply(s, CompleteDone(r));
    assert Out(t.ctl) == Out(s.ctl) - {r} && r in Out(s.ctl) && Flying(t.ctl) == Flying(s.ctl);
  }

  lemma WorkAfterSubmit(s: State)
    requires PoolOk(s) && Enabled(s, ReadAndSubmit)
    ensures Work(Apply(s, ReadAndSubmit)) < Work(s)
  {
    var t, r := Apply(s, ReadAndSubmit), s.sw.req.value;
    assert Out(t.ctl) == Out(s.ctl) + {r} && r !in Out(s.ctl);
    assert Flying(t.ctl) == Flying(s.ctl) + {r} && r !in Flying(s.ctl);
  }

  lemma WorkAfterEndIo(s: State, r: ReqId, ok: bool)
    requires Enabled(s, EndIo(r, ok))
    ensures Work(Apply(s, EndIo(r, ok))) < Work(s)
  {
    var t := Apply(s, EndIo(r, ok));
    assert Out(t.ctl) == Out(s.ctl);
    assert Flying(t.ctl) == Flying(s.ctl) - {r} && r in Flying(s.ctl);
    if HasIdle(s.ctl) {
      var q :| q in s.ctl.reqs && s.ctl.reqs[q].phase.Idle?;
      assert t.ctl.reqs[q].phase.Idle?;
    }
  }

  lemma DoneIsOutstanding(c: Ctl)
    requires HasDone(c)
    ensures |Out(c)| > 0
  {
    var r :| r in c.reqs && c.reqs[r].phase.Done?;
    assert r in Out(c);
  }

  lemma WorkAfterMove(s: State, step: Step)
    requires PoolOk(s) && Fed(s) && Enabled(s, step)
    requires MovesOnly(step) || step.AllocBlock? || step.ReleaseBlk? || step.MarkSlot? || step.ReadFailed?
    ensures Work(Apply(s, step)) < Work(s)
  {
    assert Apply(s, step).ctl == s.ctl;
    if step.StopCompleting? && HasDone(s.ctl) {
      DoneIsOutstanding(s.ctl);
    }
  }

  lemma WorkAfterTouch(s: State, step: Step)
    requires Enabled(s, step) && TouchesSlot(step)
    ensures Work(Apply(s, step)) == Work(s)
  {
    assert Apply(s, step).ctl == s.ctl && Apply(s, step).sw == s.sw;
  }

  lemma WorkAfterReleaseReq(s: State)
    requires PoolOk(s) && Enabled(s, ReleaseReq)
    ensures Work(Apply(s, ReleaseReq)) < Work(s)
  {
    var t := Apply(s, ReleaseReq);
    assert Out(t.ctl) == Out(s.ctl) && Flying(t.ctl) == Flying(s.ctl);
  }

  /** Every step of the sweep and of the block device uses up work; the rest of the world adds none. */
  lemma WorkShrinks(s: State, step: Step)
    requires PoolOk(s) && Fed(s) && Enabled(s, step)
    ensures if TouchesSlot(step) then Work(Apply(s, step)) == Work(s) else Work(Apply(s, step)) < Work(s)
  {
    if TouchesSlot(step) {
      WorkAfterTouch(s, step);
    } else if step.SelectIdle? {
      WorkAfterSelect(s, step.r);
    } else if step.CompleteDone? {
      WorkAfterComplete(s, step.r);
    } else if step.ReadAndSubmit? {
      WorkAfterSubmit(s);
    } else if step.EndIo? {
      WorkAfterEndIo(s, step.r, step.ok);
    } else if step.ReleaseReq? {
      WorkAfterReleaseReq(s);
    } else {
      WorkAfterMove(s, step);
    }
  }

  ghost function Moves(steps: seq<Step>): nat {
    if steps == [] then 0 else Moves(steps[..|steps| - 1]) + (if TouchesSlot(steps[|steps| - 1]) then 0 else 1)
  }

  /**
   A sweep over n slots is over after at most 11 * n + 12 steps of its own and of the block
   device, however much the slots are used meanwhile.
   */
  lemma SweepTerminates(run: seq<State>, steps: seq<Step>)
    requires IsRun(run, steps) && Init(run[0])
    ensures Moves(steps) <= 11 * run[0].sw.remaining + 12
  {
    InitCore(run[0]);
    assert Flying(run[0].ctl) == {};
    MovesUseWork(run, steps);
  }

  lemma {:induction false} MovesUseWork(run: seq<State>, steps: seq<Step>)
    requires IsRun(run, steps) && Init(run[0])
    ensures Moves(steps) + Work(run[|steps|]) <= Work(run[0])
  {
    if steps != [] {
      var k := |steps| - 1;
      assert IsRun(run[..|run| - 1], steps[..k]);
      MovesUseWork(run[..|run| - 1], steps[..k]);
      RunKeeps(run, steps, k);
      WorkShrinks(run[k], steps[k]);
    }
  }

  // ---- the write budget ----

  ghost predicate WholePages(limit: nat, unit: nat) { exists pages: nat :: limit == unit * pages }

  /** writeback_limit_store(): the budget is cut down to whole pages. */
  function StoredLimit(val: nat, unit: nat): (r: nat)
    requires unit > 0
    ensures r <= val < r + unit && WholePages(r, unit)
  {
    assert val - val % unit == unit * (val / unit);
    val - val % unit
  }

  /** budget is the limit in pages at the start of the sweep. */
  ghost predicate BudgetOk(s: State, budget: nat) {
    s.ctl.limitEnable ==>
      var left := budget - s.ctl.numInflight - s.ctl.written;
      && s.ctl.limit == s.unit * left && left >= 0
      && (Busy(s.sw.pc) ==> left > 0)
  }

  lemma BudgetAfterSubmit(s: State, budget: nat)
    requires BudgetOk(s, budget) && Enabled(s, ReadAndSubmit)
    ensures BudgetOk(Apply(s, ReadAndSubmit), budget)
  {
    var left := budget - s.ctl.numInflight - s.ctl.written;
    MulSub(left, 1, s.unit);
    if left > 0 {
      MulMonotone(1, left, s.unit);
    }
  }

  lemma BudgetAfterComplete(s: State, r: ReqId, budget: nat)
    requires BudgetOk(s, budget) && Enabled(s, CompleteDone(r))
    ensures BudgetOk(Apply(s, CompleteDone(r)), budget)
  {
    MulAdd(budget - s.ctl.numInflight - s.ctl.written, 1, s.unit);
  }

  lemma SameBudget(s: State, step: Step)
    requires Enabled(s, step) && !step.ReadAndSubmit? && !step.CompleteDone?
    ensures
      var t := Apply(s, step);
      && t.ctl.limitEnable == s.ctl.limitEnable && t.ctl.limit == s.ctl.limit && t.unit == s.unit
      && t.ctl.numInflight == s.ctl.numInflight && t.ctl.written == s.ctl.written
      && (Busy(t.sw.pc) ==> Busy(s.sw.pc) || !(s.ctl.limitEnable && s.ctl.limit == 0))
  {
  }

  lemma BudgetAfter(s: State, step: Step, budget: nat)
    requires BudgetOk(s, budget) && Enabled(s, step) && s.unit > 0
    ensures BudgetOk(Apply(s, step), budget)
  {
    if step.ReadAndSubmit? {
      BudgetAfterSubmit(s, budget);
    } else if step.CompleteDone? {
      BudgetAfterComplete(s, step.r, budget);
    } else {
      SameBudget(s, step);
    }
  }

  ghost predicate Budgeted(s: State, unit: nat, budget: nat) {
    BudgetOk(s, budget) && s.unit == unit && s.ctl.limitEnable
  }

  lemma {:induction false} RunKeepsBudget(run: seq<State>, steps: seq<Step>, k: nat, unit: nat, budget: nat)
    requires IsRun(run, steps) && k <= |steps| && Init(run[0])
    requires unit > 0 && Budgeted(run[0], unit, budget)
    ensures Budgeted(run[k], unit, budget)
  {
    if k > 0 {
      RunKeepsBudget(run, steps, k - 1, unit, budget);
      RunKeeps(run, steps, k - 1);
      BudgetAfter(run[k - 1], steps[k - 1], budget);
      LimitFixed(run[k - 1], steps[k - 1]);
    }
  }

  /**
   In a sweep that starts with a budget of whole pages, budget left plus budget of the pages in
   flight or written is what it started with.  So the u64 never wraps and no more pages are
   written than the budget allows.
   */
  lemma BudgetConserved(run: seq<State>, steps: seq<Step>, k: nat, budget: nat)
    requires IsRun(run, steps) && k <= |steps| && Init(run[0])
    requires run[0].unit > 0 && run[0].ctl.limitEnable && run[0].ctl.limit == run[0].unit * budget
    ensures
      var c := run[k].ctl;
      && c.limit + run[0].unit * (c.numInflight + c.written) == run[0].ctl.limit
      && c.limit >= 0 && c.numInflight + c.written <= budget
  {
    RunKeepsBudget(run, steps, k, run[0].unit, budget);
    BudgetSplit(run[k].ctl, run[0].unit, budget);
  }

  lemma BudgetSplit(c: Ctl, unit: nat, budget: nat)
    requires c.limit == unit * (budget - c.numInflight - c.written)
    requires budget - c.numInflight - c.written >= 0
    ensures c.limit + unit * (c.numInflight + c.written) == unit * budget && c.limit >= 0
  {
    var used := c.numInflight + c.written;
    assert c.limit == unit * (budget - used);
    MulSub(budget, used, unit);
  }

  lemma LimitFixed(s: State, step: Step)
    requires Enabled(s, step)
    ensures Apply(s, step).unit == s.unit && Apply(s, step).ctl.limitEnable == s.ctl.limitEnable
  {
  }

  /** Charging a budget that is not a whole number of pages wraps exactly when less than a page is left. */
  lemma ChargeWrapsBelowOnePage(c: Ctl, unit: nat)
    requires c.limitEnable && 0 < c.limit < U64 && unit < U64
    ensures Charge(c, unit).limit > c.limit <==> c.limit < unit
    ensures c.limit >= unit > 0 ==> Charge(c, unit).limit == c.limit - unit
  {
  }
}
