/** Which slots a sweep looks at, which of them it takes on, and what becomes of each. */
module ZramSweepVisits {
  import opened Wrappers
  import opened ZramSlots
  import opened ZramWriteback
  import ZramOwnership
  import opened ZramSweepSafety
  import opened ZramSweepRuns

  // ---- every slot of the range, once ----

  /** The sweep decides about slot i: it skips it or marks it. */
  predicate Visits(s: State, step: Step, i: nat) {
    (step.SkipSlot? || step.MarkSlot?) && s.sw.index == i
  }

  /** The first slot the sweep has not decided about. */
  function Front(s: State): nat { s.sw.index + if s.sw.pc == Reading then 1 else 0 }

  lemma FrontAfterAdvance(s: State, step: Step)
    requires Enabled(s, step) && (step.SkipSlot? || step.ReadFailed? || step.ReadAndSubmit?)
    ensures
      var r := Apply(s, step);
      && r.sw.index == s.sw.index + 1 && r.sw.remaining == s.sw.remaining - 1 && r.sw.mode == s.sw.mode
      && r.sw.pc != Reading && (step.SkipSlot? <==> s.sw.pc != Reading)
  {
  }

  lemma FrontAfterStay(s: State, step: Step)
    requires Enabled(s, step) && !(step.SkipSlot? || step.ReadFailed? || step.ReadAndSubmit?)
    ensures
      var r := Apply(s, step);
      && r.sw.index == s.sw.index && r.sw.remaining == s.sw.remaining && r.sw.mode == s.sw.mode
      && (step.MarkSlot? ==> s.sw.pc != Reading && r.sw.pc == Reading)
      && (!step.MarkSlot? ==> (r.sw.pc == Reading <==> s.sw.pc == Reading))
  {
  }

  /** What one step does to the range that is left; only a decision moves the front, by one slot. */
  ghost predicate FrontMoves(s: State, step: Step, r: State) {
    && r.sw.index + r.sw.remaining == s.sw.index + s.sw.remaining && r.sw.mode == s.sw.mode
    && Front(r) == (if step.SkipSlot? || step.MarkSlot? then Front(s) + 1 else Front(s))
    && (step.SkipSlot? || step.MarkSlot? ==> s.sw.index == Front(s))
  }

  lemma FrontStep(run: seq<State>, steps: seq<Step>, k: nat)
    requires IsRun(run, steps) && k < |steps|
    ensures FrontMoves(run[k], steps[k], run[k + 1])
  {
    if steps[k].SkipSlot? || steps[k].ReadFailed? || steps[k].ReadAndSubmit? {
      FrontAfterAdvance(run[k], steps[k]);
    } else {
      FrontAfterStay(run[k], steps[k]);
    }
  }

  lemma {:induction false} RangeStays(run: seq<State>, steps: seq<Step>, k: nat)
    requires IsRun(run, steps) && k <= |steps|
    ensures run[k].sw.index + run[k].sw.remaining == run[0].sw.index + run[0].sw.remaining
    ensures run[k].sw.mode == run[0].sw.mode
  {
    if k > 0 {
      RangeStays(run, steps, k - 1);
      FrontStep(run, steps, k - 1);
    }
  }

  lemma {:induction false} Monotone(f: seq<nat>, k: nat, l: nat)
    requires k <= l < |f| && forall j :: 0 <= j < |f| - 1 ==> f[j] <= f[j + 1]
    ensures f[k] <= f[l]
  {
    if k < l {
      Monotone(f, k, l - 1);
    }
  }

  lemma FrontGrows(run: seq<State>, steps: seq<Step>, k: nat, l: nat)
    requires IsRun(run, steps) && k <= l <= |steps|
    ensures Front(run[k]) <= Front(run[l])
  {
    var f := seq(|run|, j requires 0 <= j < |run| => Front(run[j]));
    forall j | 0 <= j < |f| - 1 ensures f[j] <= f[j + 1] {
      FrontStep(run, steps, j);
    }
    Monotone(f, k, l);
  }

  /** A slot behind the front has been decided about. */
  lemma {:induction false} BehindFront(run: seq<State>, steps: seq<Step>, k: nat, i: nat) returns (j: nat)
    requires IsRun(run, steps) && k <= |steps| && Front(run[0]) <= i < Front(run[k])
    ensures j < k && Visits(run[j], steps[j], i)
  {
    FrontStep(run, steps, k - 1);
    if i < Front(run[k - 1]) {
      j := BehindFront(run, steps, k - 1, i);
    } else {
      j := k - 1;
    }
  }

  lemma VisitedOnce(run: seq<State>, steps: seq<Step>, j: nat, k: nat, i: nat)
    requires IsRun(run, steps) && j < |steps| && k < |steps|
    requires Visits(run[j], steps[j], i) && Visits(run[k], steps[k], i)
    ensures j == k
  {
    var a, b := if j < k then j else k, if j < k then k else j;
    FrontStep(run, steps, a);
    FrontStep(run, steps, b);
    if a < b {
      FrontGrows(run, steps, a + 1, b);
    }
  }

  lemma DecisionTests(s: State, step: Step)
    requires Enabled(s, step) && (step.SkipSlot? || step.MarkSlot?)
    ensures s.sw.index < |s.dev.table|
    ensures
      var x := s.dev.table[s.sw.index];
      step.MarkSlot? <==>
        && (x.size > 0 || x.same || x.wb) && !x.wb && !x.same && !x.underWb
        && (s.sw.mode == IdleMode ==> x.idle) && (s.sw.mode == HugeMode ==> x.huge)
  {
  }

  lemma VisitTests(run: seq<State>, steps: seq<Step>, j: nat, i: nat)
    requires IsRun(run, steps) && j < |steps| && Visits(run[j], steps[j], i)
    ensures i < |run[j].dev.table|
    ensures
      var x, mode := run[j].dev.table[i], run[0].sw.mode;
      steps[j].MarkSlot? <==>
        && x.size > 0 && !x.wb && !x.same && !x.underWb
        && (mode == IdleMode ==> x.idle) && (mode == HugeMode ==> x.huge)
  {
    RangeStays(run, steps, j);
    DecisionTests(run[j], steps[j]);
  }

  /** However the loop ends: the slots decided about are those up to the front, from the first on. */
  lemma DecidedUpToFront(run: seq<State>, steps: seq<Step>, k: nat, i: nat)
    requires IsRun(run, steps) && k <= |steps| && run[0].sw.pc == Head
    ensures (exists j: nat :: j < k && Visits(run[j], steps[j], i)) <==> run[0].sw.index <= i < Front(run[k])
  {
    if j: nat :| j < k && Visits(run[j], steps[j], i) {
      FrontStep(run, steps, j);
      FrontGrows(run, steps, 0, j);
      FrontGrows(run, steps, j + 1, k);
    }
    if run[0].sw.index <= i < Front(run[k]) {
      var j := BehindFront(run, steps, k, i);
    }
  }

  /**
   A sweep that leaves its loop at the end of the range has decided about each slot of the range
   exactly once, and taken it on exactly when it held an object of its own, nobody was writing it
   back and it was what the mode asks for.
   */
  lemma EverySlotOnce(run: seq<State>, steps: seq<Step>, k: nat, i: nat) returns (j: nat)
    requires IsRun(run, steps) && k < |steps| && run[0].sw.pc == Head && steps[k] == EndLoop
    requires run[0].sw.index <= i < run[0].sw.index + run[0].sw.remaining
    ensures j < k && Visits(run[j], steps[j], i)
    ensures forall l: nat :: l < |steps| && Visits(run[l], steps[l], i) ==> l == j
    ensures i < |run[j].dev.table|
    ensures
      var x, mode := run[j].dev.table[i], run[0].sw.mode;
      steps[j].MarkSlot? <==>
        && x.size > 0 && !x.wb && !x.same && !x.underWb
        && (mode == IdleMode ==> x.idle) && (mode == HugeMode ==> x.huge)
  {
    RangeStays(run, steps, k);
    assert Enabled(run[k], steps[k]);
    j := BehindFront(run, steps, k, i);
    VisitTests(run, steps, j, i);
    forall l: nat | l < |steps| && Visits(run[l], steps[l], i) ensures l == j {
      VisitedOnce(run, steps, l, j, i);
    }
  }

  /** For the two modes that go over the device: every slot it has. */
  lemma WholeTableOnce(run: seq<State>, steps: seq<Step>, k: nat, i: nat) returns (j: nat)
    requires IsRun(run, steps) && Init(run[0]) && run[0].sw.mode != PageMode
    requires k < |steps| && steps[k] == EndLoop && i < |run[0].dev.table|
    ensures j < k && Visits(run[j], steps[j], i)
    ensures forall l: nat :: l < |steps| && Visits(run[l], steps[l], i) ==> l == j
    ensures i < |run[j].dev.table|
    ensures
      var x, mode := run[j].dev.table[i], run[0].sw.mode;
      steps[j].MarkSlot? <==>
        && x.size > 0 && !x.wb && !x.same && !x.underWb && (if mode == IdleMode then x.idle else x.huge)
  {
    RangeOfInit(run[0], i);
    j := EverySlotOnce(run, steps, k, i);
  }

  lemma RangeOfInit(s: State, i: nat)
    requires Init(s) && s.sw.mode != PageMode
    ensures i < |s.dev.table| <==> s.sw.index <= i < s.sw.index + s.sw.remaining
  {
  }

  /**
   The sweep leaves its loop at the end of the range, with a limit in force and spent, or when every
   block is taken; in no other state.
   */
  lemma WhyTheLoopEnds(s: State, step: Step)
    requires Enabled(s, step) && !InTail(s.sw.pc) && InTail(Apply(s, step).sw.pc)
    ensures
      || (s.sw.pc == Head && s.sw.remaining == 0)
      || (s.sw.pc == Head && s.ctl.limitEnable && s.ctl.limit == 0)
      || (s.sw.pc == NeedBlk && forall b :: 0 < b < s.nrBlocks ==> b in s.dev.busy)
  {
  }

  predicate InTail(pc: Pc) { pc == TailBlk || pc == TailReq || pc == TailDrain || pc == Completing(true) || pc == Finished }

  /** An idle mark makes a slot one for an idle sweep until somebody reads it; recompression moves no contents. */
  lemma IdleUntilRead(s: State, i: nat)
    requires Enabled(s, MarkIdle(i))
    ensures
      var m, x := Apply(s, MarkIdle(i)), s.dev.table[i];
      && m.dev.table == s.dev.table[i := x.(idle := true)] && Wanted(m.dev.table[i], IdleMode)
      && Apply(m, AccessSlot(i)).dev.table == s.dev.table[i := x.(idle := false)]
      && !Wanted(Apply(m, AccessSlot(i)).dev.table[i], IdleMode)
  {
  }

  lemma RecompressedInPlace(s: State, i: nat, size: nat, prio: nat)
    requires Enabled(s, RecompressSlot(i, size, prio)) && SlotOk(s.dev.table[i])
    ensures
      var x, r := s.dev.table[i], Apply(s, RecompressSlot(i, size, prio));
      && r.dev.table == s.dev.table[i := Slot(size, false, false, false, false, false, false, prio, 0, x.gen)]
      && r.dev.busy == s.dev.busy && r.ctl == s.ctl && r.sw == s.sw
  {
  }

  // ---- what becomes of a submitted slot ----

  /** Somebody frees, rewrites or reads slot i. */
  predicate Disturbs(step: Step, i: nat) {
    (step.FreeSlot? || step.StoreSlot? || step.AccessSlot?) && step.i == i
  }

  /** r is on its way with the contents of slot i to block b. */
  ghost predicate Underway(s: State, r: ReqId, i: nat, b: nat) {
    r in Out(s.ctl) && s.ctl.reqs[r].index == i && s.ctl.reqs[r].blk == b
  }

  lemma SubmitStarts(s: State)
    requires Core(s) && Enabled(s, ReadAndSubmit)
    ensures
      var t, i := Apply(s, ReadAndSubmit), s.sw.index;
      Underway(t, s.sw.req.value, i, s.sw.blk) && t.dev == s.dev && i < |s.dev.table|
  {
    SubmittedReq(s);
  }

  lemma UnderwayStays(s: State, step: Step, r: ReqId, i: nat, b: nat)
    requires PoolOk(s) && Enabled(s, step) && Underway(s, r, i, b) && step != CompleteDone(r)
    ensures Underway(Apply(s, step), r, i, b)
  {
    assert Outstanding(s.ctl.reqs[r]);
  }

  lemma SweepLeavesSlot(s: State, step: Step, r: ReqId, i: nat)
    requires MarksOk(s) && Enabled(s, step) && r in Out(s.ctl) && s.ctl.reqs[r].index == i && step != CompleteDone(r)
    requires MovesMark(step)
    ensures i < |s.dev.table| && |Apply(s, step).dev.table| == |s.dev.table|
    ensures Apply(s, step).dev.table[i] == s.dev.table[i]
  {
    assert Outstanding(s.ctl.reqs[r]);
    if step.CompleteDone? {
      assert step.r in Out(s.ctl);
    }
  }

  lemma DisturbsWhatIsMarked(s: State, step: Step)
    requires Enabled(s, step) && TouchesSlot(step) && s.dev.table[step.i].underWb
    ensures Disturbs(step, step.i)
  {
  }

  lemma TouchLeavesOrDisturbs(s: State, step: Step, i: nat)
    requires Enabled(s, step) && TouchesSlot(step) && i < |s.dev.table| && s.dev.table[i].underWb
    ensures |Apply(s, step).dev.table| == |s.dev.table|
    ensures
      var x := Apply(s, step).dev.table[i];
      (Disturbs(step, i) ==> !x.idle) && (!Disturbs(step, i) ==> x == s.dev.table[i])
  {
    TouchedSlot(s, step);
    if step.i == i {
      DisturbsWhatIsMarked(s, step);
    }
  }

  lemma OthersLeaveTable(s: State, step: Step)
    requires Enabled(s, step) && !MovesMark(step) && !TouchesSlot(step)
    ensures Apply(s, step).dev.table == s.dev.table
  {
  }

  /** While it is underway, its slot changes only when somebody disturbs it, which ends its idleness. */
  ghost predicate SlotKept(s: State, step: Step, t: State, i: nat) {
    && i < |s.dev.table| == |t.dev.table|
    && (Disturbs(step, i) ==> !t.dev.table[i].idle)
    && (!Disturbs(step, i) ==> t.dev.table[i] == s.dev.table[i])
  }

  lemma StepKeepsSlot(s: State, step: Step, r: ReqId, i: nat)
    requires MarksOk(s) && Enabled(s, step) && r in Out(s.ctl) && s.ctl.reqs[r].index == i && step != CompleteDone(r)
    ensures SlotKept(s, step, Apply(s, step), i)
  {
    if MovesMark(step) {
      SweepLeavesSlot(s, step, r, i);
    } else {
      SlotOfMarked(s, r);
      MarkedSlotKept(s, step, i);
    }
  }

  lemma MarkedSlotKept(s: State, step: Step, i: nat)
    requires Enabled(s, step) && !MovesMark(step) && i < |s.dev.table| && s.dev.table[i].underWb
    ensures SlotKept(s, step, Apply(s, step), i)
  {
    if TouchesSlot(step) {
      TouchLeavesOrDisturbs(s, step, i);
    } else {
      OthersLeaveTable(s, step);
    }
  }

  lemma SlotStep(run: seq<State>, steps: seq<Step>, k: nat, r: ReqId, i: nat, b: nat)
    requires IsRun(run, steps) && Init(run[0]) && k < |steps| && Underway(run[k], r, i, b)
    requires steps[k] != CompleteDone(r)
    ensures Underway(run[k + 1], r, i, b) && SlotKept(run[k], steps[k], run[k + 1], i)
  {
    RunKeeps(run, steps, k);
    UnderwayStays(run[k], steps[k], r, i, b);
    StepKeepsSlot(run[k], steps[k], r, i);
  }

  lemma SlotOfMarked(s: State, r: ReqId)
    requires MarksOk(s) && r in Out(s.ctl)
    ensures s.ctl.reqs[r].index < |s.dev.table| && s.dev.table[s.ctl.reqs[r].index].underWb
  {
    assert Outstanding(s.ctl.reqs[r]);
  }

  /** Nobody disturbs slot i in the steps from k up to l. */
  ghost predicate Undisturbed(steps: seq<Step>, k: nat, l: nat, i: nat) {
    forall j :: k <= j < l && j < |steps| ==> !Disturbs(steps[j], i)
  }

  /** r stays underway over a stretch of a run, its slot kept from step to step. */
  ghost predicate KeptFrom(run: seq<State>, steps: seq<Step>, k: nat, l: nat, r: ReqId, i: nat, b: nat)
    requires l <= |steps| && |run| == |steps| + 1
  {
    forall j :: k <= j < l && Underway(run[j], r, i, b) ==>
      Underway(run[j + 1], r, i, b) && SlotKept(run[j], steps[j], run[j + 1], i)
  }

  lemma {:induction false} SlotOverStretch(
    run: seq<State>, steps: seq<Step>, k: nat, l: nat, r: ReqId, i: nat, b: nat)
    requires k <= l <= |steps| && |run| == |steps| + 1 && Underway(run[k], r, i, b) && i < |run[k].dev.table|
    requires KeptFrom(run, steps, k, l, r, i, b)
    ensures Underway(run[l], r, i, b) && i < |run[k].dev.table| == |run[l].dev.table|
    ensures Undisturbed(steps, k, l, i) ==> run[l].dev.table[i] == run[k].dev.table[i]
    ensures !Undisturbed(steps, k, l, i) ==> !run[l].dev.table[i].idle
  {
    if k < l {
      SlotOverStretch(run, steps, k, l - 1, r, i, b);
      assert Underway(run[l - 1], r, i, b);
      assert Undisturbed(steps, k, l, i) <==> Undisturbed(steps, k, l - 1, i) && !Disturbs(steps[l - 1], i);
    }
  }

  lemma SlotUntilDone(run: seq<State>, steps: seq<Step>, k: nat, l: nat, r: ReqId, i: nat, b: nat)
    requires IsRun(run, steps) && Init(run[0]) && k <= l <= |steps| && Underway(run[k], r, i, b)
    requires forall j :: k <= j < l ==> steps[j] != CompleteDone(r)
    ensures Underway(run[l], r, i, b) && i < |run[k].dev.table| == |run[l].dev.table|
    ensures Undisturbed(steps, k, l, i) ==> run[l].dev.table[i] == run[k].dev.table[i]
    ensures !Undisturbed(steps, k, l, i) ==> !run[l].dev.table[i].idle
  {
    RunKeeps(run, steps, k);
    SlotOfMarked(run[k], r);
    forall j: nat | k <= j < l && Underway(run[j], r, i, b)
      ensures Underway(run[j + 1], r, i, b) && SlotKept(run[j], steps[j], run[j + 1], i)
    {
      SlotStep(run, steps, j, r, i, b);
    }
    SlotOverStretch(run, steps, k, l, r, i, b);
  }

  /** Completion in the slot's own terms. */
  lemma CompletionOutcome(s: State, r: ReqId, i: nat, b: nat)
    requires Enabled(s, CompleteDone(r)) && s.ctl.reqs[r].index == i && s.ctl.reqs[r].blk == b
    ensures
      var t, x := Apply(s, CompleteDone(r)), s.dev.table[i];
      && |t.dev.table| == |s.dev.table| && t.ctl.reqs[r].phase == Idle
      && (if s.ctl.reqs[r].phase == Done(true) && (x.size > 0 || x.same || x.wb) && x.idle
          then t.dev.table[i] == x.(idle := false, underWb := false, wb := true, element := b)
            && t.dev.busy == s.dev.busy
          else t.dev.table[i] == x.(idle := false, underWb := false) && t.dev.busy == s.dev.busy - {b})
      && (forall j :: 0 <= j < |s.dev.table| && j != i ==> t.dev.table[j] == s.dev.table[j])
  {
  }

  /**
   The fate of a submitted slot: on completion the block takes it over, everything else about it
   unchanged, exactly when the bio succeeded and from submission on nobody freed, rewrote or read
   it; in every other case the slot keeps what it holds by then and the block is given back.
   */
  lemma FateOfSubmitted(run: seq<State>, steps: seq<Step>, k: nat, l: nat)
    requires IsRun(run, steps) && Init(run[0]) && k < l < |steps| && steps[k] == ReadAndSubmit
    requires run[k].sw.req.Some? && steps[l] == CompleteDone(run[k].sw.req.value)
    requires forall j :: k < j < l ==> steps[j] != steps[l]
    ensures run[k].sw.index < |run[k].dev.table| == |run[l].dev.table| == |run[l + 1].dev.table|
    ensures
      var r, i, b := run[k].sw.req.value, run[k].sw.index, run[k].sw.blk;
      var x, y, z := run[k].dev.table[i], run[l].dev.table[i], run[l + 1].dev.table[i];
      && r in run[l].ctl.reqs
      && (if run[l].ctl.reqs[r].phase == Done(true) && x.idle && Allocated(x) && Undisturbed(steps, k + 1, l, i)
          then z == x.(idle := false, underWb := false, wb := true, element := b) && b in run[l + 1].dev.busy
          else z == y.(idle := false, underWb := false) && b !in run[l + 1].dev.busy)
  {
    var r, i, b := run[k].sw.req.value, run[k].sw.index, run[k].sw.blk;
    RunKeeps(run, steps, k);
    SubmitStarts(run[k]);
    SlotUntilDone(run, steps, k + 1, l, r, i, b);
    RunKeeps(run, steps, l);
    CompletionOutcome(run[l], r, i, b);
    BlockIsBusy(run[l], r);
  }

  lemma BlockIsBusy(s: State, r: ReqId)
    requires Core(s) && r in Out(s.ctl)
    ensures s.ctl.reqs[r].blk in s.dev.busy
  {
    assert ZramOwnership.Owns(s, ZramOwnership.Request(r), s.ctl.reqs[r].blk);
  }
}
