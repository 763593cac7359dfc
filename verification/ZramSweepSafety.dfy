/** What every interleaving of a writeback sweep with the rest of the device keeps. */
module ZramSweepSafety {
  import opened Wrappers
  import opened ZramSlots
  import opened ZramWriteback
  import opened ZramOwnership

  // ---- the request pool and the sweep's position ----

  ghost function Out(c: Ctl): set<ReqId> {
    set r | r in c.reqs && Outstanding(c.reqs[r])
  }

  predicate Busy(pc: Pc) { pc in {NeedReq, Completing(false), NeedBlk, AtSlot, Reading} }

  predicate Tail(pc: Pc) { pc in {TailDrain, Completing(true), Finished} }

  ghost predicate PoolOk(s: State) {
    && s.ctl.numInflight == |Out(s.ctl)|
    && (forall r :: r in s.ctl.reqs && s.ctl.reqs[r].phase.Selected? ==> s.sw.req == Some(r))
    && (s.sw.req.Some? ==> s.sw.req.value in s.ctl.reqs && s.ctl.reqs[s.sw.req.value].phase.Selected?)
    && (s.sw.pc in {NeedBlk, AtSlot, Reading} ==> s.sw.req.Some?)
    && (s.sw.pc in {NeedReq, Completing(false)} ==> s.sw.req == None)
    && (s.sw.pc in {AtSlot, Reading} ==> s.sw.blk != 0)
    && (s.sw.pc == NeedBlk ==> s.sw.blk == 0)
    && (Tail(s.sw.pc) || s.sw.pc == TailReq ==> s.sw.blk == 0)
    && (Tail(s.sw.pc) ==> s.sw.req == None)
    && (s.sw.pc == Finished ==> s.ctl.numInflight == 0)
    && (!Tail(s.sw.pc) ==> s.ctl.reqs != map[])
    && s.sw.index + s.sw.remaining <= |s.dev.table|
    && (Busy(s.sw.pc) ==> s.sw.remaining > 0)
  }

  lemma OutAfter(c: Ctl, r: ReqId, q: Req)
    ensures
      var n := |Out(c.(reqs := c.reqs[r := q]))|;
      && (Outstanding(q) && r !in Out(c) ==> n == |Out(c)| + 1)
      && (Outstanding(q) && r in Out(c) ==> n == |Out(c)|)
      && (!Outstanding(q) && r in Out(c) ==> n == |Out(c)| - 1)
      && (!Outstanding(q) && r !in Out(c) ==> n == |Out(c)|)
  {
    var d := c.(reqs := c.reqs[r := q]);
    if Outstanding(q) {
      assert Out(d) == Out(c) + {r};
    } else {
      assert Out(d) == Out(c) - {r};
    }
  }

  lemma PoolAfterReqChange(s: State, step: Step)
    requires PoolOk(s) && Enabled(s, step)
    requires step.SelectIdle? || step.EndIo? || step.CompleteDone?
    ensures PoolOk(Apply(s, step))
  {
    var r := step.r;
    OutAfter(s.ctl, r, Apply(s, step).ctl.reqs[r]);
    assert Out(Apply(s, step).ctl) == Out(s.ctl.(reqs := Apply(s, step).ctl.reqs));
  }

  lemma PoolAfterSubmit(s: State)
    requires PoolOk(s) && Enabled(s, ReadAndSubmit)
    ensures PoolOk(Apply(s, ReadAndSubmit))
  {
    var r, t := s.sw.req.value, Apply(s, ReadAndSubmit);
    OutAfter(s.ctl, r, t.ctl.reqs[r]);
    assert Out(t.ctl) == Out(s.ctl.(reqs := t.ctl.reqs));
  }

  lemma PoolAfterReleaseReq(s: State)
    requires PoolOk(s) && Enabled(s, ReleaseReq)
    ensures PoolOk(Apply(s, ReleaseReq))
  {
    assert Out(Apply(s, ReleaseReq).ctl) == Out(s.ctl);
  }

  lemma PoolAfter(s: State, step: Step)
    requires PoolOk(s) && Enabled(s, step)
    ensures PoolOk(Apply(s, step))
  {
    if step.SelectIdle? || step.EndIo? || step.CompleteDone? {
      PoolAfterReqChange(s, step);
    } else if step.ReadAndSubmit? {
      PoolAfterSubmit(s);
    } else if step.ReleaseReq? {
      PoolAfterReleaseReq(s);
    } else if TouchesSlot(step) {
      PoolAfterTouch(s, step);
    } else if InLoop(step) {
      PoolInLoop(s, step);
    } else if AroundWaiting(step) {
      PoolAroundWaiting(s, step);
    } else if step.AllocBlock? || step.ReleaseBlk? {
      PoolAfterBlock(s, step);
    } else {
      PoolAtSlot(s, step);
    }
  }

  predicate InLoop(step: Step) { step.EndLoop? || step.OutOfBudget? || step.PassBudget? || step.NoSpace? }

  predicate AroundWaiting(step: Step) {
    step.WaitForDone? || step.StopCompleting? || step.DrainWait? || step.Finish?
  }

  lemma PoolInLoop(s: State, step: Step)
    requires PoolOk(s) && Enabled(s, step) && InLoop(step)
    ensures PoolOk(Apply(s, step))
  {
    assert Apply(s, step).ctl == s.ctl;
  }

  lemma PoolAroundWaiting(s: State, step: Step)
    requires PoolOk(s) && Enabled(s, step) && AroundWaiting(step)
    ensures PoolOk(Apply(s, step))
  {
    assert Apply(s, step).ctl == s.ctl;
  }

  lemma PoolAtSlot(s: State, step: Step)
    requires PoolOk(s) && Enabled(s, step) && (step.SkipSlot? || step.MarkSlot? || step.ReadFailed?)
    ensures PoolOk(Apply(s, step))
  {
    var r := Apply(s, step);
    assert r.ctl == s.ctl && |r.dev.table| == |s.dev.table|;
  }

  lemma PoolAfterBlock(s: State, step: Step)
    requires PoolOk(s) && Enabled(s, step) && (step.AllocBlock? || step.ReleaseBlk?)
    ensures PoolOk(Apply(s, step))
  {
    var r := Apply(s, step);
    assert r.ctl == s.ctl && r.dev.table == s.dev.table;
  }

  lemma PoolAfterTouch(s: State, step: Step)
    requires PoolOk(s) && Enabled(s, step) && TouchesSlot(step)
    ensures PoolOk(Apply(s, step))
  {
    var r := Apply(s, step);
    assert r.ctl == s.ctl && r.sw == s.sw && |r.dev.table| == |s.dev.table|;
  }

  // ---- ZRAM_UNDER_WB: one holder per marked slot ----

  /** The requests and, while it reads, the sweep itself each hold a slot of their own. */
  ghost predicate MarksOk(s: State) {
    && (forall r :: r in s.ctl.reqs && Outstanding(s.ctl.reqs[r]) ==>
          s.ctl.reqs[r].index < |s.dev.table| && s.dev.table[s.ctl.reqs[r].index].underWb)
    && (forall r, q :: r in Out(s.ctl) && q in Out(s.ctl) && r != q ==> s.ctl.reqs[r].index != s.ctl.reqs[q].index)
    && (s.sw.pc == Reading ==>
          && AtIndex(s) && s.dev.table[s.sw.index].underWb
          && (forall r :: r in s.ctl.reqs && Outstanding(s.ctl.reqs[r]) ==> s.ctl.reqs[r].index != s.sw.index))
  }

  ghost predicate Holder(s: State, i: nat) {
    || (s.sw.pc == Reading && s.sw.index == i)
    || (exists r :: r in s.ctl.reqs && Outstanding(s.ctl.reqs[r]) && s.ctl.reqs[r].index == i)
  }

  /** No slot is left marked behind. */
  ghost predicate MarksHeld(s: State) {
    forall i :: 0 <= i < |s.dev.table| && s.dev.table[i].underWb ==> Holder(s, i)
  }

  // ---- contents ----

  /** What a request carries is what its slot holds for as long as the slot stays idle. */
  ghost predicate CarriesCurrent(s: State, q: Req) {
    q.index < |s.dev.table| && StillSame(s.dev.table[q.index]) ==>
      HasHandle(s.dev.table[q.index]) && s.dev.table[q.index].gen == q.gen
  }

  ghost predicate BlockHolds(s: State, b: nat, gen: nat) {
    b in s.dev.media && s.dev.media[b] == gen
  }

  ghost predicate ContentsOk(s: State) {
    && (forall r :: r in s.ctl.reqs && Outstanding(s.ctl.reqs[r]) ==> CarriesCurrent(s, s.ctl.reqs[r]))
    && (forall r :: r in s.ctl.reqs && s.ctl.reqs[r].phase == Done(true) ==>
          BlockHolds(s, s.ctl.reqs[r].blk, s.ctl.reqs[r].gen))
    && (forall i :: 0 <= i < |s.dev.table| && s.dev.table[i].wb ==>
          BlockHolds(s, s.dev.table[i].element, s.dev.table[i].gen))
    && (s.sw.pc == Reading && AtIndex(s) && StillSame(s.dev.table[s.sw.index]) ==>
          HasHandle(s.dev.table[s.sw.index]))
  }

  ghost predicate DevOk(s: State) {
    StatsExact(s.dev) && SlotsOk(s.dev)
  }

  ghost predicate Core(s: State) {
    PoolOk(s) && MarksOk(s) && MarksHeld(s) && ContentsOk(s) && OwnedOnce(s) && DevOk(s)
  }

  // ---- steps that change one slot's flags or contents ----

  /** The slot that completion writes back is the one that was read, and still holds its object. */
  lemma CompletedSlot(s: State, r: ReqId)
    requires ContentsOk(s) && Enabled(s, CompleteDone(r))
    ensures
      var q := s.ctl.reqs[r];
      q.phase.ok && StillSame(s.dev.table[q.index]) ==>
        && HasHandle(s.dev.table[q.index]) && s.dev.table[q.index].gen == q.gen
        && BlockHolds(s, q.blk, q.gen)
  {
    assert CarriesCurrent(s, s.ctl.reqs[r]);
  }

  lemma DevAfter(s: State, step: Step)
    requires DevOk(s) && ContentsOk(s) && Enabled(s, step)
    ensures DevOk(Apply(s, step))
  {
    match step
    case MarkSlot => FlagsKeepStats(s.dev, s.sw.index, true, true);
    case ReadFailed => FlagsKeepStats(s.dev, s.sw.index, false, false);
    case FreeSlot(i) => FreePageKeepsStats(s.dev, i);
    case StoreSlot(i, c) => StoreKeepsStats(s.dev, i, c);
    case AccessSlot(i) => FlagsKeepStats(s.dev, i, false, s.dev.table[i].underWb);
    case MarkIdle(i) => FlagsKeepStats(s.dev, i, true, s.dev.table[i].underWb);
    case RecompressSlot(i, size, prio) => RecompressKeepsStats(s.dev, i, size, prio);
    case CompleteDone(r) => DevAfterComplete(s, r);
    case _ => assert Apply(s, step).dev.table == s.dev.table;
  }

  lemma DevAfterComplete(s: State, r: ReqId)
    requires DevOk(s) && ContentsOk(s) && Enabled(s, CompleteDone(r))
    ensures DevOk(Apply(s, CompleteDone(r)))
  {
    CompletedSlot(s, r);
    var q := s.ctl.reqs[r];
    if q.phase.ok && StillSame(s.dev.table[q.index]) {
      WriteBackKeepsStats(s.dev, q.index, q.blk);
    } else {
      FlagsKeepStats(s.dev, q.index, false, false);
    }
  }

  lemma SubmitPasses(s: State)
    requires PoolOk(s) && Enabled(s, ReadAndSubmit)
    ensures Passes(s, Apply(s, ReadAndSubmit), Reservation, Request(s.sw.req.value), s.sw.blk)
  {
  }

  lemma WriteBackPasses(s: State, r: ReqId)
    requires Enabled(s, CompleteDone(r)) && s.ctl.reqs[r].phase.ok
    requires StillSame(s.dev.table[s.ctl.reqs[r].index]) && HasHandle(s.dev.table[s.ctl.reqs[r].index])
    ensures
      var q := s.ctl.reqs[r];
      Passes(s, Apply(s, CompleteDone(r)), Request(r), Entry(q.index), q.blk)
  {
  }

  lemma DiscardDrops(s: State, r: ReqId)
    requires Enabled(s, CompleteDone(r))
    requires !(s.ctl.reqs[r].phase.ok && StillSame(s.dev.table[s.ctl.reqs[r].index]))
    ensures Drops(s, Apply(s, CompleteDone(r)), Request(r), s.ctl.reqs[r].blk)
  {
  }

  lemma OwnersAfterComplete(s: State, r: ReqId)
    requires OwnedOnce(s) && Enabled(s, CompleteDone(r))
    requires
      var x := s.dev.table[s.ctl.reqs[r].index];
      s.ctl.reqs[r].phase.ok && StillSame(x) ==> HasHandle(x)
    ensures OwnedOnce(Apply(s, CompleteDone(r)))
  {
    var q := s.ctl.reqs[r];
    if q.phase.ok && StillSame(s.dev.table[q.index]) {
      WriteBackPasses(s, r);
      OwnedAfterPass(s, Apply(s, CompleteDone(r)), Request(r), Entry(q.index), q.blk);
    } else {
      DiscardDrops(s, r);
      OwnedAfterDrop(s, Apply(s, CompleteDone(r)), Request(r), q.blk);
    }
  }

  lemma ReleaseDrops(s: State, step: Step)
    requires Enabled(s, step) && (step.FreeSlot? || step.StoreSlot?)
    requires s.dev.table[step.i].wb
    ensures Drops(s, Apply(s, step), Entry(step.i), s.dev.table[step.i].element)
  {
  }

  lemma ReleaseKeepsOwners(s: State, step: Step)
    requires Enabled(s, step) && (step.FreeSlot? || step.StoreSlot?)
    requires !s.dev.table[step.i].wb
    ensures SameOwners(s, Apply(s, step))
  {
  }

  lemma OwnersAfterRelease(s: State, step: Step)
    requires OwnedOnce(s) && Enabled(s, step) && (step.FreeSlot? || step.StoreSlot?)
    ensures OwnedOnce(Apply(s, step))
  {
    if s.dev.table[step.i].wb {
      ReleaseDrops(s, step);
      OwnedAfterDrop(s, Apply(s, step), Entry(step.i), s.dev.table[step.i].element);
    } else {
      ReleaseKeepsOwners(s, step);
      OwnedAfterSame(s, Apply(s, step));
    }
  }

  lemma OwnersAfterReservation(s: State, step: Step)
    requires OwnedOnce(s) && PoolOk(s) && Enabled(s, step) && (step.AllocBlock? || step.ReleaseBlk?)
    ensures OwnedOnce(Apply(s, step))
  {
    if step.AllocBlock? {
      OwnedAfterGain(s, Apply(s, step), Reservation, step.b);
    } else if s.sw.blk != 0 {
      OwnedAfterDrop(s, Apply(s, step), Reservation, s.sw.blk);
    } else {
      OwnedAfterSame(s, Apply(s, step));
    }
  }

  /** Steps that only move the sweep, or a request between lists. */
  lemma OwnersSameInControl(s: State, step: Step)
    requires PoolOk(s) && Enabled(s, step)
    requires step.SelectIdle? || step.ReleaseReq? || step.EndIo?
    ensures SameOwners(s, Apply(s, step))
  {
  }

  /** Steps that change flags or the object of one slot, none of them of a written-back one. */
  lemma OwnersSameInSlot(s: State, step: Step)
    requires Enabled(s, step)
    requires step.MarkSlot? || step.ReadFailed? || step.AccessSlot? || step.MarkIdle? || step.RecompressSlot?
    ensures SameOwners(s, Apply(s, step))
  {
  }

  predicate MovesOnly(step: Step) {
    step.EndLoop? || step.OutOfBudget? || step.PassBudget? || step.WaitForDone? || step.StopCompleting?
    || step.NoSpace? || step.SkipSlot? || step.DrainWait? || step.Finish?
  }

  lemma OwnersSameInMove(s: State, step: Step)
    requires Enabled(s, step) && MovesOnly(step)
    ensures SameOwners(s, Apply(s, step))
  {
  }

  predicate MovesBlock(step: Step) {
    step.ReadAndSubmit? || step.CompleteDone? || step.FreeSlot? || step.StoreSlot? || step.AllocBlock? || step.ReleaseBlk?
  }

  lemma OwnersAfterOther(s: State, step: Step)
    requires PoolOk(s) && OwnedOnce(s) && Enabled(s, step) && !MovesBlock(step)
    ensures OwnedOnce(Apply(s, step))
  {
    if MovesOnly(step) {
      OwnersSameInMove(s, step);
    } else if step.SelectIdle? || step.ReleaseReq? || step.EndIo? {
      OwnersSameInControl(s, step);
    } else {
      OwnersSameInSlot(s, step);
    }
    OwnedAfterSame(s, Apply(s, step));
  }

  lemma OwnersAfterMove(s: State, step: Step)
    requires PoolOk(s) && OwnedOnce(s) && Enabled(s, step) && MovesBlock(step) && !step.CompleteDone?
    ensures OwnedOnce(Apply(s, step))
  {
    if step.ReadAndSubmit? {
      SubmitPasses(s);
      OwnedAfterPass(s, Apply(s, step), Reservation, Request(s.sw.req.value), s.sw.blk);
    } else if step.FreeSlot? || step.StoreSlot? {
      OwnersAfterRelease(s, step);
    } else {
      OwnersAfterReservation(s, step);
    }
  }

  lemma OwnersAfter(s: State, step: Step)
    requires Core(s) && Enabled(s, step)
    ensures OwnedOnce(Apply(s, step))
  {
    if step.CompleteDone? {
      CompletedSlot(s, step.r);
      OwnersAfterComplete(s, step.r);
    } else if MovesBlock(step) {
      OwnersAfterMove(s, step);
    } else {
      OwnersAfterOther(s, step);
    }
  }

  // ---- the marks ----

  /** No step but these moves a mark or a request in or out of flight. */
  predicate MovesMark(step: Step) {
    step.MarkSlot? || step.ReadFailed? || step.ReadAndSubmit? || step.CompleteDone?
  }

  /** What the rest of the world does to a slot. */
  predicate TouchesSlot(step: Step) {
    step.FreeSlot? || step.StoreSlot? || step.AccessSlot? || step.MarkIdle? || step.RecompressSlot?
  }

  ghost predicate SameMarks(s: State, r: State) {
    && Out(r.ctl) == Out(s.ctl)
    && (forall q :: q in Out(s.ctl) ==> r.ctl.reqs[q].index == s.ctl.reqs[q].index)
    && |r.dev.table| == |s.dev.table|
    && (forall i :: 0 <= i < |s.dev.table| ==> r.dev.table[i].underWb == s.dev.table[i].underWb)
    && (r.sw.pc == Reading <==> s.sw.pc == Reading)
    && (r.sw.pc == Reading ==> r.sw.index == s.sw.index)
  }

  lemma RewriteKeepsMark(s: State, step: Step)
    requires Enabled(s, step) && (step.FreeSlot? || step.StoreSlot? || step.RecompressSlot?)
    ensures
      var t := Apply(s, step).dev.table;
      && |t| == |s.dev.table| && t[step.i].underWb == s.dev.table[step.i].underWb
      && (forall i :: 0 <= i < |t| && i != step.i ==> t[i] == s.dev.table[i])
  {
  }

  lemma TouchKeepsMarks(s: State, step: Step)
    requires Enabled(s, step) && TouchesSlot(step)
    ensures SameMarks(s, Apply(s, step))
  {
    var r := Apply(s, step);
    assert r.ctl == s.ctl && r.sw == s.sw;
    if !step.AccessSlot? && !step.MarkIdle? {
      RewriteKeepsMark(s, step);
    }
  }

  lemma OthersKeepMarks(s: State, step: Step)
    requires PoolOk(s) && Enabled(s, step) && !MovesMark(step) && !TouchesSlot(step)
    ensures SameMarks(s, Apply(s, step))
  {
    assert Apply(s, step).dev.table == s.dev.table;
  }

  lemma MarksOkAfterSame(s: State, r: State)
    requires MarksOk(s) && SameMarks(s, r)
    ensures MarksOk(r)
  {
    forall q | q in r.ctl.reqs && Outstanding(r.ctl.reqs[q])
      ensures r.ctl.reqs[q].index < |r.dev.table| && r.dev.table[r.ctl.reqs[q].index].underWb
      ensures r.sw.pc == Reading ==> r.ctl.reqs[q].index != r.sw.index
    {
      assert q in Out(r.ctl);
    }
  }

  lemma SameHolders(s: State, r: State, i: nat)
    requires SameMarks(s, r)
    ensures Holder(r, i) <==> Holder(s, i)
  {
    if q: ReqId :| q in s.ctl.reqs && Outstanding(s.ctl.reqs[q]) && s.ctl.reqs[q].index == i {
      assert q in Out(r.ctl);
    }
    if q: ReqId :| q in r.ctl.reqs && Outstanding(r.ctl.reqs[q]) && r.ctl.reqs[q].index == i {
      assert q in Out(r.ctl);
    }
  }

  lemma MarksAfterSame(s: State, r: State)
    requires MarksOk(s) && MarksHeld(s) && SameMarks(s, r)
    ensures MarksOk(r) && MarksHeld(r)
  {
    MarksOkAfterSame(s, r);
    forall i | 0 <= i < |r.dev.table| && r.dev.table[i].underWb ensures Holder(r, i) {
      SameHolders(s, r, i);
    }
  }

  lemma MarksAfterOwnMove(s: State, step: Step)
    requires PoolOk(s) && MarksOk(s) && Enabled(s, step) && (step.MarkSlot? || step.ReadFailed?)
    ensures MarksOk(Apply(s, step))
  {
    assert Out(Apply(s, step).ctl) == Out(s.ctl);
  }

  lemma SubmittedReq(s: State)
    requires PoolOk(s) && Enabled(s, ReadAndSubmit)
    ensures
      var r, t := s.sw.req.value, Apply(s, ReadAndSubmit);
      && t.dev == s.dev && t.sw.pc == Head && Out(t.ctl) == Out(s.ctl) + {r} && r !in Out(s.ctl)
      && t.ctl.reqs[r].index == s.sw.index
      && (forall q :: q in t.ctl.reqs && q != r ==> q in s.ctl.reqs && t.ctl.reqs[q] == s.ctl.reqs[q])
  {
    var r, t := s.sw.req.value, Apply(s, ReadAndSubmit);
    assert Out(t.ctl) == Out(s.ctl) + {r};
  }

  lemma MarksAfterSubmit(s: State)
    requires PoolOk(s) && MarksOk(s) && Enabled(s, ReadAndSubmit)
    ensures MarksOk(Apply(s, ReadAndSubmit))
  {
    SubmittedReq(s);
  }

  lemma MarksAfterComplete(s: State, r: ReqId)
    requires MarksOk(s) && Enabled(s, CompleteDone(r))
    ensures MarksOk(Apply(s, CompleteDone(r)))
  {
    assert Out(Apply(s, CompleteDone(r)).ctl) == Out(s.ctl) - {r};
  }

  lemma HeldAfterOwnMove(s: State, step: Step)
    requires PoolOk(s) && MarksHeld(s) && Enabled(s, step) && (step.MarkSlot? || step.ReadFailed?)
    ensures MarksHeld(Apply(s, step))
  {
    var t := Apply(s, step);
    forall i | 0 <= i < |t.dev.table| && t.dev.table[i].underWb ensures Holder(t, i) {
      if i != s.sw.index {
        assert Holder(s, i);
      }
    }
  }

  lemma HeldAfterSubmit(s: State)
    requires PoolOk(s) && MarksHeld(s) && Enabled(s, ReadAndSubmit)
    ensures MarksHeld(Apply(s, ReadAndSubmit))
  {
    var t, r := Apply(s, ReadAndSubmit), s.sw.req.value;
    assert r in t.ctl.reqs && Outstanding(t.ctl.reqs[r]) && t.ctl.reqs[r].index == s.sw.index;
    forall i | 0 <= i < |t.dev.table| && t.dev.table[i].underWb ensures Holder(t, i) {
      assert Holder(s, i);
      if i != s.sw.index {
        var q :| q in s.ctl.reqs && Outstanding(s.ctl.reqs[q]) && s.ctl.reqs[q].index == i;
        assert q != r && t.ctl.reqs[q] == s.ctl.reqs[q];
      }
    }
  }

  lemma HeldAfterComplete(s: State, r: ReqId)
    requires MarksHeld(s) && Enabled(s, CompleteDone(r))
    ensures MarksHeld(Apply(s, CompleteDone(r)))
  {
    var t := Apply(s, CompleteDone(r));
    var k := s.ctl.reqs[r].index;
    assert !t.dev.table[k].underWb;
    forall i | 0 <= i < |t.dev.table| && t.dev.table[i].underWb ensures Holder(t, i) {
      assert i != k && t.dev.table[i] == s.dev.table[i] && Holder(s, i);
      var q :| q in s.ctl.reqs && Outstanding(s.ctl.reqs[q]) && s.ctl.reqs[q].index == i;
      assert q != r && t.ctl.reqs[q] == s.ctl.reqs[q];
    }
  }

  lemma MarksAfter(s: State, step: Step)
    requires PoolOk(s) && MarksOk(s) && MarksHeld(s) && Enabled(s, step)
    ensures MarksOk(Apply(s, step)) && MarksHeld(Apply(s, step))
  {
    if step.ReadAndSubmit? {
      MarksAfterSubmit(s);
      HeldAfterSubmit(s);
    } else if step.CompleteDone? {
      MarksAfterComplete(s, step.r);
      HeldAfterComplete(s, step.r);
    } else if MovesMark(step) {
      MarksAfterOwnMove(s, step);
      HeldAfterOwnMove(s, step);
    } else {
      if TouchesSlot(step) {
        TouchKeepsMarks(s, step);
      } else {
        OthersKeepMarks(s, step);
      }
      MarksAfterSame(s, Apply(s, step));
    }
  }

  // ---- contents ----

  /** The device writes a block nobody else owns. */
  lemma ContentsAfterEndIo(s: State, r: ReqId, ok: bool)
    requires ContentsOk(s) && Enabled(s, EndIo(r, ok)) && SoleOwner(s, Request(r), s.ctl.reqs[r].blk)
    ensures ContentsOk(Apply(s, EndIo(r, ok)))
  {
    var t, b := Apply(s, EndIo(r, ok)), s.ctl.reqs[r].blk;
    forall q | q in t.ctl.reqs && t.ctl.reqs[q].phase == Done(true)
      ensures BlockHolds(t, t.ctl.reqs[q].blk, t.ctl.reqs[q].gen)
    {
      if q != r {
        assert Owns(s, Request(q), s.ctl.reqs[q].blk);
      }
    }
    forall i | 0 <= i < |t.dev.table| && t.dev.table[i].wb
      ensures BlockHolds(t, t.dev.table[i].element, t.dev.table[i].gen)
    {
      assert Owns(s, Entry(i), s.dev.table[i].element);
    }
    forall q | q in t.ctl.reqs && Outstanding(t.ctl.reqs[q]) ensures CarriesCurrent(t, t.ctl.reqs[q]) {
      assert CarriesCurrent(s, s.ctl.reqs[q]);
    }
  }

  lemma ContentsAfterComplete(s: State, r: ReqId)
    requires ContentsOk(s) && MarksOk(s) && Enabled(s, CompleteDone(r))
    ensures ContentsOk(Apply(s, CompleteDone(r)))
  {
    var t := Apply(s, CompleteDone(r));
    assert CarriesCurrent(s, s.ctl.reqs[r]);
    forall q | q in t.ctl.reqs && Outstanding(t.ctl.reqs[q]) ensures CarriesCurrent(t, t.ctl.reqs[q]) {
      assert q in Out(s.ctl) && r in Out(s.ctl);
      assert CarriesCurrent(s, s.ctl.reqs[q]);
    }
    assert t.dev.media == s.dev.media;
  }

  /** What the sweep itself does to the slot it is on. */
  lemma ContentsAfterOwnMove(s: State, step: Step)
    requires ContentsOk(s) && MarksOk(s) && Enabled(s, step) && (step.MarkSlot? || step.ReadFailed?)
    ensures ContentsOk(Apply(s, step))
  {
    var t := Apply(s, step);
    forall q | q in t.ctl.reqs && Outstanding(t.ctl.reqs[q]) ensures CarriesCurrent(t, t.ctl.reqs[q]) {
      assert CarriesCurrent(s, s.ctl.reqs[q]);
    }
  }

  lemma ContentsAfterSubmit(s: State)
    requires ContentsOk(s) && PoolOk(s) && Enabled(s, ReadAndSubmit)
    ensures ContentsOk(Apply(s, ReadAndSubmit))
  {
    var t := Apply(s, ReadAndSubmit);
    forall q | q in t.ctl.reqs && Outstanding(t.ctl.reqs[q]) ensures CarriesCurrent(t, t.ctl.reqs[q]) {
      if q != s.sw.req.value {
        assert CarriesCurrent(s, s.ctl.reqs[q]);
      }
    }
  }

  /**
   The rest of the world: a slot it frees, rewrites or reads stops being idle, and it neither
   marks idle nor recompresses a slot under writeback.
   */
  lemma ContentsAfterTouch(s: State, step: Step)
    requires ContentsOk(s) && MarksOk(s) && Enabled(s, step) && TouchesSlot(step)
    ensures ContentsOk(Apply(s, step))
  {
    var t := Apply(s, step);
    TouchedSlot(s, step);
    forall q | q in t.ctl.reqs && Outstanding(t.ctl.reqs[q]) ensures CarriesCurrent(t, t.ctl.reqs[q]) {
      assert CarriesCurrent(s, s.ctl.reqs[q]);
    }
    forall i | 0 <= i < |t.dev.table| && t.dev.table[i].wb
      ensures BlockHolds(t, t.dev.table[i].element, t.dev.table[i].gen)
    {
      assert BlockHolds(s, s.dev.table[i].element, s.dev.table[i].gen);
    }
  }

  lemma TouchedSlot(s: State, step: Step)
    requires Enabled(s, step) && TouchesSlot(step)
    ensures
      var d := Apply(s, step).dev;
      && d.media == s.dev.media && |d.table| == |s.dev.table|
      && (forall j :: 0 <= j < |d.table| && j != step.i ==> d.table[j] == s.dev.table[j])
      && (d.table[step.i].idle ==> !s.dev.table[step.i].underWb)
      && (d.table[step.i].wb ==>
        && s.dev.table[step.i].wb
        && d.table[step.i].element == s.dev.table[step.i].element && d.table[step.i].gen == s.dev.table[step.i].gen)
  {
  }

  lemma ContentsAfterOther(s: State, step: Step)
    requires ContentsOk(s) && PoolOk(s) && Enabled(s, step)
    requires !MovesMark(step) && !TouchesSlot(step) && !step.EndIo?
    ensures ContentsOk(Apply(s, step))
  {
    var t := Apply(s, step);
    assert t.dev.table == s.dev.table && t.dev.media == s.dev.media;
    forall q | q in t.ctl.reqs && Outstanding(t.ctl.reqs[q]) ensures CarriesCurrent(t, t.ctl.reqs[q]) {
      assert CarriesCurrent(s, s.ctl.reqs[q]);
    }
  }

  lemma ContentsAfter(s: State, step: Step)
    requires Core(s) && Enabled(s, step)
    ensures ContentsOk(Apply(s, step))
  {
    if step.EndIo? {
      assert Owns(s, Request(step.r), s.ctl.reqs[step.r].blk);
      ContentsAfterEndIo(s, step.r, step.ok);
    } else if step.CompleteDone? {
      ContentsAfterComplete(s, step.r);
    } else if step.ReadAndSubmit? {
      ContentsAfterSubmit(s);
    } else if MovesMark(step) {
      ContentsAfterOwnMove(s, step);
    } else if TouchesSlot(step) {
      ContentsAfterTouch(s, step);
    } else {
      ContentsAfterOther(s, step);
    }
  }

  lemma CoreAfter(s: State, step: Step)
    requires Core(s) && Enabled(s, step)
    ensures Core(Apply(s, step))
  {
    PoolAfter(s, step);
    MarksAfter(s, step);
    ContentsAfter(s, step);
    OwnersAfter(s, step);
    DevAfter(s, step);
  }
}
