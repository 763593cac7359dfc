/** What any interleaving of any number of writeback sweeps keeps. */
module ZramManyRuns {
  import opened Wrappers
  import opened ZramSlots
  import opened ZramWriteback
  import opened ZramOwnership
  import opened ZramSweepSafety
  import opened ZramSweepRuns
  import opened ZramManySweeps

  // ---- one step of one sweep, as its own view shows it ----

  /** What a step does to marked slots: it changes only what the sweep holds or nobody has marked. */
  ghost predicate HoldersMove(s: State, r: State) {
    && |r.dev.table| == |s.dev.table|
    && (forall i :: 0 <= i < |s.dev.table| && r.dev.table[i] != s.dev.table[i] ==>
          Holder(s, i) || !s.dev.table[i].underWb)
    && (forall i: nat :: Holder(r, i) ==> Holder(s, i) || (i < |s.dev.table| && !s.dev.table[i].underWb))
    && (forall i :: 0 <= i < |s.dev.table| && r.dev.table[i].underWb ==>
          Holder(r, i) || (s.dev.table[i].underWb && !Holder(s, i)))
  }

  lemma HoldersAfterOwnMove(s: State, step: Step)
    requires PoolOk(s) && MarksOk(s) && Enabled(s, step) && (step.MarkSlot? || step.ReadFailed?)
    ensures HoldersMove(s, Apply(s, step))
  {
    var r := Apply(s, step);
    assert r.ctl == s.ctl;
    forall i | 0 <= i < |s.dev.table| && i != s.sw.index ensures Holder(r, i) <==> Holder(s, i) {
    }
  }

  lemma HoldersAfterSubmit(s: State)
    requires PoolOk(s) && Enabled(s, ReadAndSubmit)
    ensures HoldersMove(s, Apply(s, ReadAndSubmit))
  {
    var q, r := s.sw.req.value, Apply(s, ReadAndSubmit);
    SubmittedReq(s);
    assert q in Out(r.ctl);
    forall i ensures Holder(r, i) <==> Holder(s, i) {
      if p: ReqId :| p in s.ctl.reqs && Outstanding(s.ctl.reqs[p]) && s.ctl.reqs[p].index == i {
        assert p in Out(s.ctl) && p in Out(r.ctl) && p != q;
      }
    }
  }

  lemma HoldersAfterComplete(s: State, q: ReqId)
    requires MarksOk(s) && Enabled(s, CompleteDone(q))
    ensures HoldersMove(s, Apply(s, CompleteDone(q)))
  {
    var r, k := Apply(s, CompleteDone(q)), s.ctl.reqs[q].index;
    assert !r.dev.table[k].underWb && q in Out(s.ctl);
    forall i | i != k ensures Holder(r, i) <==> Holder(s, i) {
      if p: ReqId :| p in s.ctl.reqs && Outstanding(s.ctl.reqs[p]) && s.ctl.reqs[p].index == i {
        assert p != q && r.ctl.reqs[p] == s.ctl.reqs[p];
      }
    }
  }

  lemma HoldersAfterOther(s: State, r: State)
    requires MarksOk(s) && SameMarks(s, r) && r.dev.table == s.dev.table
    ensures HoldersMove(s, r)
  {
    forall i ensures Holder(r, i) <==> Holder(s, i) {
      SameHolders(s, r, i);
    }
  }

  lemma HoldersAfter(s: State, step: Step)
    requires PoolOk(s) && MarksOk(s) && Enabled(s, step) && !TouchesSlot(step)
    ensures HoldersMove(s, Apply(s, step)) && MarksOk(Apply(s, step))
  {
    if step.ReadAndSubmit? {
      HoldersAfterSubmit(s);
      MarksAfterSubmit(s);
    } else if step.CompleteDone? {
      HoldersAfterComplete(s, step.r);
      MarksAfterComplete(s, step.r);
    } else if step.MarkSlot? || step.ReadFailed? {
      HoldersAfterOwnMove(s, step);
      MarksAfterOwnMove(s, step);
    } else {
      OthersKeepMarks(s, step);
      MarksOkAfterSame(s, Apply(s, step));
      OnlyMarkersWrite(s, step);
      HoldersAfterOther(s, Apply(s, step));
    }
  }

  lemma OnlyMarkersWrite(s: State, step: Step)
    requires Enabled(s, step) && !TouchesSlot(step) && !MovesMark(step)
    ensures Apply(s, step).dev.table == s.dev.table
  {
  }

  /** Contents, without knowing what other sweeps own: a bio only needs its block for itself. */
  lemma OwnContents(s: State, step: Step)
    requires ContentsOk(s) && PoolOk(s) && MarksOk(s) && Enabled(s, step) && !TouchesSlot(step)
    requires step.EndIo? ==> SoleOwner(s, Request(step.r), s.ctl.reqs[step.r].blk)
    ensures ContentsOk(Apply(s, step))
  {
    if step.EndIo? {
      ContentsAfterEndIo(s, step.r, step.ok);
    } else if step.CompleteDone? {
      ContentsAfterComplete(s, step.r);
    } else if step.ReadAndSubmit? {
      ContentsAfterSubmit(s);
    } else if MovesMark(step) {
      ContentsAfterOwnMove(s, step);
    } else {
      ContentsAfterOther(s, step);
    }
  }

  /** Only the end of a bio writes to the backing device, and only its own block. */
  lemma OnlyBiosWrite(s: State, step: Step, b: nat, gen: nat)
    requires Enabled(s, step) && BlockHolds(s, b, gen)
    ensures BlockHolds(Apply(s, step), b, gen) || (step.EndIo? && Owns(s, Request(step.r), b))
  {
  }

  // ---- the view of a sweep when somebody else moves ----

  /** The sweep has not moved, and the slots it holds are as they were. */
  ghost predicate Kept(v: State, w: State) {
    && w.sw == v.sw && w.ctl.reqs == v.ctl.reqs && w.ctl.numInflight == v.ctl.numInflight
    && |w.dev.table| == |v.dev.table|
    && (forall i: nat :: Holder(v, i) && i < |v.dev.table| ==> w.dev.table[i] == v.dev.table[i])
  }

  lemma PoolKept(v: State, w: State)
    requires PoolOk(v) && Kept(v, w)
    ensures PoolOk(w)
  {
    assert Out(w.ctl) == Out(v.ctl);
  }

  lemma HoldersKept(v: State, w: State, i: nat)
    requires w.sw == v.sw && w.ctl.reqs == v.ctl.reqs
    ensures Holder(w, i) <==> Holder(v, i)
  {
  }

  lemma MarksKept(v: State, w: State)
    requires MarksOk(v) && Kept(v, w)
    ensures MarksOk(w)
  {
    assert Out(w.ctl) == Out(v.ctl);
    forall r | r in w.ctl.reqs && Outstanding(w.ctl.reqs[r])
      ensures w.ctl.reqs[r].index < |w.dev.table| && w.dev.table[w.ctl.reqs[r].index].underWb
    {
      assert Holder(v, v.ctl.reqs[r].index);
    }
    if v.sw.pc == Reading {
      assert Holder(v, v.sw.index);
    }
  }

  /** Written-back slots read back what was stored in them. */
  ghost predicate ReadsBack(s: State) {
    forall i :: 0 <= i < |s.dev.table| && s.dev.table[i].wb ==>
      BlockHolds(s, s.dev.table[i].element, s.dev.table[i].gen)
  }

  lemma ContentsKept(v: State, w: State)
    requires ContentsOk(v) && MarksOk(v) && Kept(v, w) && ReadsBack(w)
    requires forall r :: r in v.ctl.reqs && v.ctl.reqs[r].phase == Done(true) ==>
      BlockHolds(w, v.ctl.reqs[r].blk, v.ctl.reqs[r].gen)
    ensures ContentsOk(w)
  {
    forall r | r in w.ctl.reqs && Outstanding(w.ctl.reqs[r]) ensures CarriesCurrent(w, w.ctl.reqs[r]) {
      assert Holder(v, v.ctl.reqs[r].index) && CarriesCurrent(v, v.ctl.reqs[r]);
    }
    if v.sw.pc == Reading {
      assert Holder(v, v.sw.index);
    }
  }

  // ---- all of them ----

  ghost predicate ViewOk(v: State) { PoolOk(v) && MarksOk(v) && ContentsOk(v) }

  ghost predicate Holds(m: Many, k: Sid, i: nat) { k in m.runs && Holder(View(m, k), i) }

  /** No slot is held by two sweeps. */
  ghost predicate Apart(m: Many) {
    forall k, l, i :: Holds(m, k, i) && Holds(m, l, i) ==> k == l
  }

  ghost predicate AllHeld(m: Many) {
    forall i :: 0 <= i < |m.dev.table| && m.dev.table[i].underWb ==> exists k :: Holds(m, k, i)
  }

  ghost predicate ViewsOk(m: Many) { forall k :: k in m.runs ==> ViewOk(View(m, k)) }

  ghost predicate ManyOk(m: Many) {
    && ViewsOk(m) && Apart(m) && AllHeld(m) && ManyOwnedOnce(m)
    && ReadsBack(Bare(m)) && DevOk(Bare(m))
  }

  lemma SoleInView(m: Many, k: Sid, r: ReqId)
    requires ManyOwnedOnce(m) && k in m.runs && r in m.runs[k].ctl.reqs && Outstanding(m.runs[k].ctl.reqs[r])
    ensures SoleOwner(View(m, k), Request(r), m.runs[k].ctl.reqs[r].blk)
  {
    var b := m.runs[k].ctl.reqs[r].blk;
    ViewOwns(m, k, Request(r), b);
    forall p | Owns(View(m, k), p, b) ensures p == Request(r) {
      ViewOwns(m, k, p, b);
    }
  }

  /** The step as sweep k sees it. */
  lemma OwnView(m: Many, k: Sid, step: Step)
    requires ManyOk(m) && ManyEnabled(m, Of(k, step))
    ensures
      var r := Apply(View(m, k), step);
      && ViewOk(r) && HoldersMove(View(m, k), r) && DevOk(r)
      && r.ctl.limitEnable == m.limitEnable && r.nrBlocks == m.nrBlocks && r.unit == m.unit
      && View(Back(m, k, r), k) == r
  {
    var s := View(m, k);
    assert ViewOk(s) && DevOk(s);
    PoolAfter(s, step);
    HoldersAfter(s, step);
    if step.EndIo? {
      SoleInView(m, k, step.r);
    }
    OwnContents(s, step);
    DevAfter(s, step);
    LimitFlagStays(s, step);
  }

  lemma LimitFlagStays(s: State, step: Step)
    requires Enabled(s, step)
    ensures
      var r := Apply(s, step);
      r.ctl.limitEnable == s.ctl.limitEnable && r.nrBlocks == s.nrBlocks && r.unit == s.unit
  {
  }

  /** A bio of sweep k does not write to a block that a request of sweep l owns. */
  lemma OtherBlocksStay(m: Many, k: Sid, l: Sid, step: Step, q: ReqId)
    requires ManyOwnedOnce(m) && ManyEnabled(m, Of(k, step)) && l in m.runs && l != k
    requires q in m.runs[l].ctl.reqs && Outstanding(m.runs[l].ctl.reqs[q])
    requires BlockHolds(View(m, k), m.runs[l].ctl.reqs[q].blk, m.runs[l].ctl.reqs[q].gen)
    ensures BlockHolds(Apply(View(m, k), step), m.runs[l].ctl.reqs[q].blk, m.runs[l].ctl.reqs[q].gen)
  {
    var b := m.runs[l].ctl.reqs[q].blk;
    OnlyBiosWrite(View(m, k), step, b, m.runs[l].ctl.reqs[q].gen);
    if step.EndIo? && Owns(View(m, k), Request(step.r), b) {
      ViewOwns(m, k, Request(step.r), b);
      ViewOwns(m, l, Request(q), b);
      assert ManyOwns(m, Local(k, Request(step.r)), b) && ManyOwns(m, Local(l, Request(q)), b);
    }
  }

  lemma OtherViewKept(m: Many, k: Sid, l: Sid, r: State)
    requires ViewsOk(m) && Apart(m) && k in m.runs && l in m.runs && l != k
    requires HoldersMove(View(m, k), r) && r.ctl.limitEnable == m.limitEnable
    ensures Kept(View(m, l), View(Back(m, k, r), l))
  {
    var v, w := View(m, l), View(Back(m, k, r), l);
    forall i: nat | Holder(v, i) && i < |v.dev.table| ensures w.dev.table[i] == v.dev.table[i] {
      assert Holds(m, l, i) && ViewOk(v);
      if Holder(View(m, k), i) {
        assert Holds(m, k, i);
      }
    }
  }

  lemma KeptViewOk(v: State, w: State)
    requires ViewOk(v) && Kept(v, w) && ReadsBack(w)
    requires forall r :: r in v.ctl.reqs && v.ctl.reqs[r].phase == Done(true) ==>
      BlockHolds(w, v.ctl.reqs[r].blk, v.ctl.reqs[r].gen)
    ensures ViewOk(w)
  {
    PoolKept(v, w);
    MarksKept(v, w);
    ContentsKept(v, w);
  }

  lemma OtherDone(m: Many, k: Sid, l: Sid, step: Step, q: ReqId)
    requires ViewsOk(m) && ManyOwnedOnce(m) && ManyEnabled(m, Of(k, step)) && l in m.runs && l != k
    requires q in m.runs[l].ctl.reqs && m.runs[l].ctl.reqs[q].phase == Done(true)
    ensures BlockHolds(Apply(View(m, k), step), m.runs[l].ctl.reqs[q].blk, m.runs[l].ctl.reqs[q].gen)
  {
    assert ViewOk(View(m, l));
    assert BlockHolds(View(m, l), m.runs[l].ctl.reqs[q].blk, m.runs[l].ctl.reqs[q].gen);
    OtherBlocksStay(m, k, l, step, q);
  }

  lemma OtherView(m: Many, k: Sid, l: Sid, step: Step, r: State)
    requires ViewsOk(m) && Apart(m) && ManyOwnedOnce(m) && ManyEnabled(m, Of(k, step)) && l in m.runs && l != k
    requires r == Apply(View(m, k), step) && HoldersMove(View(m, k), r) && ReadsBack(r)
    requires r.ctl.limitEnable == m.limitEnable
    ensures ViewOk(View(Back(m, k, r), l))
  {
    var v, w := View(m, l), View(Back(m, k, r), l);
    OtherViewKept(m, k, l, r);
    forall q | q in v.ctl.reqs && v.ctl.reqs[q].phase == Done(true)
      ensures BlockHolds(w, v.ctl.reqs[q].blk, v.ctl.reqs[q].gen)
    {
      OtherDone(m, k, l, step, q);
    }
    KeptViewOk(v, w);
  }

  lemma HoldsAfter(m: Many, k: Sid, r: State, l: Sid, i: nat)
    requires k in m.runs && r.ctl.limitEnable == m.limitEnable && View(Back(m, k, r), k) == r
    ensures Holds(Back(m, k, r), l, i) <==> if l == k then Holder(r, i) else Holds(m, l, i)
  {
    if l in m.runs && l != k {
      HoldersKept(View(m, l), View(Back(m, k, r), l), i);
    }
  }

  lemma HeldIsMarked(m: Many, k: Sid, i: nat)
    requires ViewsOk(m) && Holds(m, k, i)
    ensures i < |m.dev.table| && m.dev.table[i].underWb
  {
    assert ViewOk(View(m, k));
  }

  lemma ApartAfter(m: Many, k: Sid, r: State)
    requires ViewsOk(m) && Apart(m) && k in m.runs && HoldersMove(View(m, k), r)
    requires r.ctl.limitEnable == m.limitEnable && View(Back(m, k, r), k) == r
    ensures Apart(Back(m, k, r))
  {
    var n := Back(m, k, r);
    forall a, b, i | Holds(n, a, i) && Holds(n, b, i) ensures a == b {
      HoldsAfter(m, k, r, a, i);
      HoldsAfter(m, k, r, b, i);
      if a != b {
        var other := if a == k then b else a;
        HeldIsMarked(m, other, i);
        assert a == k || b == k ==> Holds(m, k, i);
      }
    }
  }

  lemma AllHeldAfter(m: Many, k: Sid, r: State)
    requires ViewsOk(m) && AllHeld(m) && k in m.runs && HoldersMove(View(m, k), r)
    requires r.ctl.limitEnable == m.limitEnable && View(Back(m, k, r), k) == r
    ensures AllHeld(Back(m, k, r))
  {
    var n := Back(m, k, r);
    forall i | 0 <= i < |n.dev.table| && n.dev.table[i].underWb ensures exists l :: Holds(n, l, i) {
      if Holder(r, i) {
        HoldsAfter(m, k, r, k, i);
      } else {
        var l :| Holds(m, l, i);
        HoldsAfter(m, k, r, l, i);
        assert Holds(n, l, i);
      }
    }
  }

  lemma OwnedOnceAfterOwn(m: Many, k: Sid, step: Step)
    requires ManyOk(m) && ManyEnabled(m, Of(k, step))
    ensures ManyOwnedOnce(ManyApply(m, Of(k, step)))
  {
    var s, r := View(m, k), Apply(View(m, k), step);
    assert ViewOk(s);
    if step.CompleteDone? {
      CompletedSlot(s, step.r);
    }
    var from, to, b := OwnStepMoves(s, step);
    LimitFlagStays(s, step);
    ViewMoveLifts(m, k, r, from, to, b);
    OwnedOnceAfter(m, Back(m, k, r), Lift(k, from), Lift(k, to), b);
  }

  lemma ViewsAfterOwn(m: Many, k: Sid, step: Step)
    requires ManyOk(m) && ManyEnabled(m, Of(k, step))
    ensures ViewsOk(ManyApply(m, Of(k, step)))
  {
    var n := ManyApply(m, Of(k, step));
    forall l | l in n.runs ensures ViewOk(View(n, l)) {
      OwnView(m, k, step);
      if l != k {
        OtherView(m, k, l, step, Apply(View(m, k), step));
      }
    }
  }

  lemma ApartAfterOwn(m: Many, k: Sid, step: Step)
    requires ManyOk(m) && ManyEnabled(m, Of(k, step))
    ensures Apart(ManyApply(m, Of(k, step)))
  {
    OwnView(m, k, step);
    ApartAfter(m, k, Apply(View(m, k), step));
  }

  lemma AllHeldAfterOwn(m: Many, k: Sid, step: Step)
    requires ManyOk(m) && ManyEnabled(m, Of(k, step))
    ensures AllHeld(ManyApply(m, Of(k, step)))
  {
    OwnView(m, k, step);
    AllHeldAfter(m, k, Apply(View(m, k), step));
  }

  lemma DeviceAfterOwn(m: Many, k: Sid, step: Step)
    requires ManyOk(m) && ManyEnabled(m, Of(k, step))
    ensures ReadsBack(Bare(ManyApply(m, Of(k, step)))) && DevOk(Bare(ManyApply(m, Of(k, step))))
  {
    OwnView(m, k, step);
    SameDevice(Apply(View(m, k), step), Bare(Back(m, k, Apply(View(m, k), step))));
  }

  lemma SameDevice(s: State, r: State)
    requires ReadsBack(s) && DevOk(s) && r.dev == s.dev
    ensures ReadsBack(r) && DevOk(r)
  {
  }

  lemma OkAfterOwn(m: Many, k: Sid, step: Step)
    requires ManyOk(m) && ManyEnabled(m, Of(k, step))
    ensures ManyOk(ManyApply(m, Of(k, step)))
  {
    ViewsAfterOwn(m, k, step);
    OwnedOnceAfterOwn(m, k, step);
    ApartAfterOwn(m, k, step);
    AllHeldAfterOwn(m, k, step);
    DeviceAfterOwn(m, k, step);
  }

  // ---- somebody touches a slot ----

  lemma TouchInView(m: Many, k: Sid, step: Step)
    requires ManyEnabled(m, Touch(step)) && k in m.runs
    ensures Enabled(View(m, k), step) && View(ManyApply(m, Touch(step)), k) == Apply(View(m, k), step)
  {
  }

  lemma BareTouched(m: Many, step: Step)
    requires ManyEnabled(m, Touch(step))
    ensures Bare(ManyApply(m, Touch(step))) == Apply(Bare(m), step)
  {
  }

  lemma BareOk(m: Many)
    requires ReadsBack(Bare(m))
    ensures PoolOk(Bare(m)) && MarksOk(Bare(m)) && ContentsOk(Bare(m))
  {
    assert Out(Bare(m).ctl) == {};
  }

  lemma ViewAfterTouch(m: Many, k: Sid, step: Step)
    requires ViewsOk(m) && ManyEnabled(m, Touch(step)) && k in m.runs
    ensures ViewOk(View(ManyApply(m, Touch(step)), k))
    ensures SameMarks(View(m, k), View(ManyApply(m, Touch(step)), k))
  {
    var v := View(m, k);
    assert ViewOk(v);
    TouchInView(m, k, step);
    PoolAfterTouch(v, step);
    TouchKeepsMarks(v, step);
    MarksOkAfterSame(v, Apply(v, step));
    ContentsAfterTouch(v, step);
  }

  lemma HoldsAfterTouch(m: Many, step: Step, k: Sid, i: nat)
    requires ViewsOk(m) && ManyEnabled(m, Touch(step))
    ensures Holds(ManyApply(m, Touch(step)), k, i) <==> Holds(m, k, i)
  {
    if k in m.runs {
      ViewAfterTouch(m, k, step);
      SameHolders(View(m, k), View(ManyApply(m, Touch(step)), k), i);
    }
  }

  lemma HeldAfterTouch(m: Many, step: Step)
    requires ViewsOk(m) && Apart(m) && AllHeld(m) && ReadsBack(Bare(m)) && ManyEnabled(m, Touch(step))
    ensures Apart(ManyApply(m, Touch(step))) && AllHeld(ManyApply(m, Touch(step)))
  {
    var n := ManyApply(m, Touch(step));
    TouchKeepsMarks(Bare(m), step);
    forall k, l, i | Holds(n, k, i) && Holds(n, l, i) ensures k == l {
      HoldsAfterTouch(m, step, k, i);
      HoldsAfterTouch(m, step, l, i);
    }
    forall i | 0 <= i < |n.dev.table| && n.dev.table[i].underWb ensures exists k :: Holds(n, k, i) {
      var k :| Holds(m, k, i);
      HoldsAfterTouch(m, step, k, i);
    }
  }

  lemma TouchLifts(m: Many, step: Step, from: Option<Owner>, b: nat)
    requires ManyEnabled(m, Touch(step)) && (from.Some? ==> from.value.Entry?)
    requires ViewMoves(Bare(m), Apply(Bare(m), step), from, None, b)
    ensures OwnerMoves(m, ManyApply(m, Touch(step)), Lift(0, from), None, b)
  {
    var n := ManyApply(m, Touch(step));
    BareTouched(m, step);
    forall o: ManyOwner, c: nat
      ensures ManyOwns(n, o, c) <==> ManyOwns(m, o, c) && Some(o) != Lift(0, from)
    {
      if o.Local? && o.k in m.runs {
        TouchInView(m, o.k, step);
      }
    }
  }

  lemma OkAfterTouch(m: Many, step: Step)
    requires ManyOk(m) && ManyEnabled(m, Touch(step))
    ensures ManyOk(ManyApply(m, Touch(step)))
  {
    var n := ManyApply(m, Touch(step));
    forall k | k in n.runs ensures ViewOk(View(n, k)) {
      ViewAfterTouch(m, k, step);
    }
    HeldAfterTouch(m, step);
    BareOk(m);
    BareTouched(m, step);
    ContentsAfterTouch(Bare(m), step);
    DevAfter(Bare(m), step);
    var from, b := TouchMoves(Bare(m), step);
    TouchLifts(m, step, from, b);
    OwnedOnceAfter(m, n, Lift(0, from), None, b);
  }

  // ---- sweeps come and go ----

  lemma FreshView(m: Many, k: Sid, run: Run)
    requires ManyEnabled(m, Begin(k, run)) && ReadsBack(Bare(m))
    ensures
      var v := View(ManyApply(m, Begin(k, run)), k);
      ViewOk(v) && Out(v.ctl) == {} && v.sw.pc != Reading && v.sw.blk == 0
  {
    assert Out(View(ManyApply(m, Begin(k, run)), k).ctl) == {};
  }

  lemma FinishedView(m: Many, k: Sid)
    requires ViewsOk(m) && ManyEnabled(m, Leave(k))
    ensures Out(View(m, k).ctl) == {} && View(m, k).sw.pc != Reading && View(m, k).sw.blk == 0
  {
    assert ViewOk(View(m, k));
  }

  /** A sweep that holds no slot and owns no block. */
  ghost predicate EmptyHanded(v: State) { Out(v.ctl) == {} && v.sw.pc != Reading && v.sw.blk == 0 }

  lemma HoldsNothing(v: State, i: nat, o: Owner, b: nat)
    requires EmptyHanded(v)
    ensures !Holder(v, i) && (!o.Entry? ==> !Owns(v, o, b))
  {
    assert forall r :: r in v.ctl.reqs && Outstanding(v.ctl.reqs[r]) ==> r in Out(v.ctl);
  }

  /** n is m with or without the one empty-handed sweep k. */
  ghost predicate DiffersBy(m: Many, n: Many, k: Sid) {
    && Bare(n) == Bare(m)
    && (forall l :: l != k ==> (l in n.runs <==> l in m.runs))
    && (forall l :: l != k && l in m.runs ==> View(n, l) == View(m, l))
    && (k in m.runs ==> EmptyHanded(View(m, k)))
    && (k in n.runs ==> EmptyHanded(View(n, k)) && ViewOk(View(n, k)))
  }

  lemma SameOutside(m: Many, n: Many, k: Sid, l: Sid, i: nat, o: Owner, b: nat)
    requires DiffersBy(m, n, k)
    ensures Holds(n, l, i) <==> Holds(m, l, i)
    ensures ManyOwns(n, Local(l, o), b) <==> ManyOwns(m, Local(l, o), b)
  {
    if l == k {
      if k in m.runs {
        HoldsNothing(View(m, k), i, o, b);
      }
      if k in n.runs {
        HoldsNothing(View(n, k), i, o, b);
      }
    }
  }

  lemma OwnedOnceSame(m: Many, n: Many, k: Sid)
    requires ManyOwnedOnce(m) && DiffersBy(m, n, k)
    ensures ManyOwnedOnce(n)
  {
    forall o, c ensures ManyOwns(n, o, c) <==> ManyOwns(m, o, c) {
      if o.Local? {
        SameOutside(m, n, k, o.k, 0, o.o, c);
      }
    }
    OwnedOnceAfter(m, n, None, None, 0);
  }

  lemma HeldSame(m: Many, n: Many, k: Sid)
    requires Apart(m) && AllHeld(m) && DiffersBy(m, n, k)
    ensures Apart(n) && AllHeld(n)
  {
    forall l, j, i | Holds(n, l, i) && Holds(n, j, i) ensures l == j {
      SameOutside(m, n, k, l, i, Reservation, 0);
      SameOutside(m, n, k, j, i, Reservation, 0);
    }
    forall i | 0 <= i < |n.dev.table| && n.dev.table[i].underWb ensures exists l :: Holds(n, l, i) {
      var l :| Holds(m, l, i);
      SameOutside(m, n, k, l, i, Reservation, 0);
    }
  }

  lemma OkAfterComingOrGoing(m: Many, n: Many, k: Sid)
    requires ManyOk(m) && DiffersBy(m, n, k)
    ensures ManyOk(n)
  {
    OwnedOnceSame(m, n, k);
    HeldSame(m, n, k);
    forall l | l in n.runs ensures ViewOk(View(n, l)) {
      if l != k {
        assert ViewOk(View(m, l));
      }
    }
  }

  lemma ViewAfterLimit(m: Many, k: Sid, enable: bool, value: nat)
    requires ViewsOk(m) && k in m.runs
    ensures ViewOk(View(ManyApply(m, SetLimit(enable, value)), k))
    ensures forall i :: Holds(ManyApply(m, SetLimit(enable, value)), k, i) <==> Holds(m, k, i)
  {
    var v, w := View(m, k), View(ManyApply(m, SetLimit(enable, value)), k);
    assert ViewOk(v);
    forall r | r in v.ctl.reqs && v.ctl.reqs[r].phase == Done(true)
      ensures BlockHolds(w, v.ctl.reqs[r].blk, v.ctl.reqs[r].gen)
    {
      assert BlockHolds(v, v.ctl.reqs[r].blk, v.ctl.reqs[r].gen);
    }
    KeptViewOk(v, w);
  }

  lemma HeldAfterLimit(m: Many, enable: bool, value: nat)
    requires ViewsOk(m) && Apart(m) && AllHeld(m)
    ensures Apart(ManyApply(m, SetLimit(enable, value))) && AllHeld(ManyApply(m, SetLimit(enable, value)))
  {
    var n := ManyApply(m, SetLimit(enable, value));
    forall k, i ensures Holds(n, k, i) <==> Holds(m, k, i) {
      if k in m.runs {
        ViewAfterLimit(m, k, enable, value);
      }
    }
    forall i | 0 <= i < |n.dev.table| && n.dev.table[i].underWb ensures exists k :: Holds(n, k, i) {
      var k :| Holds(m, k, i);
      assert Holds(n, k, i);
    }
  }

  lemma OwnersAfterLimit(m: Many, enable: bool, value: nat)
    requires ManyOwnedOnce(m)
    ensures ManyOwnedOnce(ManyApply(m, SetLimit(enable, value)))
  {
    OwnedOnceAfter(m, ManyApply(m, SetLimit(enable, value)), None, None, 0);
  }

  lemma OkAfterLimit(m: Many, enable: bool, value: nat)
    requires ManyOk(m)
    ensures ManyOk(ManyApply(m, SetLimit(enable, value)))
  {
    var n := ManyApply(m, SetLimit(enable, value));
    forall k | k in n.runs ensures ViewOk(View(n, k)) {
      ViewAfterLimit(m, k, enable, value);
    }
    HeldAfterLimit(m, enable, value);
    OwnersAfterLimit(m, enable, value);
  }

  lemma BeginDiffers(m: Many, k: Sid, run: Run)
    requires ReadsBack(Bare(m)) && ManyEnabled(m, Begin(k, run))
    ensures DiffersBy(m, ManyApply(m, Begin(k, run)), k)
  {
    FreshView(m, k, run);
  }

  lemma OkAfterBegin(m: Many, k: Sid, run: Run)
    requires ManyOk(m) && ManyEnabled(m, Begin(k, run))
    ensures ManyOk(ManyApply(m, Begin(k, run)))
  {
    BeginDiffers(m, k, run);
    OkAfterComingOrGoing(m, ManyApply(m, Begin(k, run)), k);
  }

  lemma LeaveFrame(m: Many, n: Many, k: Sid)
    requires n == m.(runs := m.runs - {k})
    ensures Bare(n) == Bare(m) && k !in n.runs
    ensures forall l :: l != k ==> (l in n.runs <==> l in m.runs)
    ensures forall l :: l != k && l in m.runs ==> View(n, l) == View(m, l)
  {
  }

  lemma LeaveDiffers(m: Many, k: Sid)
    requires k in m.runs && EmptyHanded(View(m, k))
    ensures DiffersBy(m, m.(runs := m.runs - {k}), k)
  {
    LeaveFrame(m, m.(runs := m.runs - {k}), k);
  }

  lemma OkAfterLeave(m: Many, k: Sid)
    requires ManyOk(m) && ManyEnabled(m, Leave(k))
    ensures ManyOk(ManyApply(m, Leave(k)))
  {
    FinishedView(m, k);
    LeaveDiffers(m, k);
    OkAfterComingOrGoing(m, ManyApply(m, Leave(k)), k);
  }

  lemma OkAfter(m: Many, step: ManyStep)
    requires ManyOk(m) && ManyEnabled(m, step)
    ensures ManyOk(ManyApply(m, step))
  {
    match step
    case Of(k, st) => OkAfterOwn(m, k, st);
    case Touch(st) => OkAfterTouch(m, st);
    case Begin(k, run) => OkAfterBegin(m, k, run);
    case Leave(k) => OkAfterLeave(m, k);
    case SetLimit(enable, value) => OkAfterLimit(m, enable, value);
  }

  // ---- whole runs ----

  ghost predicate IsManyRun(run: seq<Many>, steps: seq<ManyStep>) {
    && |run| == |steps| + 1 && run[0].runs == map[] && Quiet(run[0].dev)
    && (forall k :: 0 <= k < |steps| ==> ManyEnabled(run[k], steps[k]) && run[k + 1] == ManyApply(run[k], steps[k]))
  }

  lemma QuietIsOk(m: Many)
    requires m.runs == map[] && Quiet(m.dev)
    ensures ManyOk(m)
  {
    forall b | b in m.dev.busy ensures exists o :: ManyOwns(m, o, b) {
      var i :| 0 <= i < |m.dev.table| && m.dev.table[i].wb && m.dev.table[i].element == b;
      assert ManyOwns(m, InSlot(i), b);
    }
  }

  lemma {:induction false} RunStaysOk(run: seq<Many>, steps: seq<ManyStep>, j: nat)
    requires IsManyRun(run, steps) && j < |run|
    ensures ManyOk(run[j])
  {
    if j == 0 {
      QuietIsOk(run[0]);
    } else {
      RunStaysOk(run, steps, j - 1);
      OkAfter(run[j - 1], steps[j - 1]);
    }
  }

  /**
   However many sweeps overlap, come and go: in every reachable state each busy block has exactly
   one owner among all their reservations and requests and all slots, each ZRAM_UNDER_WB slot is
   held by exactly one sweep, every written-back slot reads back what was stored in it, and the
   statistics are exact.
   */
  lemma SweepsDoNotClash(run: seq<Many>, steps: seq<ManyStep>, j: nat)
    requires IsManyRun(run, steps) && j < |run|
    ensures ManyOwnedOnce(run[j])
    ensures forall i :: 0 <= i < |run[j].dev.table| && run[j].dev.table[i].underWb ==>
      exists k :: Holds(run[j], k, i) && forall l :: Holds(run[j], l, i) ==> l == k
    ensures ReadsBack(Bare(run[j])) && StatsExact(run[j].dev)
  {
    RunStaysOk(run, steps, j);
    forall i | 0 <= i < |run[j].dev.table| && run[j].dev.table[i].underWb
      ensures exists k :: Holds(run[j], k, i) && forall l :: Holds(run[j], l, i) ==> l == k
    {
      var k :| Holds(run[j], k, i);
    }
  }

  /** And once the last of them has left, the device is as quiet as it was found. */
  lemma LastSweepLeavesQuiet(run: seq<Many>, steps: seq<ManyStep>, j: nat)
    requires IsManyRun(run, steps) && j < |run| && run[j].runs == map[]
    ensures Quiet(run[j].dev)
  {
    RunStaysOk(run, steps, j);
    OkIsQuiet(run[j]);
  }

  lemma OkIsQuiet(m: Many)
    requires ManyOk(m) && m.runs == map[]
    ensures Quiet(m.dev)
  {
    forall i | 0 <= i < |m.dev.table| && m.dev.table[i].wb
      ensures m.dev.table[i].element in m.dev.busy && m.dev.table[i].element != 0
      ensures BlockHolds(Bare(m), m.dev.table[i].element, m.dev.table[i].gen)
    {
      assert ManyOwns(m, InSlot(i), m.dev.table[i].element);
    }
    forall i, j | 0 <= i < j < |m.dev.table| && m.dev.table[i].wb && m.dev.table[j].wb
      ensures m.dev.table[i].element != m.dev.table[j].element
    {
      assert ManyOwns(m, InSlot(i), m.dev.table[i].element) && ManyOwns(m, InSlot(j), m.dev.table[j].element);
    }
    forall b | b in m.dev.busy
      ensures exists i :: 0 <= i < |m.dev.table| && m.dev.table[i].wb && m.dev.table[i].element == b
    {
      var o :| ManyOwns(m, o, b);
      assert o.InSlot?;
    }
  }
}
