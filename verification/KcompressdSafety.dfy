/** What every interleaving of the kcompressd steps keeps. */
module KcompressdSafety {
  import opened Wrappers
  import opened Kcompressd

  /** The slot the page owned when it was queued is still its own, and no bio can end its pin. */
  ghost predicate KeepsSlot(s: State, p: PageId) {
    && p in s.pages && p in s.queuedSlot
    && s.pages[p].slot == Some(s.queuedSlot[p])
    && p !in s.io
  }

  /** Still locked by the thread that queued it, on its way to be put under writeback. */
  ghost predicate HeldByQueuer(s: State, p: PageId) {
    && p in s.pages && s.pages[p].locked.Some?
    && var t := s.pages[p].locked.value;
       t in s.holding && s.holding[t] == Hold(p, true)
  }

  /** The pin: an ownerless queued page is under writeback, or not yet unlocked by its queuer. */
  ghost predicate Pinned(s: State, p: PageId) {
    && KeepsSlot(s, p)
    && (s.pages[p].wb || HeldByQueuer(s, p))
  }

  ghost predicate PinnedRing(s: State) {
    forall i :: 0 <= i < |s.ring| ==> Pinned(s, s.ring[i])
  }

  ghost predicate PinnedWork(s: State, w: Work, t: Tid) {
    match w
    case Popped(p) => Pinned(s, p)
    case Checked(p) => Pinned(s, p)
    case Locked(p) => KeepsSlot(s, p) && s.pages[p].locked == Some(t) && s.pages[p].wb
    case Writing(p) => KeepsSlot(s, p) && s.pages[p].locked == Some(t) && !s.pages[p].wb
    case Written(p) => p in s.pages
  }

  ghost predicate PinnedWorks(s: State) {
    forall t :: t in s.work ==> PinnedWork(s, s.work[t], t)
  }

  /** From the ring until its write is issued, a page is queued once and nowhere else. */
  ghost predicate QueuedOnce(s: State) {
    && (forall i, j :: 0 <= i < j < |s.ring| ==> s.ring[i] != s.ring[j])
    && (forall t, i :: t in s.work && !s.work[t].Written? && 0 <= i < |s.ring| ==> s.work[t].page != s.ring[i])
    && (forall t, u :: t in s.work && u in s.work && t != u && !s.work[t].Written? && !s.work[u].Written? ==>
          s.work[t].page != s.work[u].page)
  }

  ghost predicate LocksHeld(s: State) {
    && (forall t :: t in s.holding ==>
          && s.holding[t].page in s.pages && s.pages[s.holding[t].page].locked == Some(t)
          && (s.holding[t].queued ==> !s.pages[s.holding[t].page].wb))
    && (forall t :: t in s.holding && t in s.work && (s.work[t].Locked? || s.work[t].Writing?) ==>
          s.holding[t].page != s.work[t].page)
  }

  ghost predicate IoIsWriteback(s: State) {
    forall p :: p in s.io ==> p in s.pages && s.pages[p].wb
  }

  ghost predicate RingBounded(s: State) {
    |s.ring| <= FIFO_SIZE && s.threshold <= FIFO_SIZE && (s.phase == Down ==> s.ring == [])
  }

  ghost predicate InOrder(s: State) {
    s.submitted == s.popped + s.ring
  }

  ghost predicate WritesOwnSlot(s: State) {
    forall i :: 0 <= i < |s.writes| ==> s.writes[i].slot == Some(s.writes[i].queuedSlot)
  }

  ghost predicate Counted(s: State) {
    s.enqueued == s.swapped + s.dropped + |s.ring| + |s.work| && s.dropped == 0
  }

  ghost predicate Pinning(s: State) { PinnedRing(s) && PinnedWorks(s) }

  ghost predicate Locks(s: State) { QueuedOnce(s) && LocksHeld(s) && IoIsWriteback(s) && SlotsDistinct(s) }

  ghost predicate Pins(s: State) { Pinning(s) && Locks(s) }

  /** Neither in the ring nor in the hands of a thread that has yet to write it. */
  ghost predicate NotQueued(s: State, p: PageId) {
    p !in s.ring && forall u :: u in s.work && !s.work[u].Written? ==> s.work[u].page != p
  }

  /** A page somebody may lock, free the slot of, or submit is not on its way to be written. */
  lemma OwnPageIsNotQueued(s: State, t: Tid)
    requires Pins(s) && HoldsOwn(s, t) && !s.pages[s.holding[t].page].wb
    ensures NotQueued(s, s.holding[t].page)
  {
  }

  lemma HeldAfterLock(s: State, t: Tid, p: PageId)
    requires QueuedOnce(s) && LocksHeld(s) && Enabled(s, LockPage(t, p))
    ensures LocksHeld(Apply(s, LockPage(t, p)))
  {
  }

  lemma LocksAfterLock(s: State, t: Tid, p: PageId)
    requires Locks(s) && Enabled(s, LockPage(t, p))
    ensures Locks(Apply(s, LockPage(t, p)))
  {
    HeldAfterLock(s, t, p);
  }

  /** Locking an unlocked page for oneself takes no pin away. */
  lemma PinnedAfterLock(s: State, t: Tid, p: PageId)
    requires Pinning(s) && QueuedOnce(s) && LocksHeld(s) && IoIsWriteback(s) && Enabled(s, LockPage(t, p))
    ensures Pinning(Apply(s, LockPage(t, p)))
  {
    var r := Apply(s, LockPage(t, p));
    forall q | Pinned(s, q) ensures Pinned(r, q) {}
    forall u | u in r.work ensures PinnedWork(r, r.work[u], u) {
      assert u in s.work ==> PinnedWork(s, s.work[u], u);
    }
  }

  lemma PinsAfterLock(s: State, t: Tid, p: PageId)
    requires Pins(s) && Enabled(s, LockPage(t, p))
    ensures Pins(Apply(s, LockPage(t, p)))
  {
    PinnedAfterLock(s, t, p);
    LocksAfterLock(s, t, p);
  }

  lemma LocksAfterUnlock(s: State, t: Tid)
    requires Locks(s) && Enabled(s, UnlockPage(t))
    ensures Locks(Apply(s, UnlockPage(t)))
  {
  }

  lemma PinnedAfterUnlock(s: State, t: Tid)
    requires Pinning(s) && QueuedOnce(s) && LocksHeld(s) && IoIsWriteback(s) && Enabled(s, UnlockPage(t))
    ensures Pinning(Apply(s, UnlockPage(t)))
  {
    var r := Apply(s, UnlockPage(t));
    forall q | Pinned(s, q) ensures Pinned(r, q) {}
    forall u | u in r.work ensures PinnedWork(r, r.work[u], u) {
      assert u in s.work ==> PinnedWork(s, s.work[u], u);
    }
  }

  lemma PinsAfterUnlock(s: State, t: Tid)
    requires Pins(s) && Enabled(s, UnlockPage(t))
    ensures Pins(Apply(s, UnlockPage(t)))
  {
    PinnedAfterUnlock(s, t);
    LocksAfterUnlock(s, t);
  }

  lemma LocksAfterAddToSwap(s: State, t: Tid, slot: Slot)
    requires Locks(s) && Enabled(s, AddToSwap(t, slot))
    ensures Locks(Apply(s, AddToSwap(t, slot)))
  {
  }

  /** A page without a slot is not pinned, so giving it one disturbs nobody. */
  lemma PinnedAfterAddToSwap(s: State, t: Tid, slot: Slot)
    requires Pinning(s) && QueuedOnce(s) && LocksHeld(s) && IoIsWriteback(s) && Enabled(s, AddToSwap(t, slot))
    ensures Pinning(Apply(s, AddToSwap(t, slot)))
  {
    var r := Apply(s, AddToSwap(t, slot));
    forall q | Pinned(s, q) ensures Pinned(r, q) {}
    forall u | u in r.work ensures PinnedWork(r, r.work[u], u) {
      assert u in s.work ==> PinnedWork(s, s.work[u], u);
    }
  }

  lemma PinsAfterAddToSwap(s: State, t: Tid, slot: Slot)
    requires Pins(s) && Enabled(s, AddToSwap(t, slot))
    ensures Pins(Apply(s, AddToSwap(t, slot)))
  {
    PinnedAfterAddToSwap(s, t, slot);
    LocksAfterAddToSwap(s, t, slot);
  }

  lemma LocksAfterFreeSlot(s: State, t: Tid)
    requires Locks(s) && Enabled(s, FreeSlot(t))
    requires NotQueued(s, s.holding[t].page)
    ensures Locks(Apply(s, FreeSlot(t)))
  {
  }

  /** Whoever may free a slot holds a page that nobody queued. */
  lemma PinnedAfterFreeSlot(s: State, t: Tid)
    requires Pinning(s) && QueuedOnce(s) && LocksHeld(s) && IoIsWriteback(s) && Enabled(s, FreeSlot(t))
    requires NotQueued(s, s.holding[t].page)
    ensures Pinning(Apply(s, FreeSlot(t)))
  {
    var p := s.holding[t].page;
    var r := Apply(s, FreeSlot(t));
    forall q | q != p && Pinned(s, q) ensures Pinned(r, q) {}
    forall u | u in r.work ensures PinnedWork(r, r.work[u], u) {
      assert u in s.work ==> PinnedWork(s, s.work[u], u);
    }
  }

  lemma PinsAfterFreeSlot(s: State, t: Tid)
    requires Pins(s) && Enabled(s, FreeSlot(t))
    ensures Pins(Apply(s, FreeSlot(t)))
  {
    OwnPageIsNotQueued(s, t);
    PinnedAfterFreeSlot(s, t);
    LocksAfterFreeSlot(s, t);
  }

  lemma LocksAfterEndIo(s: State, p: PageId)
    requires Locks(s) && Enabled(s, EndIo(p))
    ensures Locks(Apply(s, EndIo(p)))
  {
  }

  lemma PinnedAfterEndIo(s: State, p: PageId)
    requires Pinning(s) && QueuedOnce(s) && LocksHeld(s) && IoIsWriteback(s) && Enabled(s, EndIo(p))
    ensures Pinning(Apply(s, EndIo(p)))
  {
    var r := Apply(s, EndIo(p));
    forall q | Pinned(s, q) ensures Pinned(r, q) {}
    forall u | u in r.work ensures PinnedWork(r, r.work[u], u) {
      assert u in s.work ==> PinnedWork(s, s.work[u], u);
    }
  }

  lemma PinsAfterEndIo(s: State, p: PageId)
    requires Pins(s) && Enabled(s, EndIo(p))
    ensures Pins(Apply(s, EndIo(p)))
  {
    PinnedAfterEndIo(s, p);
    LocksAfterEndIo(s, p);
  }

  lemma LocksAfterSyncWrite(s: State, t: Tid, async: bool)
    requires Locks(s) && Enabled(s, SyncWrite(t, async))
    requires NotQueued(s, s.holding[t].page)
    ensures Locks(Apply(s, SyncWrite(t, async)))
  {
  }

  lemma PinnedAfterSyncWrite(s: State, t: Tid, async: bool)
    requires Pinning(s) && QueuedOnce(s) && LocksHeld(s) && IoIsWriteback(s) && Enabled(s, SyncWrite(t, async))
    requires NotQueued(s, s.holding[t].page)
    ensures Pinning(Apply(s, SyncWrite(t, async)))
  {
    var p := s.holding[t].page;
    var r := Apply(s, SyncWrite(t, async));
    forall q | q != p && Pinned(s, q) ensures Pinned(r, q) {}
    forall u | u in r.work ensures PinnedWork(r, r.work[u], u) {
      assert u in s.work ==> PinnedWork(s, s.work[u], u);
    }
  }

  lemma PinsAfterSyncWrite(s: State, t: Tid, async: bool)
    requires Pins(s) && Enabled(s, SyncWrite(t, async))
    ensures Pins(Apply(s, SyncWrite(t, async)))
  {
    OwnPageIsNotQueued(s, t);
    PinnedAfterSyncWrite(s, t, async);
    LocksAfterSyncWrite(s, t, async);
  }

  lemma LocksAfterPinAndUnlock(s: State, t: Tid)
    requires Locks(s) && Enabled(s, PinAndUnlock(t))
    ensures Locks(Apply(s, PinAndUnlock(t)))
  {
  }

  lemma PinnedAfterPinAndUnlock(s: State, t: Tid)
    requires Pinning(s) && QueuedOnce(s) && LocksHeld(s) && IoIsWriteback(s) && Enabled(s, PinAndUnlock(t))
    ensures Pinning(Apply(s, PinAndUnlock(t)))
  {
    var r := Apply(s, PinAndUnlock(t));
    forall q | Pinned(s, q) ensures Pinned(r, q) {}
    forall u | u in r.work ensures PinnedWork(r, r.work[u], u) {
      assert u in s.work ==> PinnedWork(s, s.work[u], u);
    }
  }

  lemma PinsAfterPinAndUnlock(s: State, t: Tid)
    requires Pins(s) && Enabled(s, PinAndUnlock(t))
    ensures Pins(Apply(s, PinAndUnlock(t)))
  {
    PinnedAfterPinAndUnlock(s, t);
    LocksAfterPinAndUnlock(s, t);
  }

  lemma LocksAfterLockForWrite(s: State, t: Tid)
    requires Locks(s) && Enabled(s, LockForWrite(t))
    requires PinnedWork(s, s.work[t], t)
    ensures Locks(Apply(s, LockForWrite(t)))
  {
  }

  lemma PinnedAfterLockForWrite(s: State, t: Tid)
    requires Pinning(s) && QueuedOnce(s) && LocksHeld(s) && IoIsWriteback(s) && Enabled(s, LockForWrite(t))
    ensures Pinning(Apply(s, LockForWrite(t)))
  {
    assert PinnedWork(s, s.work[t], t);
    var p := s.work[t].page;
    var r := Apply(s, LockForWrite(t));
    forall q | q != p && Pinned(s, q) ensures Pinned(r, q) {}
    forall u | u in r.work ensures PinnedWork(r, r.work[u], u) {
      assert u in s.work ==> PinnedWork(s, s.work[u], u);
    }
  }

  lemma PinsAfterLockForWrite(s: State, t: Tid)
    requires Pins(s) && Enabled(s, LockForWrite(t))
    ensures Pins(Apply(s, LockForWrite(t)))
  {
    assert PinnedWork(s, s.work[t], t);
    PinnedAfterLockForWrite(s, t);
    LocksAfterLockForWrite(s, t);
  }

  lemma LocksAfterEndPin(s: State, t: Tid)
    requires Locks(s) && Enabled(s, EndPin(t))
    requires PinnedWork(s, s.work[t], t)
    ensures Locks(Apply(s, EndPin(t)))
  {
  }

  lemma PinnedAfterEndPin(s: State, t: Tid)
    requires Pinning(s) && QueuedOnce(s) && LocksHeld(s) && IoIsWriteback(s) && Enabled(s, EndPin(t))
    ensures Pinning(Apply(s, EndPin(t)))
  {
    assert PinnedWork(s, s.work[t], t);
    var p := s.work[t].page;
    var r := Apply(s, EndPin(t));
    forall q | q != p && Pinned(s, q) ensures Pinned(r, q) {}
    forall u | u in r.work ensures PinnedWork(r, r.work[u], u) {
      assert u in s.work ==> PinnedWork(s, s.work[u], u);
    }
  }

  lemma PinsAfterEndPin(s: State, t: Tid)
    requires Pins(s) && Enabled(s, EndPin(t))
    ensures Pins(Apply(s, EndPin(t)))
  {
    assert PinnedWork(s, s.work[t], t);
    PinnedAfterEndPin(s, t);
    LocksAfterEndPin(s, t);
  }

  lemma LocksAfterIssueWrite(s: State, t: Tid, async: bool)
    requires Locks(s) && Enabled(s, IssueWrite(t, async))
    requires PinnedWork(s, s.work[t], t)
    ensures Locks(Apply(s, IssueWrite(t, async)))
  {
  }

  lemma PinnedAfterIssueWrite(s: State, t: Tid, async: bool)
    requires Pinning(s) && QueuedOnce(s) && LocksHeld(s) && IoIsWriteback(s) && Enabled(s, IssueWrite(t, async))
    ensures Pinning(Apply(s, IssueWrite(t, async)))
  {
    assert PinnedWork(s, s.work[t], t);
    var p := s.work[t].page;
    var r := Apply(s, IssueWrite(t, async));
    forall q | q != p && Pinned(s, q) ensures Pinned(r, q) {}
    forall u | u in r.work ensures PinnedWork(r, r.work[u], u) {
      assert u in s.work ==> PinnedWork(s, s.work[u], u);
    }
  }

  lemma PinsAfterIssueWrite(s: State, t: Tid, async: bool)
    requires Pins(s) && Enabled(s, IssueWrite(t, async))
    ensures Pins(Apply(s, IssueWrite(t, async)))
  {
    assert PinnedWork(s, s.work[t], t);
    PinnedAfterIssueWrite(s, t, async);
    LocksAfterIssueWrite(s, t, async);
  }

  lemma PinsAfterPopHead(s: State, t: Tid)
    requires Pins(s) && s.ring != [] && t !in s.work
    ensures Pins(PopHead(s, t))
  {
  }

  ghost predicate Queueable(s: State, t: Tid, p: PageId) {
    && t in s.holding && s.holding[t] == Hold(p, false)
    && p in s.pages && !s.pages[p].wb && s.pages[p].slot.Some?
    && p !in s.ring && (forall u :: u in s.work && !s.work[u].Written? ==> s.work[u].page != p)
  }

  lemma PinnedAfterPushTail(s: State, t: Tid, p: PageId)
    requires Pins(s) && Queueable(s, t, p)
    ensures PinnedRing(PushTail(s, t, p)) && PinnedWorks(PushTail(s, t, p))
  {
    var r := PushTail(s, t, p);
    assert Pinned(r, p);
    forall q | q != p && Pinned(s, q) ensures Pinned(r, q) {}
    forall u | u in r.work ensures PinnedWork(r, r.work[u], u) {
      assert PinnedWork(s, s.work[u], u);
    }
  }

  lemma QueuedOnceAfterPushTail(s: State, t: Tid, p: PageId)
    requires QueuedOnce(s) && Queueable(s, t, p)
    ensures QueuedOnce(PushTail(s, t, p))
  {
  }

  lemma HeldAfterPushTail(s: State, t: Tid, p: PageId)
    requires LocksHeld(s) && IoIsWriteback(s) && SlotsDistinct(s) && Queueable(s, t, p)
    ensures LocksHeld(PushTail(s, t, p)) && IoIsWriteback(PushTail(s, t, p)) && SlotsDistinct(PushTail(s, t, p))
  {
  }

  lemma LocksAfterPushTail(s: State, t: Tid, p: PageId)
    requires Locks(s) && Queueable(s, t, p)
    ensures Locks(PushTail(s, t, p))
  {
    QueuedOnceAfterPushTail(s, t, p);
    HeldAfterPushTail(s, t, p);
  }

  lemma PinsAfterPushTail(s: State, t: Tid, p: PageId)
    requires Pins(s) && Queueable(s, t, p)
    ensures Pins(PushTail(s, t, p))
  {
    PinnedAfterPushTail(s, t, p);
    LocksAfterPushTail(s, t, p);
  }

  /** Queueing when the ring has room, or after the head has left. */
  lemma PinsAfterRoom(s: State, t: Tid, makeRoom: bool)
    requires Pins(s) && (makeRoom ==> s.ring != [] && t !in s.work) && t in s.holding
    requires Queueable(s, t, s.holding[t].page)
    ensures
      var r := if makeRoom then PopHead(s, t) else s;
      Pins(if |r.ring| < FIFO_SIZE then PushTail(r, t, s.holding[t].page) else r)
  {
    var r := if makeRoom then PopHead(s, t) else s;
    if makeRoom {
      PinsAfterPopHead(s, t);
    }
    if |r.ring| < FIFO_SIZE {
      PinsAfterPushTail(r, t, s.holding[t].page);
    }
  }

  lemma PinsAfterEnqueue(s: State, t: Tid)
    requires Pins(s) && Enabled(s, Enqueue(t))
    ensures Pins(Apply(s, Enqueue(t)))
  {
    OwnPageIsNotQueued(s, t);
    if s.phase == Up && !CannotMakeRoom(s) {
      PinsAfterRoom(s, t, |s.ring| >= s.threshold);
    }
  }

  lemma PinsAfterCheck(s: State, t: Tid)
    requires Pins(s) && Enabled(s, Check(t))
    ensures s.pages[s.work[t].page].slot != None
    ensures Pins(Apply(s, Check(t)))
  {
    assert PinnedWork(s, s.work[t], t);
  }

  lemma LocksAfterPutPage(s: State, t: Tid)
    requires Locks(s) && Enabled(s, PutPage(t))
    ensures Locks(Apply(s, PutPage(t)))
  {
  }

  lemma PinnedAfterPutPage(s: State, t: Tid)
    requires Pinning(s) && Enabled(s, PutPage(t))
    ensures Pinning(Apply(s, PutPage(t)))
  {
    var r := Apply(s, PutPage(t));
    forall q | Pinned(s, q) ensures Pinned(r, q) {}
    forall u | u in r.work ensures PinnedWork(r, r.work[u], u) {
      assert PinnedWork(s, s.work[u], u);
    }
  }

  lemma PinsAfterPutPage(s: State, t: Tid)
    requires Pins(s) && Enabled(s, PutPage(t))
    ensures Pins(Apply(s, PutPage(t)))
  {
    PinnedAfterPutPage(s, t);
    LocksAfterPutPage(s, t);
  }

  lemma PinsAfterWork(s: State, step: Step)
    requires Pins(s) && Enabled(s, step)
    requires step.Check? || step.LockForWrite? || step.EndPin? || step.IssueWrite? || step.PutPage? || step.Pop?
    ensures Pins(Apply(s, step))
  {
    if step.Pop? {
      PinsAfterPopHead(s, step.t);
    } else if step.Check? {
      PinsAfterCheck(s, step.t);
    } else if step.LockForWrite? {
      PinsAfterLockForWrite(s, step.t);
    } else if step.EndPin? {
      PinsAfterEndPin(s, step.t);
    } else if step.IssueWrite? {
      PinsAfterIssueWrite(s, step.t, step.async);
    } else {
      PinsAfterPutPage(s, step.t);
    }
  }

  lemma PinsAfterHold(s: State, step: Step)
    requires Pins(s) && Enabled(s, step)
    requires step.LockPage? || step.UnlockPage? || step.AddToSwap? || step.FreeSlot? || step.SyncWrite?
             || step.Enqueue? || step.PinAndUnlock?
    ensures Pins(Apply(s, step))
  {
    if step.LockPage? {
      PinsAfterLock(s, step.t, step.page);
    } else if step.UnlockPage? {
      PinsAfterUnlock(s, step.t);
    } else if step.AddToSwap? {
      PinsAfterAddToSwap(s, step.t, step.slot);
    } else if step.FreeSlot? {
      PinsAfterFreeSlot(s, step.t);
    } else if step.SyncWrite? {
      PinsAfterSyncWrite(s, step.t, step.async);
    } else if step.Enqueue? {
      PinsAfterEnqueue(s, step.t);
    } else {
      PinsAfterPinAndUnlock(s, step.t);
    }
  }

  lemma PinsAfter(s: State, step: Step)
    requires Pins(s) && Enabled(s, step) && (step.AddNode? ==> s.ring == [])
    ensures Pins(Apply(s, step))
  {
    if step.LockPage? || step.UnlockPage? || step.AddToSwap? || step.FreeSlot? || step.SyncWrite?
       || step.Enqueue? || step.PinAndUnlock? {
      PinsAfterHold(s, step);
    } else if step.EndIo? {
      PinsAfterEndIo(s, step.page);
    } else if step.SetThreshold? || step.AddNode? || step.DelNodeBegin? || step.DelNodeStopped? || step.DelNodeFree? {
      SamePins(s, Apply(s, step));
    } else {
      PinsAfterWork(s, step);
    }
  }

  lemma SamePins(s: State, r: State)
    requires Pins(s)
    requires r.pages == s.pages && r.io == s.io && r.ring == s.ring && r.work == s.work
    requires r.holding == s.holding && r.queuedSlot == s.queuedSlot
    ensures Pins(r)
  {
    forall q | Pinned(s, q) ensures Pinned(r, q) {}
    forall u | u in r.work ensures PinnedWork(r, r.work[u], u) {
      assert PinnedWork(s, s.work[u], u);
    }
  }

  /** Threads that still have the page in their hands. */
  ghost function Carriers(s: State, p: PageId): set<Tid> {
    set t | t in s.work && s.work[t].page == p
  }

  /** Every reference the queue took is accounted for by a place that will drop it. */
  ghost function References(s: State, p: PageId): nat {
    |Carriers(s, p)| + if p in s.ring then 1 else 0
  }

  ghost predicate ReferencesExact(s: State) {
    forall p :: p in s.pages ==> s.pages[p].refs == References(s, p)
  }

  lemma CarriersAfterAdd(s: State, t: Tid, w: Work, p: PageId)
    requires t !in s.work
    ensures |Carriers(s.(work := s.work[t := w]), p)| == |Carriers(s, p)| + if w.page == p then 1 else 0
  {
    var r := s.(work := s.work[t := w]);
    assert Carriers(r, p) == Carriers(s, p) + if w.page == p then {t} else {};
  }

  lemma CarriersAfterDrop(s: State, t: Tid, p: PageId)
    requires t in s.work
    ensures |Carriers(s.(work := s.work - {t}), p)| == |Carriers(s, p)| - if s.work[t].page == p then 1 else 0
  {
    var r := s.(work := s.work - {t});
    assert Carriers(r, p) == Carriers(s, p) - if s.work[t].page == p then {t} else {};
  }

  lemma CarriersAfterMove(s: State, t: Tid, w: Work, p: PageId)
    requires t in s.work && w.page == s.work[t].page
    ensures Carriers(s.(work := s.work[t := w]), p) == Carriers(s, p)
  {
  }

  lemma ReferencesAfterPopHead(s: State, t: Tid)
    requires ReferencesExact(s) && QueuedOnce(s) && s.ring != [] && t !in s.work
    ensures ReferencesExact(PopHead(s, t))
  {
    var r := PopHead(s, t);
    assert s.ring == [s.ring[0]] + s.ring[1..];
    forall p | p in r.pages ensures r.pages[p].refs == References(r, p) {
      CarriersAfterAdd(s, t, Popped(s.ring[0]), p);
      assert Carriers(r, p) == Carriers(s.(work := r.work), p);
    }
  }

  lemma ReferencesAfterPushTail(s: State, t: Tid, p: PageId)
    requires ReferencesExact(s) && Queueable(s, t, p)
    ensures ReferencesExact(PushTail(s, t, p))
  {
    var r := PushTail(s, t, p);
    forall q | q in r.pages ensures r.pages[q].refs == References(r, q) {
      assert Carriers(r, q) == Carriers(s, q);
    }
  }

  lemma ReferencesAfterEnqueue(s: State, t: Tid)
    requires Pins(s) && ReferencesExact(s) && Enabled(s, Enqueue(t))
    ensures ReferencesExact(Apply(s, Enqueue(t)))
  {
    OwnPageIsNotQueued(s, t);
    if s.phase == Up && !CannotMakeRoom(s) {
      if |s.ring| >= s.threshold {
        ReferencesAfterPopHead(s, t);
        var r := PopHead(s, t);
        if |r.ring| < FIFO_SIZE {
          ReferencesAfterPushTail(r, t, s.holding[t].page);
        }
      } else if |s.ring| < FIFO_SIZE {
        ReferencesAfterPushTail(s, t, s.holding[t].page);
      }
    }
  }

  lemma ReferencesAfter(s: State, step: Step)
    requires Pins(s) && ReferencesExact(s) && Enabled(s, step) && (step.AddNode? ==> s.ring == [])
    ensures ReferencesExact(Apply(s, step))
  {
    if step.Enqueue? {
      ReferencesAfterEnqueue(s, step.t);
    } else if step.Pop? {
      ReferencesAfterPopHead(s, step.t);
    } else if step.PutPage? {
      ReferencesAfterPut(s, step.t);
    } else if step.Check? || step.LockForWrite? || step.EndPin? || step.IssueWrite? {
      ReferencesWhileCarried(s, step);
    } else {
      ReferencesUntouched(s, step);
    }
  }

  lemma ReferencesWhileCarried(s: State, step: Step)
    requires Pins(s) && ReferencesExact(s) && Enabled(s, step)
    requires step.Check? || step.LockForWrite? || step.EndPin? || step.IssueWrite?
    ensures ReferencesExact(Apply(s, step))
  {
    if step.Check? {
      PinsAfterCheck(s, step.t);
    }
    ReferencesAfterMove(s, step, step.t);
  }

  lemma ReferencesUntouched(s: State, step: Step)
    requires ReferencesExact(s) && Enabled(s, step) && (step.AddNode? ==> s.ring == [])
    requires !(step.Enqueue? || step.Pop? || step.Check? || step.LockForWrite? || step.EndPin?)
    requires !(step.IssueWrite? || step.PutPage?)
    ensures ReferencesExact(Apply(s, step))
  {
    var r := Apply(s, step);
    assert r.work == s.work && r.ring == s.ring && r.pages.Keys == s.pages.Keys;
    SameReferences(s, r);
  }

  lemma SameReferences(s: State, r: State)
    requires ReferencesExact(s) && r.work == s.work && r.ring == s.ring && r.pages.Keys == s.pages.Keys
    requires forall p :: p in s.pages ==> r.pages[p].refs == s.pages[p].refs
    ensures ReferencesExact(r)
  {
    forall p | p in r.pages ensures r.pages[p].refs == References(r, p) {
      assert Carriers(r, p) == Carriers(s, p);
    }
  }

  lemma ReferencesAfterMove(s: State, step: Step, t: Tid)
    requires ReferencesExact(s) && Enabled(s, step) && t in s.work
    requires step == Check(t) || step == LockForWrite(t) || step == EndPin(t) || (step.IssueWrite? && step.t == t)
    requires step.Check? ==> s.pages[s.work[t].page].slot != None
    ensures ReferencesExact(Apply(s, step))
  {
    var r := Apply(s, step);
    forall p | p in r.pages ensures r.pages[p].refs == References(r, p) {
      CarriersAfterMove(s, t, r.work[t], p);
      assert Carriers(r, p) == Carriers(s.(work := r.work), p);
    }
  }

  lemma ReferencesAfterPut(s: State, t: Tid)
    requires ReferencesExact(s) && Enabled(s, PutPage(t))
    ensures ReferencesExact(Apply(s, PutPage(t)))
  {
    var r := Apply(s, PutPage(t));
    forall p | p in r.pages ensures r.pages[p].refs == References(r, p) {
      CarriersAfterDrop(s, t, p);
      assert Carriers(r, p) == Carriers(s.(work := r.work), p);
    }
  }

  /** A page some thread still has to drop a reference of has one. */
  lemma CarriedPageIsReferenced(s: State, t: Tid)
    requires ReferencesExact(s) && t in s.work && s.work[t].page in s.pages
    ensures s.pages[s.work[t].page].refs > 0
  {
    assert t in Carriers(s, s.work[t].page);
  }

  /** Room is made before a page is added, so kfifo_in() is never asked to overfill the ring. */
  lemma EnqueueNeverOverflows(s: State, t: Tid)
    requires RingBounded(s) && Enabled(s, Enqueue(t)) && s.phase == Up && !CannotMakeRoom(s)
    ensures
      var room := if |s.ring| >= s.threshold then PopHead(s, t) else s;
      && |room.ring| < FIFO_SIZE
      && Apply(s, Enqueue(t)) == PushTail(room, t, s.holding[t].page)
  {
  }

  lemma BoundedAfterEnqueue(s: State, t: Tid)
    requires RingBounded(s) && Enabled(s, Enqueue(t))
    ensures RingBounded(Apply(s, Enqueue(t)))
    ensures |Apply(s, Enqueue(t)).ring| <= Larger(|s.ring|, s.threshold)
  {
    if s.phase == Up && !CannotMakeRoom(s) {
      EnqueueNeverOverflows(s, t);
    }
  }

  lemma ShorterAfter(s: State, step: Step)
    requires Enabled(s, step) && !step.Enqueue?
    ensures |Apply(s, step).ring| <= |s.ring|
  {
  }

  lemma BoundedAfter(s: State, step: Step)
    requires RingBounded(s) && Enabled(s, step)
    ensures RingBounded(Apply(s, step))
    ensures |Apply(s, step).ring| <= Larger(|s.ring|, s.threshold)
  {
    if step.Enqueue? {
      BoundedAfterEnqueue(s, step.t);
    } else {
      ShorterAfter(s, step);
    }
  }

  function Larger(a: nat, b: nat): nat { if a >= b then a else b }

  lemma OrderAfterPopHead(s: State, t: Tid)
    requires InOrder(s) && s.ring != []
    ensures InOrder(PopHead(s, t))
  {
    assert s.ring == [s.ring[0]] + s.ring[1..];
  }

  lemma OrderAfterEnqueue(s: State, t: Tid)
    requires InOrder(s) && RingBounded(s) && Enabled(s, Enqueue(t))
    ensures InOrder(Apply(s, Enqueue(t)))
    ensures s.submitted <= Apply(s, Enqueue(t)).submitted && s.popped <= Apply(s, Enqueue(t)).popped
  {
    if s.phase == Up && !CannotMakeRoom(s) {
      EnqueueNeverOverflows(s, t);
      if |s.ring| >= s.threshold {
        OrderAfterPopHead(s, t);
      }
    }
  }

  lemma OrderUntouched(s: State, step: Step)
    requires InOrder(s) && RingBounded(s) && Enabled(s, step) && !step.Enqueue? && !step.Pop?
    ensures Apply(s, step).submitted == s.submitted && Apply(s, step).popped == s.popped
    ensures InOrder(Apply(s, step))
  {
  }

  /** First in, first out: what entered is what left, in order, followed by what is queued. */
  lemma OrderAfter(s: State, step: Step)
    requires InOrder(s) && RingBounded(s) && Enabled(s, step)
    ensures InOrder(Apply(s, step))
    ensures s.submitted <= Apply(s, step).submitted && s.popped <= Apply(s, step).popped
  {
    if step.Enqueue? {
      OrderAfterEnqueue(s, step.t);
    } else if step.Pop? {
      OrderAfterPopHead(s, step.t);
    } else {
      OrderUntouched(s, step);
    }
  }

  lemma CountedAfterEnqueue(s: State, t: Tid)
    requires Counted(s) && RingBounded(s) && Enabled(s, Enqueue(t))
    ensures Counted(Apply(s, Enqueue(t)))
  {
    if s.phase == Up && !CannotMakeRoom(s) {
      EnqueueNeverOverflows(s, t);
    }
  }

  lemma CountedAfterPut(s: State, t: Tid)
    requires Counted(s) && Enabled(s, PutPage(t))
    ensures Counted(Apply(s, PutPage(t)))
  {
    assert (s.work - {t}).Keys == s.work.Keys - {t};
    assert |s.work - {t}| == |s.work| - 1;
  }

  lemma CountedWhileCarried(s: State, step: Step)
    requires Counted(s) && Pins(s) && Enabled(s, step)
    requires step.Check? || step.LockForWrite? || step.EndPin? || step.IssueWrite?
    ensures Counted(Apply(s, step))
  {
    if step.Check? {
      PinsAfterCheck(s, step.t);
    }
    var r := Apply(s, step);
    assert r.work == s.work[step.t := r.work[step.t]];
    WorkMoved(s, step.t, r.work[step.t]);
  }

  lemma CountedAfter(s: State, step: Step)
    requires Counted(s) && Pins(s) && RingBounded(s) && Enabled(s, step)
    ensures Counted(Apply(s, step))
  {
    if step.Enqueue? {
      CountedAfterEnqueue(s, step.t);
    } else if step.PutPage? {
      CountedAfterPut(s, step.t);
    } else if step.Check? || step.LockForWrite? || step.EndPin? || step.IssueWrite? {
      CountedWhileCarried(s, step);
    }
  }

  lemma WorkMoved(s: State, t: Tid, w: Work)
    requires t in s.work
    ensures |s.work[t := w]| == |s.work|
  {
    assert s.work[t := w].Keys == s.work.Keys;
  }

  lemma WritesAfterIssue(s: State, t: Tid, async: bool)
    requires WritesOwnSlot(s) && Pins(s) && Enabled(s, IssueWrite(t, async))
    ensures WritesOwnSlot(Apply(s, IssueWrite(t, async)))
  {
    assert PinnedWork(s, s.work[t], t);
  }

  lemma WritesUntouched(s: State, step: Step)
    requires Enabled(s, step) && !step.IssueWrite?
    ensures Apply(s, step).writes == s.writes
  {
  }

  lemma WritesAfter(s: State, step: Step)
    requires WritesOwnSlot(s) && Pins(s) && Enabled(s, step)
    ensures WritesOwnSlot(Apply(s, step))
  {
    if step.IssueWrite? {
      WritesAfterIssue(s, step.t, step.async);
    } else {
      WritesUntouched(s, step);
    }
  }

  ghost predicate Inv(s: State) {
    && Pins(s) && ReferencesExact(s) && RingBounded(s) && InOrder(s) && WritesOwnSlot(s) && Counted(s)
  }

  lemma InitInv(s: State)
    requires Init(s)
    ensures Inv(s)
  {
    forall p | p in s.pages ensures References(s, p) == 0 {
      assert Carriers(s, p) == {};
    }
  }

  lemma InvAfter(s: State, step: Step)
    requires Inv(s) && Enabled(s, step)
    ensures Inv(Apply(s, step))
  {
    PinsAfter(s, step);
    ReferencesAfter(s, step);
    BoundedAfter(s, step);
    OrderAfter(s, step);
    WritesAfter(s, step);
    CountedAfter(s, step);
  }

  lemma {:induction false} RunKeepsInv(states: seq<State>, steps: seq<Step>, i: nat)
    requires IsRun(states, steps) && i < |states|
    ensures Inv(states[i])
  {
    if i == 0 {
      InitInv(states[0]);
    } else {
      RunKeepsInv(states, steps, i - 1);
      InvAfter(states[i - 1], steps[i - 1]);
    }
  }

  ghost predicate Reachable(s: State) {
    exists states: seq<State>, steps: seq<Step> :: IsRun(states, steps) && states[|steps|] == s
  }

  lemma ReachableInv(s: State)
    requires Reachable(s)
    ensures Inv(s)
  {
    var states: seq<State>, steps: seq<Step> :| IsRun(states, steps) && states[|steps|] == s;
    RunKeepsInv(states, steps, |steps|);
  }

  lemma ReachableAfter(s: State, step: Step)
    requires Reachable(s) && Enabled(s, step)
    ensures Reachable(Apply(s, step))
  {
    var states: seq<State>, steps: seq<Step> :| IsRun(states, steps) && states[|steps|] == s;
    var r := Apply(s, step);
    assert IsRun(states + [r], steps + [step]);
    assert (states + [r])[|steps + [step]|] == r;
  }

  /**
   Swap-slot safety.  In every state of every interleaving: each deferred write went to the
   slot its page owned when it was queued; a page that is queued or not yet written still owns
   that slot and nobody else does; and the branch that drops a page whose slot was freed is
   never taken.
   */
  lemma DeferredWritesHitTheirSlot(states: seq<State>, steps: seq<Step>, i: nat)
    requires IsRun(states, steps) && i < |states|
    ensures
      var s := states[i];
      && (forall k :: 0 <= k < |s.writes| ==> s.writes[k].slot == Some(s.writes[k].queuedSlot))
      && (forall k :: 0 <= k < |s.ring| ==> KeepsSlot(s, s.ring[k]))
      && (forall t :: t in s.work && !s.work[t].Written? ==> KeepsSlot(s, s.work[t].page))
      && SlotsDistinct(s)
      && s.dropped == 0
  {
    RunKeepsInv(states, steps, i);
    var s := states[i];
    forall t | t in s.work && !s.work[t].Written? ensures KeepsSlot(s, s.work[t].page) {
      assert PinnedWork(s, s.work[t], t);
    }
  }

  /**
   Queue discipline and accounting, for any history of the knob and of node bring-up and
   teardown: pages leave in submission order, the ring never exceeds its 256 entries, every
   extra reference belongs to a queued or carried page, nothing queued is lost, and a node
   that is down has an empty ring.
   */
  lemma QueueIsFifoAndAccounted(states: seq<State>, steps: seq<Step>, i: nat)
    requires IsRun(states, steps) && i < |states|
    ensures
      var s := states[i];
      && s.submitted == s.popped + s.ring
      && |s.ring| <= FIFO_SIZE
      && ReferencesExact(s)
      && s.enqueued == s.swapped + s.dropped + |s.ring| + |s.work|
      && (s.phase == Down ==> s.ring == [])
  {
    RunKeepsInv(states, steps, i);
  }
}
