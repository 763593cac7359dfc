/** Who waits for whom, and what a node that is not up takes in. */
module KcompressdProgress {
  import opened Wrappers
  import opened Kcompressd
  import opened KcompressdSafety

  /** One more than the place of the last submission of p; 0 if there was none. */
  ghost function LastSubmission(submitted: seq<PageId>, p: PageId): (r: nat)
    ensures r <= |submitted|
  {
    if submitted == [] then 0
    else if submitted[|submitted| - 1] == p then |submitted|
    else LastSubmission(submitted[..|submitted| - 1], p)
  }

  lemma SubmitOne(submitted: seq<PageId>, p: PageId, q: PageId)
    ensures LastSubmission(submitted + [p], q) == if q == p then |submitted| + 1 else LastSubmission(submitted, q)
  {
    assert (submitted + [p])[..|submitted|] == submitted;
  }

  /** Every lock has an owner who knows about it. */
  ghost predicate LocksOwned(s: State) {
    forall p :: p in s.pages && s.pages[p].locked.Some? ==>
      var u := s.pages[p].locked.value;
      || (u in s.holding && s.holding[u].page == p)
      || (u in s.work && (s.work[u].Locked? || s.work[u].Writing?) && s.work[u].page == p)
  }

  /** A reclaimer that has a popped page to write still holds its own, which was queued later. */
  ghost predicate OwnIsNewer(s: State) {
    && (forall t :: t in s.holding ==> t > HOTPLUG)
    && (forall t :: t in s.holding && t in s.work ==> s.holding[t].queued)
    && (forall t :: t in s.holding && t in s.work && !s.work[t].Written? ==>
          LastSubmission(s.submitted, s.work[t].page) < LastSubmission(s.submitted, s.holding[t].page))
  }

  lemma LocksOwnedAfterLock(s: State, step: Step)
    requires LocksOwned(s) && Enabled(s, step)
    requires step.LockPage? || step.AddToSwap? || step.FreeSlot? || step.EndIo?
    ensures LocksOwned(Apply(s, step))
  {
  }

  lemma LocksOwnedAfterUnlock(s: State, step: Step)
    requires LocksOwned(s) && Enabled(s, step)
    requires step.UnlockPage? || step.SyncWrite? || step.PinAndUnlock?
    ensures LocksOwned(Apply(s, step))
  {
  }

  lemma LocksOwnedAfterWork(s: State, step: Step)
    requires LocksOwned(s) && Enabled(s, step) && (step.Check? || step.LockForWrite? || step.EndPin?)
    ensures LocksOwned(Apply(s, step))
  {
  }

  lemma LocksOwnedAfterWrite(s: State, step: Step)
    requires LocksOwned(s) && Enabled(s, step) && (step.IssueWrite? || step.PutPage?)
    ensures LocksOwned(Apply(s, step))
  {
  }

  lemma LocksOwnedAfterQueue(s: State, step: Step)
    requires RingBounded(s) && LocksOwned(s) && Enabled(s, step) && (step.Enqueue? || step.Pop?)
    ensures LocksOwned(Apply(s, step))
  {
    if step.Enqueue? && s.phase == Up && !CannotMakeRoom(s) {
      EnqueueNeverOverflows(s, step.t);
    }
  }

  lemma LocksOwnedAfter(s: State, step: Step)
    requires RingBounded(s) && LocksOwned(s) && Enabled(s, step)
    ensures LocksOwned(Apply(s, step))
  {
    if step.Check? || step.LockForWrite? || step.EndPin? {
      LocksOwnedAfterWork(s, step);
    } else if step.IssueWrite? || step.PutPage? {
      LocksOwnedAfterWrite(s, step);
    } else if step.Enqueue? || step.Pop? {
      LocksOwnedAfterQueue(s, step);
    } else if step.LockPage? || step.AddToSwap? || step.FreeSlot? || step.EndIo? {
      LocksOwnedAfterLock(s, step);
    } else if step.UnlockPage? || step.SyncWrite? || step.PinAndUnlock? {
      LocksOwnedAfterUnlock(s, step);
    }
  }

  lemma OwnIsNewerAfterPush(s: State, r: State, t: Tid, p: PageId)
    requires OwnIsNewer(s) && t in s.holding && s.holding[t].page == p && t !in s.work
    requires r.submitted == s.submitted + [p] && r.holding == s.holding[t := Hold(p, true)]
    requires r.work == s.work || (exists q :: q != p && r.work == s.work[t := Popped(q)])
    requires forall u :: u in s.work && !s.work[u].Written? ==> s.work[u].page != p
    requires forall u :: u in s.holding && u != t ==> s.holding[u].page != p
    ensures OwnIsNewer(r)
  {
    forall u | u in r.holding && u in r.work && !r.work[u].Written?
      ensures LastSubmission(r.submitted, r.work[u].page) < LastSubmission(r.submitted, r.holding[u].page)
    {
      SubmitOne(s.submitted, p, r.work[u].page);
      SubmitOne(s.submitted, p, r.holding[u].page);
    }
  }

  lemma OwnIsNewerAfterEnqueue(s: State, t: Tid)
    requires Pins(s) && RingBounded(s) && OwnIsNewer(s) && Enabled(s, Enqueue(t))
    ensures OwnIsNewer(Apply(s, Enqueue(t)))
  {
    OwnPageIsNotQueued(s, t);
    if s.phase == Up && !CannotMakeRoom(s) {
      EnqueueNeverOverflows(s, t);
      OwnIsNewerAfterPush(s, Apply(s, Enqueue(t)), t, s.holding[t].page);
    }
  }

  /** A step that neither submits nor hands out a page. */
  lemma OwnIsNewerAfterOther(s: State, r: State)
    requires OwnIsNewer(s) && r.submitted == s.submitted
    requires forall t :: t in r.holding ==> t > HOTPLUG
    requires forall t :: t in r.holding && t in r.work ==>
      && t in s.holding && t in s.work && r.holding[t] == s.holding[t] && r.work[t].page == s.work[t].page
      && (s.work[t].Written? ==> r.work[t].Written?)
    ensures OwnIsNewer(r)
  {
  }

  lemma OwnIsNewerAfterHold(s: State, step: Step)
    requires OwnIsNewer(s) && Enabled(s, step)
    requires step.LockPage? || step.UnlockPage? || step.AddToSwap? || step.FreeSlot? || step.SyncWrite?
             || step.PinAndUnlock? || step.EndIo?
    ensures OwnIsNewer(Apply(s, step))
  {
    OwnIsNewerAfterOther(s, Apply(s, step));
  }

  lemma OwnIsNewerAfterWork(s: State, step: Step)
    requires OwnIsNewer(s) && Enabled(s, step)
    requires step.Check? || step.LockForWrite? || step.EndPin? || step.IssueWrite? || step.PutPage? || step.Pop?
    ensures OwnIsNewer(Apply(s, step))
  {
    OwnIsNewerAfterOther(s, Apply(s, step));
  }

  lemma OwnIsNewerAfter(s: State, step: Step)
    requires Pins(s) && RingBounded(s) && OwnIsNewer(s) && Enabled(s, step)
    ensures OwnIsNewer(Apply(s, step))
  {
    if step.Enqueue? {
      OwnIsNewerAfterEnqueue(s, step.t);
    } else if step.Check? || step.LockForWrite? || step.EndPin? || step.IssueWrite? || step.PutPage? || step.Pop? {
      OwnIsNewerAfterWork(s, step);
    } else if step.SetThreshold? || step.AddNode? || step.DelNodeBegin? || step.DelNodeStopped? || step.DelNodeFree? {
      OwnIsNewerAfterOther(s, Apply(s, step));
    } else {
      OwnIsNewerAfterHold(s, step);
    }
  }

  ghost predicate Waiting(s: State) { Inv(s) && LocksOwned(s) && OwnIsNewer(s) }

  lemma WaitingAfter(s: State, step: Step)
    requires Waiting(s) && Enabled(s, step)
    ensures Waiting(Apply(s, step))
  {
    InvAfter(s, step);
    OwnIsNewerAfter(s, step);
    LocksOwnedAfter(s, step);
  }

  lemma InitWaiting(s: State)
    requires Init(s)
    ensures Waiting(s)
  {
    InitInv(s);
  }

  lemma {:induction false} RunKeepsWaiting(states: seq<State>, steps: seq<Step>, i: nat)
    requires IsRun(states, steps) && i < |states|
    ensures Waiting(states[i])
  {
    if i == 0 {
      InitWaiting(states[0]);
    } else {
      RunKeepsWaiting(states, steps, i - 1);
      WaitingNext(states, steps, i - 1);
    }
  }

  lemma WaitingNext(states: seq<State>, steps: seq<Step>, i: nat)
    requires IsRun(states, steps) && i < |steps| && Waiting(states[i])
    ensures Waiting(states[i + 1])
  {
    WaitingAfter(states[i], steps[i]);
  }

  // ---- no deadlock ----

  /** t wants the lock of a page it has popped and checked, and u holds it. */
  ghost predicate WaitsFor(s: State, t: Tid, u: Tid) {
    && t in s.work && s.work[t].Checked? && s.work[t].page in s.pages
    && s.pages[s.work[t].page].locked == Some(u)
  }

  /** The next thing t does is possible now. */
  ghost predicate CanMove(s: State, t: Tid) {
    if t in s.work then
      Enabled(s, Check(t)) || Enabled(s, LockForWrite(t)) || Enabled(s, EndPin(t)) || Enabled(s, IssueWrite(t, false))
      || Enabled(s, PutPage(t))
    else Enabled(s, PinAndUnlock(t)) || Enabled(s, UnlockPage(t))
  }

  ghost predicate WaitChain(s: State, chain: seq<Tid>) {
    chain != [] && forall i :: 0 <= i < |chain| - 1 ==> WaitsFor(s, chain[i], chain[i + 1])
  }

  /** The page that a thread in the middle of a chain has popped is older than its predecessor's. */
  ghost predicate GoesBack(s: State, chain: seq<Tid>) {
    forall i :: 0 <= i < |chain| - 2 ==> WorksOnOlder(s, chain[i + 1], chain[i])
  }

  ghost predicate WorksOnOlder(s: State, u: Tid, t: Tid) {
    && t in s.work && u in s.work
    && LastSubmission(s.submitted, s.work[u].page) < LastSubmission(s.submitted, s.work[t].page)
  }

  lemma ReachableWaiting(s: State)
    requires Reachable(s)
    ensures Waiting(s)
  {
    var states: seq<State>, steps: seq<Step> :| IsRun(states, steps) && states[|steps|] == s;
    RunKeepsWaiting(states, steps, |steps|);
  }

  /** Whom t waits for holds the page for itself: either it can move, or it waits for an older page. */
  lemma HolderOfPopped(s: State, t: Tid, u: Tid)
    requires Reachable(s) && WaitsFor(s, t, u)
    ensures u != t && u in s.holding && s.holding[u].page == s.work[t].page
    ensures u in s.work && !s.work[u].Written? ==> WorksOnOlder(s, u, t)
  {
    ReachableWaiting(s);
    HolderIs(s, t, u);
  }

  lemma HolderIs(s: State, t: Tid, u: Tid)
    requires QueuedOnce(s) && LocksOwned(s) && OwnIsNewer(s) && WaitsFor(s, t, u)
    ensures u != t && u in s.holding && s.holding[u].page == s.work[t].page
    ensures u in s.work && !s.work[u].Written? ==> WorksOnOlder(s, u, t)
  {
  }

  lemma WorkerMoves(s: State, t: Tid)
    requires Reachable(s) && t in s.work
    ensures s.work[t].page in s.pages
    ensures !s.work[t].Checked? || Unlocked(s, s.work[t].page) ==> CanMove(s, t)
  {
    ReachableWaiting(s);
    assert PinnedWork(s, s.work[t], t);
    CarriedPageIsReferenced(s, t);
    NextOf(s, t);
  }

  lemma NextOf(s: State, t: Tid)
    requires t in s.work && s.work[t].page in s.pages && s.pages[s.work[t].page].refs > 0
    ensures !s.work[t].Checked? || Unlocked(s, s.work[t].page) ==> CanMove(s, t)
  {
    var step :=
      match s.work[t]
      case Popped(_) => Check(t)
      case Checked(_) => LockForWrite(t)
      case Locked(_) => EndPin(t)
      case Writing(_) => IssueWrite(t, false)
      case Written(_) => PutPage(t);
    assert (s.work[t].Checked? && !Unlocked(s, s.work[t].page)) || Enabled(s, step);
  }

  lemma HolderMoves(s: State, t: Tid)
    requires Reachable(s) && t in s.holding && t !in s.work
    ensures CanMove(s, t)
  {
    ReachableWaiting(s);
    assert s.holding[t].page in s.pages;
  }

  /**
   No deadlock, although a reclaimer at the soft limit locks a popped page while it holds the
   lock of its own: every thread that holds or carries a page can go on, or a chain of waiting
   threads, each after an older page, leads from it to one that can.
   */
  lemma {:induction false} NoDeadlock(s: State, t: Tid) returns (chain: seq<Tid>)
    requires Reachable(s) && (t in s.work || t in s.holding)
    ensures WaitChain(s, chain) && chain[0] == t && GoesBack(s, chain) && CanMove(s, chain[|chain| - 1])
    decreases if t in s.work then LastSubmission(s.submitted, s.work[t].page) + 1 else 0
  {
    if t !in s.work {
      HolderMoves(s, t);
      return [t];
    }
    WorkerMoves(s, t);
    if !s.work[t].Checked? || Unlocked(s, s.work[t].page) {
      return [t];
    }
    var u := s.pages[s.work[t].page].locked.value;
    HolderOfPopped(s, t, u);
    if u in s.work && !s.work[u].Written? {
      var rest := NoDeadlock(s, u);
      chain := [t] + rest;
      ChainGrows(s, t, rest);
    } else {
      chain := [t, u];
      if u in s.work {
        WorkerMoves(s, u);
      } else {
        HolderMoves(s, u);
      }
    }
  }

  lemma ChainGrows(s: State, t: Tid, rest: seq<Tid>)
    requires WaitChain(s, rest) && GoesBack(s, rest) && WaitsFor(s, t, rest[0])
    requires |rest| >= 2 ==> WorksOnOlder(s, rest[0], t)
    ensures WaitChain(s, [t] + rest) && GoesBack(s, [t] + rest)
  {
    var chain := [t] + rest;
    forall i | 0 <= i < |chain| - 1 ensures WaitsFor(s, chain[i], chain[i + 1]) {
      if i > 0 {
        assert WaitsFor(s, rest[i - 1], rest[i]);
      }
    }
    forall i | 0 <= i < |chain| - 2 ensures WorksOnOlder(s, chain[i + 1], chain[i]) {
      if i > 0 {
        assert WorksOnOlder(s, rest[i], rest[i - 1]);
      }
    }
  }

  // ---- teardown ----

  /** Nothing has entered between s and r. */
  ghost predicate Quiet(s: State, r: State) {
    && r.phase != Up && r.submitted == s.submitted && r.enqueued == s.enqueued && |r.ring| <= |s.ring|
    && (s.phase == Down ==> r.phase == Down && r.ring == [])
  }

  lemma NothingSubmitted(s: State, step: Step)
    requires Enabled(s, step) && (step.Enqueue? ==> s.phase != Up)
    ensures
      var r := Apply(s, step);
      r.submitted == s.submitted && r.enqueued == s.enqueued && |r.ring| <= |s.ring|
  {
  }

  lemma StaysDown(s: State, step: Step)
    requires Enabled(s, step) && s.phase != Up && !step.AddNode?
    ensures Apply(s, step).phase != Up && (s.phase == Down ==> Apply(s, step).phase == Down)
  {
  }

  lemma QuietAfter(s: State, step: Step)
    requires RingBounded(s) && Enabled(s, step) && s.phase != Up && !step.AddNode?
    ensures Quiet(s, Apply(s, step))
  {
    NothingSubmitted(s, step);
    StaysDown(s, step);
  }

  lemma QuietStep(states: seq<State>, steps: seq<Step>, k: nat)
    requires IsRun(states, steps) && k < |steps| && states[k].phase != Up && !steps[k].AddNode?
    ensures Quiet(states[k], states[k + 1])
  {
    RunKeepsInv(states, steps, k);
    QuietAfter(states[k], steps[k]);
  }

  lemma {:induction false} QuietStretch(states: seq<State>, i: nat, j: nat)
    requires i <= j < |states| && Quiet(states[i], states[i])
    requires forall k :: i <= k < j && states[k].phase != Up ==> Quiet(states[k], states[k + 1])
    ensures Quiet(states[i], states[j])
  {
    if i < j {
      QuietStretch(states, i, j - 1);
    }
  }

  /**
   Once a node is not up, nothing enters its ring, over any stretch of a run in which it is not
   added again; and where it has gone down the ring is empty and stays so.
   */
  lemma NothingEntersUntilAdded(states: seq<State>, steps: seq<Step>, i: nat, j: nat)
    requires IsRun(states, steps) && i <= j < |states| && states[i].phase != Up
    requires forall k :: i <= k < j ==> !steps[k].AddNode?
    ensures states[j].phase != Up && states[j].submitted == states[i].submitted
    ensures |states[j].ring| <= |states[i].ring| && states[j].enqueued == states[i].enqueued
    ensures states[i].phase == Down ==> states[j].phase == Down && states[j].ring == []
  {
    QueueIsFifoAndAccounted(states, steps, i);
    forall k: nat | i <= k < j && states[k].phase != Up ensures Quiet(states[k], states[k + 1]) {
      QuietStep(states, steps, k);
    }
    QuietStretch(states, i, j);
  }
}
