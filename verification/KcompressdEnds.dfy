/** That every writeback of a page has somebody who will end it, and when a node's threads have stopped. */
module KcompressdEnds {
  import opened Wrappers
  import opened Kcompressd
  import opened KcompressdSafety

  /** Who is to end the pin of p: p waits in the ring, or a thread is on its way to write it out. */
  ghost predicate Carried(s: State, p: PageId) {
    p in s.ring || exists t :: CarriedBy(s, t, p)
  }

  predicate CarriedBy(s: State, t: Tid, p: PageId) {
    t in s.work && s.work[t].page == p && !s.work[t].Writing? && !s.work[t].Written?
  }

  /** No page is left under writeback without a bio or a carrier that ends it. */
  ghost predicate WritebackEnds(s: State) {
    forall p :: p in s.pages && s.pages[p].wb ==> p in s.io || Carried(s, p)
  }

  /** A queued page whose queuer has yet to pin it is still to be written. */
  ghost predicate QueuedIsCarried(s: State) {
    forall t :: t in s.holding && s.holding[t].queued ==> Carried(s, s.holding[t].page)
  }

  ghost predicate Ends(s: State) { WritebackEnds(s) && QueuedIsCarried(s) }

  lemma EndsAfterHold(s: State, step: Step)
    requires Ends(s) && Enabled(s, step)
    requires step.LockPage? || step.UnlockPage? || step.AddToSwap? || step.FreeSlot? || step.SyncWrite? || step.EndIo?
    ensures Ends(Apply(s, step))
  {
    var r := Apply(s, step);
    forall p | Carried(s, p) ensures Carried(r, p) {
      assert forall t :: CarriedBy(s, t, p) ==> CarriedBy(r, t, p);
    }
  }

  /** The pin of a queued page starts while the page is still to be written. */
  lemma EndsAfterPin(s: State, t: Tid)
    requires Ends(s) && Enabled(s, PinAndUnlock(t))
    ensures Ends(Apply(s, PinAndUnlock(t)))
  {
    var r := Apply(s, PinAndUnlock(t));
    forall p | Carried(s, p) ensures Carried(r, p) {
      assert forall u :: CarriedBy(s, u, p) ==> CarriedBy(r, u, p);
    }
  }

  lemma EndsAfterPop(s: State, t: Tid)
    requires Ends(s) && t !in s.work && s.ring != []
    ensures Ends(PopHead(s, t))
  {
    var r := PopHead(s, t);
    forall p | Carried(s, p) ensures Carried(r, p) {
      if p == s.ring[0] {
        assert CarriedBy(r, t, p);
      } else if p !in s.ring {
        var u :| CarriedBy(s, u, p);
        assert CarriedBy(r, u, p);
      }
    }
  }

  lemma EndsAfterPush(s: State, t: Tid, p: PageId)
    requires Ends(s) && p in s.pages && s.pages[p].slot.Some?
    ensures Ends(PushTail(s, t, p))
  {
    var r := PushTail(s, t, p);
    assert r.ring[|s.ring|] == p;
    forall q | Carried(s, q) ensures Carried(r, q) {
      if q !in s.ring {
        var u :| CarriedBy(s, u, q);
        assert CarriedBy(r, u, q);
      }
    }
  }

  lemma EndsAfterEnqueue(s: State, t: Tid)
    requires Ends(s) && Enabled(s, Enqueue(t))
    ensures Ends(Apply(s, Enqueue(t)))
  {
    if s.phase == Up && !CannotMakeRoom(s) {
      var r := if |s.ring| >= s.threshold then PopHead(s, t) else s;
      if |s.ring| >= s.threshold {
        EndsAfterPop(s, t);
      }
      if |r.ring| < FIFO_SIZE {
        EndsAfterPush(r, t, s.holding[t].page);
      }
    }
  }

  /** A dropped page has its pin ended on the spot, whether or not anything like it is reachable. */
  lemma EndsAfterCheck(s: State, t: Tid)
    requires WritebackEnds(s) && Enabled(s, Check(t))
    ensures WritebackEnds(Apply(s, Check(t)))
    ensures
      var r := Apply(s, Check(t));
      && (s.pages[s.work[t].page].slot == None <==> t !in r.work)
      && r.swapped + r.dropped + |r.work| == s.swapped + s.dropped + |s.work|
  {
    var r, own := Apply(s, Check(t)), s.work[t].page;
    forall p | Carried(s, p) && p != own ensures Carried(r, p) {
      if p !in s.ring {
        var u :| CarriedBy(s, u, p);
        assert CarriedBy(r, u, p);
      }
    }
    if s.pages[own].slot.Some? {
      assert CarriedBy(r, t, own);
    }
  }

  lemma QueuedAfterCheck(s: State, t: Tid)
    requires Pins(s) && QueuedIsCarried(s) && Enabled(s, Check(t))
    ensures QueuedIsCarried(Apply(s, Check(t)))
  {
    var r, own := Apply(s, Check(t)), s.work[t].page;
    assert PinnedWork(s, s.work[t], t);
    assert CarriedBy(r, t, own);
    forall p | Carried(s, p) ensures Carried(r, p) {
      if p != own && p !in s.ring {
        var u :| CarriedBy(s, u, p);
        assert CarriedBy(r, u, p);
      }
    }
  }

  /** The page that t goes on with is out of every other hand; all others are carried as before. */
  lemma CarriedAfterWork(s: State, step: Step, t: Tid, p: PageId)
    requires Enabled(s, step) && (step.EndPin? || step.IssueWrite? || step.PutPage? || step.LockForWrite?) && step.t == t
    requires Carried(s, p) && (p != s.work[t].page || step.LockForWrite? || !CarriedBy(s, t, p))
    ensures Carried(Apply(s, step), p)
  {
    var r := Apply(s, step);
    if p !in s.ring {
      var u :| CarriedBy(s, u, p);
      assert CarriedBy(r, u, p);
    }
  }

  lemma WritebackEndsAfterWork(s: State, step: Step)
    requires Pins(s) && WritebackEnds(s) && Enabled(s, step)
    requires step.EndPin? || step.IssueWrite? || step.PutPage? || step.LockForWrite?
    ensures WritebackEnds(Apply(s, step))
  {
    var r, t := Apply(s, step), step.t;
    forall p | p in r.pages && r.pages[p].wb && p !in r.io ensures Carried(r, p) {
      assert s.pages[p].wb && p !in s.io;
      CarriedAfterWork(s, step, t, p);
    }
  }

  lemma QueuedAfterWork(s: State, step: Step)
    requires Pins(s) && QueuedIsCarried(s) && Enabled(s, step)
    requires step.EndPin? || step.IssueWrite? || step.PutPage? || step.LockForWrite?
    ensures QueuedIsCarried(Apply(s, step))
  {
    var r, t := Apply(s, step), step.t;
    forall u | u in r.holding && r.holding[u].queued ensures Carried(r, r.holding[u].page) {
      assert PinnedWork(s, s.work[t], t);
      CarriedAfterWork(s, step, t, s.holding[u].page);
    }
  }

  lemma EndsAfter(s: State, step: Step)
    requires Pins(s) && RingBounded(s) && Ends(s) && Enabled(s, step)
    ensures Ends(Apply(s, step))
  {
    if step.EndPin? || step.IssueWrite? || step.PutPage? || step.LockForWrite? {
      WritebackEndsAfterWork(s, step);
      QueuedAfterWork(s, step);
    } else if step.Check? {
      EndsAfterCheck(s, step.t);
      QueuedAfterCheck(s, step.t);
    } else if step.Enqueue? {
      EndsAfterEnqueue(s, step.t);
    } else if step.Pop? {
      EndsAfterPop(s, step.t);
    } else if step.PinAndUnlock? {
      EndsAfterPin(s, step.t);
    } else {
      EndsAfterOther(s, step);
    }
  }

  lemma EndsAfterOther(s: State, step: Step)
    requires RingBounded(s) && Ends(s) && Enabled(s, step)
    requires !step.EndPin? && !step.IssueWrite? && !step.PutPage? && !step.LockForWrite? && !step.Check?
    requires !step.Enqueue? && !step.Pop? && !step.PinAndUnlock?
    ensures Ends(Apply(s, step))
  {
    if step.SetThreshold? || step.AddNode? || step.DelNodeBegin? || step.DelNodeStopped? || step.DelNodeFree? {
      var r := Apply(s, step);
      forall p | Carried(s, p) ensures Carried(r, p) {
        assert forall t :: CarriedBy(s, t, p) ==> CarriedBy(r, t, p);
      }
    } else {
      EndsAfterHold(s, step);
    }
  }

  // ---- when the node's threads have stopped ----

  /** The two threads of a node only carry pages while it is their turn. */
  ghost predicate InTurn(s: State) {
    && (forall t :: t in s.holding ==> t > HOTPLUG)
    && (DRAIN in s.work ==> s.phase == Up || s.phase == Stopping)
    && (HOTPLUG in s.work ==> s.phase == Draining)
  }

  lemma InTurnAfterQueue(s: State, step: Step)
    requires InTurn(s) && Enabled(s, step) && (step.Enqueue? || step.Pop?)
    ensures InTurn(Apply(s, step))
  {
  }

  /** A step after which nobody works who did not work before. */
  lemma InTurnAfterOther(s: State, step: Step)
    requires InTurn(s) && Enabled(s, step) && !step.Enqueue? && !step.Pop?
    ensures InTurn(Apply(s, step))
  {
    var r := Apply(s, step);
    assert r.work.Keys <= s.work.Keys;
    assert forall t :: t in r.holding ==> t in s.holding || t > HOTPLUG;
  }

  lemma InTurnAfter(s: State, step: Step)
    requires InTurn(s) && Enabled(s, step)
    ensures InTurn(Apply(s, step))
  {
    if step.Enqueue? || step.Pop? {
      InTurnAfterQueue(s, step);
    } else {
      InTurnAfterOther(s, step);
    }
  }

  ghost predicate Orderly(s: State) { Ends(s) && InTurn(s) }

  lemma OrderlyAtFirst(s: State)
    requires Init(s)
    ensures Orderly(s)
  {
  }

  lemma OrderlyNext(states: seq<State>, steps: seq<Step>, i: nat)
    requires IsRun(states, steps) && i < |steps| && Orderly(states[i])
    ensures Orderly(states[i + 1])
  {
    RunKeepsInv(states, steps, i);
    EndsAfter(states[i], steps[i]);
    InTurnAfter(states[i], steps[i]);
  }

  lemma {:induction false} RunIsOrderly(states: seq<State>, steps: seq<Step>, i: nat)
    requires IsRun(states, steps) && i < |states|
    ensures Orderly(states[i])
  {
    if i == 0 {
      OrderlyAtFirst(states[0]);
    } else {
      RunIsOrderly(states, steps, i - 1);
      OrderlyNext(states, steps, i - 1);
    }
  }

  lemma ReachableIsOrderly(s: State)
    requires Reachable(s)
    ensures Orderly(s) && RingBounded(s)
  {
    var states: seq<State>, steps: seq<Step> :| IsRun(states, steps) && states[|steps|] == s;
    RunIsOrderly(states, steps, |steps|);
    RunKeepsInv(states, steps, |steps|);
  }

  /**
   In every reachable state a page under writeback has a bio under way, is in the ring, or is with
   a thread that will end its pin: when nothing is under way, no page is left waiting for ever.
   */
  lemma NoWritebackIsForgotten(s: State, p: PageId)
    requires Reachable(s) && p in s.pages && s.pages[p].wb
    ensures || p in s.io || p in s.ring
            || exists t :: t in s.work && s.work[t].page == p && (s.work[t].Popped? || s.work[t].Checked? || s.work[t].Locked?)
  {
    ReachableIsOrderly(s);
    if p !in s.io && p !in s.ring {
      var t :| CarriedBy(s, t, p);
      assert s.work[t].Popped? || s.work[t].Checked? || s.work[t].Locked?;
    }
  }

  /** What del_node() frees is in nobody's hands: the ring is empty and both threads are through. */
  lemma FreedNodeIsQuiet(s: State)
    requires Reachable(s)
    ensures s.phase == Down ==> s.ring == [] && DRAIN !in s.work && HOTPLUG !in s.work
    ensures s.phase == Draining ==> DRAIN !in s.work
  {
    ReachableIsOrderly(s);
  }

  /**
   As long as a page is queued, one of the node's two threads can take the head or has a page in
   hand, whatever phase the teardown is in; with NoDeadlock that page's way out is never blocked.
   */
  lemma RingIsServed(s: State)
    requires Reachable(s) && s.ring != []
    ensures
      var t := if s.phase == Draining then HOTPLUG else DRAIN;
      t in s.work || (Enabled(s, Pop(t)) && Apply(s, Pop(t)).work[t] == Popped(s.ring[0]))
  {
    ReachableIsOrderly(s);
  }

  /** A lowered limit is in force from the next submission on: the oldest page leaves for the new one. */
  lemma LimitTakesEffect(s: State, v: nat, t: Tid)
    requires Reachable(s) && s.phase == Up && 0 < v <= |s.ring|
    requires Enabled(s, SetThreshold(v)) && Enabled(s, Enqueue(t))
    ensures
      var m := Apply(s, SetThreshold(v));
      && Enabled(m, Enqueue(t))
      && var r := Apply(m, Enqueue(t));
         && r.ring == s.ring[1..] + [s.holding[t].page] && r.popped == s.popped + [s.ring[0]]
         && t in r.work && r.work[t] == Popped(s.ring[0])
  {
    ReachableIsOrderly(s);
    EnqueueNeverOverflows(Apply(s, SetThreshold(v)), t);
  }
}
