/**
 The node's state as the driver updates it in place.  Each method is one of the driver's
 functions, run against the step system: a critical section is one step, a function that runs
 undisturbed is a run of steps.
 */
module KcompressdNode {
  import opened Wrappers
  import opened Kcompressd
  import opened KcompressdSafety

  /** What abk_kcompressd_do_swapout() achieves when nobody interferes. */
  ghost predicate SwappedOut(s: State, r: State, p: PageId, async: bool) {
    && p in s.queuedSlot && p in r.pages
    && r.writes == s.writes + [Write(p, Some(s.queuedSlot[p]), s.queuedSlot[p])]
    && r.swapped == s.swapped + 1
    && r.pages[p].locked == None && r.pages[p].wb == async
    && Untouched(s, r, p)
  }

  ghost predicate Untouched(s: State, r: State, p: PageId) {
    && r.pages.Keys == s.pages.Keys && (forall q :: q in s.pages && q != p ==> r.pages[q] == s.pages[q])
    && r.ring == s.ring && r.phase == s.phase && r.popped == s.popped && r.dropped == s.dropped
    && r.queuedSlot == s.queuedSlot && r.holding == s.holding
  }

  ghost predicate StepTo(s: State, step: Step, r: State) {
    Enabled(s, step) && r == Apply(s, step)
  }

  lemma SlotWhileCarried(s: State, t: Tid)
    requires Reachable(s) && t in s.work && !s.work[t].Written?
    ensures KeepsSlot(s, s.work[t].page)
  {
    ReachableInv(s);
    assert PinnedWork(s, s.work[t], t);
  }

  lemma ReferencedWhileCarried(s: State, t: Tid)
    requires Reachable(s) && t in s.work && s.work[t].page in s.pages
    ensures s.pages[s.work[t].page].refs > 0
  {
    ReachableInv(s);
    CarriedPageIsReferenced(s, t);
  }

  lemma CheckEffect(s: State, t: Tid) returns (r: State)
    requires t in s.work && s.work[t].Popped? && Unlocked(s, s.work[t].page)
    requires s.pages[s.work[t].page].slot.Some?
    ensures StepTo(s, Check(t), r) && r == s.(work := s.work[t := Checked(s.work[t].page)])
  {
    r := Apply(s, Check(t));
  }

  lemma LockEffect(s: State, t: Tid) returns (b: State, r: State)
    requires t in s.work && s.work[t].Checked? && Unlocked(s, s.work[t].page)
    ensures StepTo(s, LockForWrite(t), b) && StepTo(b, EndPin(t), r)
    ensures r.work == s.work[t := Writing(s.work[t].page)] && Untouched(s, r, s.work[t].page)
    ensures r.writes == s.writes && r.swapped == s.swapped
  {
    b := Apply(s, LockForWrite(t));
    r := Apply(b, EndPin(t));
  }

  lemma WriteEffect(s: State, t: Tid, async: bool) returns (r: State)
    requires t in s.work && s.work[t].Writing? && KeepsSlot(s, s.work[t].page)
    ensures StepTo(s, IssueWrite(t, async), r)
    ensures
      var p := s.work[t].page;
      && r.work == s.work[t := Written(p)] && Untouched(s, r, p)
      && r.writes == s.writes + [Write(p, Some(s.queuedSlot[p]), s.queuedSlot[p])]
      && r.swapped == s.swapped && r.pages[p].locked == None && r.pages[p].wb == async
  {
    r := Apply(s, IssueWrite(t, async));
  }

  lemma PutEffect(s: State, t: Tid) returns (r: State)
    requires t in s.work && s.work[t].Written? && s.work[t].page in s.pages && s.pages[s.work[t].page].refs > 0
    ensures StepTo(s, PutPage(t), r)
    ensures
      var p := s.work[t].page;
      && r.work == s.work - {t} && Untouched(s, r, p)
      && r.writes == s.writes && r.swapped == s.swapped + 1
      && r.pages[p].locked == s.pages[p].locked && r.pages[p].wb == s.pages[p].wb
  {
    r := Apply(s, PutPage(t));
  }

  lemma UntouchedTransitive(s: State, m: State, r: State, p: PageId)
    requires Untouched(s, m, p) && Untouched(m, r, p)
    ensures Untouched(s, r, p)
  {
  }

  lemma SwappedOutAfter(s: State, c: State, r: State, p: PageId, async: bool)
    requires Untouched(s, c, p) && c.writes == s.writes && c.swapped == s.swapped && SwappedOut(c, r, p, async)
    ensures SwappedOut(s, r, p, async)
  {
    UntouchedTransitive(s, c, r, p);
  }

  lemma GetThenPut(pages: map<PageId, Page>, p: PageId)
    requires p in pages
    ensures
      var more := pages[p := pages[p].(refs := pages[p].refs + 1)];
      more[p := more[p].(refs := more[p].refs - 1)] == pages
  {
  }

  lemma RunToChecked(s: State, t: Tid) returns (a: State)
    requires Reachable(s) && t in s.work && s.work[t].Popped? && Unlocked(s, s.work[t].page)
    ensures StepTo(s, Check(t), a) && Reachable(a) && a == s.(work := s.work[t := Checked(s.work[t].page)])
  {
    SlotWhileCarried(s, t);
    a := CheckEffect(s, t);
    ReachableAfter(s, Check(t));
  }

  lemma RunToLocked(a: State, t: Tid) returns (b: State, c: State)
    requires Reachable(a) && t in a.work && a.work[t].Checked? && Unlocked(a, a.work[t].page)
    ensures StepTo(a, LockForWrite(t), b) && StepTo(b, EndPin(t), c) && Reachable(c)
    ensures c.work == a.work[t := Writing(a.work[t].page)] && Untouched(a, c, a.work[t].page)
    ensures c.writes == a.writes && c.swapped == a.swapped
  {
    b, c := LockEffect(a, t);
    ReachableAfter(a, LockForWrite(t));
    ReachableAfter(b, EndPin(t));
  }

  lemma RunToWriting(s: State, t: Tid) returns (a: State, b: State, c: State)
    requires Reachable(s) && t in s.work && s.work[t].Popped? && Unlocked(s, s.work[t].page)
    ensures StepTo(s, Check(t), a) && StepTo(a, LockForWrite(t), b) && StepTo(b, EndPin(t), c)
    ensures Reachable(c) && c.work == s.work[t := Writing(s.work[t].page)]
    ensures Untouched(s, c, s.work[t].page) && c.writes == s.writes && c.swapped == s.swapped
  {
    a := RunToChecked(s, t);
    b, c := RunToLocked(a, t);
  }

  lemma RunToDone(c: State, t: Tid, async: bool) returns (d: State, r: State)
    requires Reachable(c) && t in c.work && c.work[t].Writing?
    ensures StepTo(c, IssueWrite(t, async), d) && StepTo(d, PutPage(t), r)
    ensures Reachable(r) && r.work == c.work - {t} && SwappedOut(c, r, c.work[t].page, async)
  {
    SlotWhileCarried(c, t);
    d := WriteEffect(c, t, async);
    ReachableAfter(c, IssueWrite(t, async));
    ReferencedWhileCarried(d, t);
    r := PutEffect(d, t);
    ReachableAfter(d, PutPage(t));
    UntouchedTransitive(c, d, r, c.work[t].page);
  }

  /** The writes that put each of these pages where it was queued to go, in this order. */
  ghost function WritesOf(pages: seq<PageId>, queuedSlot: map<PageId, Slot>): seq<Write> {
    if pages == [] then []
    else [WriteOf(pages[0], queuedSlot)] + WritesOf(pages[1..], queuedSlot)
  }

  ghost function WriteOf(p: PageId, queuedSlot: map<PageId, Slot>): Write {
    if p in queuedSlot then Write(p, Some(queuedSlot[p]), queuedSlot[p]) else Write(p, None, 0)
  }

  lemma WritesOfFirst(before: seq<Write>, pages: seq<PageId>, queuedSlot: map<PageId, Slot>)
    requires pages != []
    ensures before + WritesOf(pages, queuedSlot)
              == before + [WriteOf(pages[0], queuedSlot)] + WritesOf(pages[1..], queuedSlot)
  {
  }

  ghost predicate AllUnlocked(s: State, ps: seq<PageId>) {
    forall i :: 0 <= i < |ps| ==> Unlocked(s, ps[i])
  }

  lemma AllUnlockedAfter(s: State, r: State, p: PageId)
    requires s.ring != [] && p == s.ring[0] && AllUnlocked(s, s.ring) && r.ring == s.ring[1..]
    requires r.pages.Keys == s.pages.Keys && (forall q :: q in s.pages && q != p ==> r.pages[q] == s.pages[q])
    requires p in r.pages && r.pages[p].locked == None
    ensures AllUnlocked(r, r.ring)
  {
    forall i | 0 <= i < |r.ring| ensures Unlocked(r, r.ring[i]) {
      assert r.ring[i] == s.ring[i + 1];
      assert Unlocked(s, s.ring[i + 1]);
    }
  }

  lemma PopEffect(s: State, t: Tid) returns (r: State)
    requires Reachable(s) && MayPop(s, t) && s.ring != []
    ensures StepTo(s, Pop(t), r) && r == PopHead(s, t) && Reachable(r)
    ensures s.ring[0] in s.pages && s.ring[0] in s.queuedSlot && s.ring[0] !in r.ring
  {
    r := Apply(s, Pop(t));
    ReachableInv(s);
    assert Pinned(s, s.ring[0]);
    ReachableAfter(s, Pop(t));
  }

  class Node {
    var pages: map<PageId, Page>
    var io: set<PageId>
    var ring: seq<PageId>
    var phase: Phase
    var threshold: nat
    var work: map<Tid, Work>
    var holding: map<Tid, Hold>
    var enqueued: nat
    var swapped: nat
    var dropped: nat
    ghost var submitted: seq<PageId>
    ghost var popped: seq<PageId>
    ghost var queuedSlot: map<PageId, Slot>
    ghost var writes: seq<Write>

    /** Any set of pages, the thread not started yet. */
    constructor (pages: map<PageId, Page>, threshold: nat)
      requires threshold <= FIFO_SIZE
      requires forall p :: p in pages ==> pages[p].refs == 0 && pages[p].locked == None && !pages[p].wb
      requires forall p, q :: p in pages && q in pages && p != q && pages[p].slot.Some? ==>
        pages[p].slot != pages[q].slot
      ensures Init(Abs()) && this.pages == pages && this.threshold == threshold
    {
      this.pages, this.threshold, io, ring, phase := pages, threshold, {}, [], Down;
      work, holding, enqueued, swapped, dropped := map[], map[], 0, 0, 0;
      submitted, popped, queuedSlot, writes := [], [], map[], [];
    }

    ghost function Abs(): State
      reads this
    {
      State(pages, io, ring, phase, threshold, work, holding, enqueued, swapped, dropped,
            submitted, popped, queuedSlot, writes)
    }

    /** kfifo_out() into t's hands; false means the ring was empty. */
    method FifoOut(t: Tid) returns (got: bool)
      modifies this`ring, this`work, this`popped
      ensures got <==> old(ring) != []
      ensures Abs() == if got then PopHead(old(Abs()), t) else old(Abs())
    {
      if ring == [] {
        return false;
      }
      work := work[t := Popped(ring[0])];
      popped := popped + [ring[0]];
      ring := ring[1..];
      return true;
    }

    /** get_page() and kfifo_in(), the reference given back when the ring was full. */
    method FifoIn(t: Tid, p: PageId) returns (ok: bool)
      requires p in pages && pages[p].slot.Some?
      modifies this`pages, this`ring, this`submitted, this`queuedSlot, this`holding, this`enqueued
      ensures ok <==> |old(ring)| < FIFO_SIZE
      ensures Abs() == if ok then PushTail(old(Abs()), t, p) else old(Abs())
    {
      GetThenPut(pages, p);
      pages := pages[p := pages[p].(refs := pages[p].refs + 1)];
      ok := |ring| < FIFO_SIZE;
      if ok {
        Push(t, p);
      } else {
        pages := pages[p := pages[p].(refs := pages[p].refs - 1)];
      }
    }

    /** A page with its reference taken goes in at the tail. */
    method Push(t: Tid, p: PageId)
      requires p in pages && pages[p].slot.Some?
      modifies this`ring, this`submitted, this`queuedSlot, this`holding, this`enqueued
      ensures Abs() == old(Abs()).(
        ring := old(ring) + [p], submitted := old(submitted) + [p], enqueued := old(enqueued) + 1,
        queuedSlot := old(queuedSlot)[p := pages[p].slot.value], holding := old(holding)[t := Hold(p, true)])
    {
      ring := ring + [p];
      submitted := submitted + [p];
      queuedSlot := queuedSlot[p := pages[p].slot.value];
      holding := holding[t := Hold(p, true)];
      enqueued := enqueued + 1;
    }

    /** abk_kcompressd_enqueue(), the part under the ring lock. */
    method Enqueue(t: Tid) returns (queued: bool)
      requires Enabled(Abs(), Step.Enqueue(t))
      modifies this
      ensures Abs() == EnqueueStep(old(Abs()), t)
      ensures RingBounded(old(Abs())) ==> (queued <==> old(phase == Up && !CannotMakeRoom(Abs())))
    {
      var p := holding[t].page;
      if phase != Up {
        return false;
      }
      if |ring| >= threshold {
        var got := FifoOut(t);
        if !got {
          return false;
        }
      }
      queued := FifoIn(t, p);
    }

    /** PageSwapCache(): a page whose slot is gone is dropped, its pin ended. */
    method CheckSwapCache(t: Tid)
      requires WorkIn(Abs(), t, 0)
      modifies this`pages, this`work, this`dropped
      ensures Abs() == CheckStep(old(Abs()), t)
    {
      var p := work[t].page;
      if pages[p].slot == None {
        pages := pages[p := pages[p].(wb := false, refs := if pages[p].refs > 0 then pages[p].refs - 1 else 0)];
        work := work - {t};
        dropped := dropped + 1;
      } else {
        work := work[t := Checked(p)];
      }
    }

    /** lock_page() */
    method LockPage(t: Tid)
      requires Enabled(Abs(), LockForWrite(t))
      modifies this`pages, this`work
      ensures Abs() == Apply(old(Abs()), LockForWrite(t))
    {
      var p := work[t].page;
      pages := pages[p := pages[p].(locked := Some(t))];
      work := work[t := Locked(p)];
    }

    /** end_page_writeback(): the pin set at enqueue ends under the page lock. */
    method EndPageWriteback(t: Tid)
      requires Enabled(Abs(), EndPin(t))
      modifies this`pages, this`work
      ensures Abs() == Apply(old(Abs()), EndPin(t))
    {
      var p := work[t].page;
      pages := pages[p := pages[p].(wb := false)];
      work := work[t := Writing(p)];
    }

    /** frontswap_store() or __swap_writepage(): the page is written and unlocked. */
    method WriteOut(t: Tid, async: bool)
      requires WorkIn(Abs(), t, 3)
      modifies this`pages, this`io, this`work, this`writes
      ensures Abs() == WriteStep(old(Abs()), t, async)
    {
      var p := work[t].page;
      writes := writes + [Write(p, pages[p].slot, if p in queuedSlot then queuedSlot[p] else 0)];
      pages := pages[p := pages[p].(locked := None, wb := async)];
      if async {
        io := io + {p};
      }
      work := work[t := Written(p)];
    }

    /** Count the page and drop the reference abk_kcompressd_enqueue() took. */
    method CountAndPut(t: Tid)
      requires WorkIn(Abs(), t, 4) && pages[work[t].page].refs > 0
      modifies this`pages, this`work, this`swapped
      ensures Abs() == PutStep(old(Abs()), t)
    {
      var p := work[t].page;
      swapped := swapped + 1;
      pages := pages[p := pages[p].(refs := pages[p].refs - 1)];
      work := work - {t};
    }

    /** The first half of abk_kcompressd_do_swapout(): the page is checked, locked and unpinned. */
    method TakeOver(t: Tid)
      requires Reachable(Abs()) && t in work && work[t].Popped? && Unlocked(Abs(), work[t].page)
      modifies this`pages, this`work, this`dropped
      ensures Reachable(Abs()) && work == old(work)[t := Writing(old(work)[t].page)]
      ensures Untouched(old(Abs()), Abs(), old(work)[t].page)
    {
      ghost var a, b, c := RunToWriting(Abs(), t);
      CheckSwapCache(t);
      LockPage(t);
      EndPageWriteback(t);
    }

    /** The second half: it is written, unlocked, counted and put. */
    method WriteAndPut(t: Tid, async: bool)
      requires Reachable(Abs()) && t in work && work[t].Writing?
      modifies this`pages, this`io, this`work, this`swapped, this`writes
      ensures Reachable(Abs()) && work == old(work) - {t}
      ensures SwappedOut(old(Abs()), Abs(), old(work)[t].page, async)
    {
      ghost var d, r := RunToDone(Abs(), t, async);
      WriteOut(t, async);
      assert Abs() == d;
      CountAndPut(t);
      assert Abs() == r;
    }

    /** abk_kcompressd_do_swapout() on a page whose lock is free, nobody interfering. */
    method SwapOut(t: Tid, async: bool)
      requires Reachable(Abs()) && t in work && work[t].Popped? && Unlocked(Abs(), work[t].page)
      modifies this`pages, this`io, this`work, this`swapped, this`dropped, this`writes
      ensures Reachable(Abs()) && work == old(work) - {t}
      ensures SwappedOut(old(Abs()), Abs(), old(work[t].page), async)
    {
      ghost var s := Abs();
      TakeOver(t);
      ghost var c := Abs();
      WriteAndPut(t, async);
      SwappedOutAfter(s, c, Abs(), s.work[t].page, async);
    }

    /** One turn of the teardown's loop: the oldest page is written out. */
    method DrainOne(async: bool)
      requires Reachable(Abs()) && phase == Draining && HOTPLUG !in work && ring != [] && AllUnlocked(Abs(), ring)
      modifies this`pages, this`io, this`work, this`swapped, this`dropped, this`writes, this`ring, this`popped
      ensures Reachable(Abs()) && work == old(work) && ring == old(ring)[1..] && AllUnlocked(Abs(), ring)
      ensures swapped == old(swapped) + 1
      ensures writes == old(writes) + [WriteOf(old(ring)[0], queuedSlot)]
    {
      assert Unlocked(Abs(), ring[0]);
      ghost var s := PopEffect(Abs(), HOTPLUG);
      var _ := FifoOut(HOTPLUG);
      SwapOut(HOTPLUG, async);
      AllUnlockedAfter(old(Abs()), Abs(), old(ring[0]));
      assert work == old(work);
    }

    /**
     The tail of abk_kcompressd_del_node(): whatever the drain thread left behind is written
     out, oldest first, each page to the slot it was queued for, until the ring can be freed.
     */
    method DrainRest(async: bool)
      requires Reachable(Abs()) && phase == Draining && HOTPLUG !in work && AllUnlocked(Abs(), ring)
      modifies this`pages, this`io, this`work, this`swapped, this`dropped, this`writes, this`ring, this`popped
      ensures Reachable(Abs()) && Enabled(Abs(), DelNodeFree)
      ensures work == old(work) && swapped == old(swapped) + |old(ring)|
      ensures writes == old(writes) + WritesOf(old(ring), queuedSlot)
    {
      while ring != []
        invariant Reachable(Abs()) && work == old(work) && AllUnlocked(Abs(), ring)
        invariant swapped + |ring| == old(swapped) + |old(ring)|
        invariant writes + WritesOf(ring, queuedSlot) == old(writes) + WritesOf(old(ring), queuedSlot)
        decreases |ring|
      {
        WritesOfFirst(writes, ring, queuedSlot);
        DrainOne(async);
      }
    }
  }
}
