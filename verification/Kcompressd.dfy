/**
 The kcompressd offload of one memory node as a step system.  Reclaimers queue pages, a drain
 thread (or the reclaimer that needs room, or the hotplug teardown) takes them from the head
 and writes them out; between the two the page is owned by nobody.  Every lock, flag and
 reference the code touches is a step of its own, so a run is any interleaving.
 */
module Kcompressd {
  import opened Wrappers

  type PageId = nat
  type Tid = nat
  type Slot = nat

  const FIFO_SIZE := 256

  /** The node's own drain thread and the hotplug notifier; every other thread reclaims or faults. */
  const DRAIN: Tid := 0
  const HOTPLUG: Tid := 1

  /** PG_locked with its owner, PG_writeback, the swap cache entry, and the queue's references. */
  datatype Page = Page(locked: Option<Tid>, wb: bool, slot: Option<Slot>, refs: nat)

  /** Where a thread is inside abk_kcompressd_do_swapout(). */
  datatype Work =
    | Popped(page: PageId)    // left the ring
    | Checked(page: PageId)   // found in the swap cache
    | Locked(page: PageId)    // lock_page() returned
    | Writing(page: PageId)   // the pin's writeback ended
    | Written(page: PageId)   // the write is issued and the page unlocked

  /** A page lock a thread holds for itself; queued means it owes the page its writeback pin. */
  datatype Hold = Hold(page: PageId, queued: bool)

  /** Up is "kcd->task != NULL"; Stopping and Draining are del_node() before and after kthread_stop(). */
  datatype Phase = Down | Up | Stopping | Draining

  datatype Write = Write(page: PageId, slot: Option<Slot>, queuedSlot: Slot)

  datatype State = State(
    pages: map<PageId, Page>,
    io: set<PageId>,                 // writeback that a bio will end
    ring: seq<PageId>,
    phase: Phase,
    threshold: nat,
    work: map<Tid, Work>,
    holding: map<Tid, Hold>,
    enqueued: nat, swapped: nat, dropped: nat,
    submitted: seq<PageId>,          // history: everything that entered the ring
    popped: seq<PageId>,             // history: everything that left it
    queuedSlot: map<PageId, Slot>,   // history: the slot a page owned when it was last queued
    writes: seq<Write>)              // history: the deferred writes

  datatype Step =
    | SetThreshold(value: nat)
    | AddNode
    | DelNodeBegin | DelNodeStopped | DelNodeFree
    | LockPage(t: Tid, page: PageId)     // anybody: fault, reclaim
    | UnlockPage(t: Tid)
    | AddToSwap(t: Tid, slot: Slot)
    | FreeSlot(t: Tid)                   // try_to_free_swap() and its kin
    | EndIo(page: PageId)
    | SyncWrite(t: Tid, async: bool)     // the offload was refused
    | Enqueue(t: Tid)                    // abk_kcompressd_enqueue() under the ring lock
    | PinAndUnlock(t: Tid)               // set_page_writeback(); unlock_page()
    | Pop(t: Tid)                        // kfifo_out() by the drain thread or the teardown
    | Check(t: Tid)                      // PageSwapCache()
    | LockForWrite(t: Tid)
    | EndPin(t: Tid)
    | IssueWrite(t: Tid, async: bool)
    | PutPage(t: Tid)

  function SetPage(s: State, p: PageId, page: Page): State
    requires p in s.pages
  {
    s.(pages := s.pages[p := page])
  }

  predicate Unlocked(s: State, p: PageId) {
    p in s.pages && s.pages[p].locked == None
  }

  /** t holds the lock of a page it has not queued and is not writing anything out. */
  predicate HoldsOwn(s: State, t: Tid) {
    && t in s.holding && !s.holding[t].queued && t !in s.work
    && s.holding[t].page in s.pages
  }

  /** Who may take pages from the head outside abk_kcompressd_enqueue(). */
  predicate MayPop(s: State, t: Tid) {
    && t !in s.work
    && ((t == DRAIN && s.phase in {Up, Stopping}) || (t == HOTPLUG && s.phase == Draining))
  }

  predicate WorkIn(s: State, t: Tid, k: nat) {
    && t in s.work && s.work[t].page in s.pages
    && match s.work[t]
       case Popped(_) => k == 0
       case Checked(_) => k == 1
       case Locked(_) => k == 2
       case Writing(_) => k == 3
       case Written(_) => k == 4
  }

  predicate Enabled(s: State, step: Step) {
    match step
    case SetThreshold(v) => v <= FIFO_SIZE
    case AddNode => s.phase == Down
    case DelNodeBegin => s.phase == Up
    case DelNodeStopped => s.phase == Stopping && DRAIN !in s.work
    case DelNodeFree => s.phase == Draining && s.ring == [] && HOTPLUG !in s.work
    case LockPage(t, p) => t > HOTPLUG && t !in s.holding && t !in s.work && Unlocked(s, p)
    case UnlockPage(t) => HoldsOwn(s, t)
    case AddToSwap(t, slot) =>
      && HoldsOwn(s, t) && s.pages[s.holding[t].page].slot == None
      && forall p :: p in s.pages ==> s.pages[p].slot != Some(slot)
    case FreeSlot(t) => HoldsOwn(s, t) && !s.pages[s.holding[t].page].wb
    case EndIo(p) => p in s.io && p in s.pages
    case SyncWrite(t, _) => HoldsOwn(s, t) && !s.pages[s.holding[t].page].wb && s.pages[s.holding[t].page].slot.Some?
    case Enqueue(t) => HoldsOwn(s, t) && !s.pages[s.holding[t].page].wb && s.pages[s.holding[t].page].slot.Some?
    case PinAndUnlock(t) => t in s.holding && s.holding[t].queued && t !in s.work && s.holding[t].page in s.pages
    case Pop(t) => MayPop(s, t) && s.ring != []
    case Check(t) => WorkIn(s, t, 0)
    case LockForWrite(t) => WorkIn(s, t, 1) && Unlocked(s, s.work[t].page)
    case EndPin(t) => WorkIn(s, t, 2)
    case IssueWrite(t, _) => WorkIn(s, t, 3)
    case PutPage(t) => WorkIn(s, t, 4) && s.pages[s.work[t].page].refs > 0
  }

  /** kfifo_out(): the oldest page leaves the ring into t's hands. */
  function PopHead(s: State, t: Tid): State
    requires s.ring != []
  {
    s.(ring := s.ring[1..], popped := s.popped + [s.ring[0]], work := s.work[t := Popped(s.ring[0])])
  }

  /** get_page() and kfifo_in(). */
  function PushTail(s: State, t: Tid, p: PageId): State
    requires p in s.pages && s.pages[p].slot.Some?
  {
    SetPage(s, p, s.pages[p].(refs := s.pages[p].refs + 1)).(
      ring := s.ring + [p], submitted := s.submitted + [p], enqueued := s.enqueued + 1,
      queuedSlot := s.queuedSlot[p := s.pages[p].slot.value],
      holding := s.holding[t := Hold(p, true)])
  }

  /** No room can be made: the soft limit was lowered to zero behind the caller's own check. */
  predicate CannotMakeRoom(s: State) {
    |s.ring| >= s.threshold && s.ring == []
  }

  /**
   The critical section of abk_kcompressd_enqueue().  At the soft limit the head leaves first;
   when the ring turns out to be full after all, the page is not queued but the head is gone.
   */
  function EnqueueStep(s: State, t: Tid): State
    requires Enabled(s, Enqueue(t))
  {
    var p := s.holding[t].page;
    if s.phase != Up || CannotMakeRoom(s) then s
    else
      var r := if |s.ring| >= s.threshold then PopHead(s, t) else s;
      if |r.ring| < FIFO_SIZE then PushTail(r, t, p) else r
  }

  /** PageSwapCache(): a page whose slot is gone is dropped, its pin ended. */
  function CheckStep(s: State, t: Tid): State
    requires WorkIn(s, t, 0)
  {
    var p := s.work[t].page;
    if s.pages[p].slot == None then
      var refs := if s.pages[p].refs > 0 then s.pages[p].refs - 1 else 0;
      SetPage(s, p, s.pages[p].(wb := false, refs := refs)).(
        work := s.work - {t}, dropped := s.dropped + 1)
    else s.(work := s.work[t := Checked(p)])
  }

  /** The write is issued, which unlocks the page. */
  function WriteStep(s: State, t: Tid, async: bool): State
    requires WorkIn(s, t, 3)
  {
    var p := s.work[t].page;
    var q := if p in s.queuedSlot then s.queuedSlot[p] else 0;
    SetPage(s, p, s.pages[p].(locked := None, wb := async)).(
      io := if async then s.io + {p} else s.io,
      work := s.work[t := Written(p)],
      writes := s.writes + [Write(p, s.pages[p].slot, q)])
  }

  /** put_page() of a page that was written. */
  function PutStep(s: State, t: Tid): State
    requires WorkIn(s, t, 4) && s.pages[s.work[t].page].refs > 0
  {
    var p := s.work[t].page;
    SetPage(s, p, s.pages[p].(refs := s.pages[p].refs - 1)).(work := s.work - {t}, swapped := s.swapped + 1)
  }

  function Apply(s: State, step: Step): State
    requires Enabled(s, step)
  {
    match step
    case SetThreshold(v) => s.(threshold := v)
    case AddNode => s.(phase := Up, ring := [])
    case DelNodeBegin => s.(phase := Stopping)
    case DelNodeStopped => s.(phase := Draining)
    case DelNodeFree => s.(phase := Down)
    case LockPage(t, p) =>
      SetPage(s, p, s.pages[p].(locked := Some(t))).(holding := s.holding[t := Hold(p, false)])
    case UnlockPage(t) =>
      var p := s.holding[t].page;
      SetPage(s, p, s.pages[p].(locked := None)).(holding := s.holding - {t})
    case AddToSwap(t, slot) =>
      var p := s.holding[t].page;
      SetPage(s, p, s.pages[p].(slot := Some(slot)))
    case FreeSlot(t) =>
      var p := s.holding[t].page;
      SetPage(s, p, s.pages[p].(slot := None))
    case EndIo(p) => SetPage(s, p, s.pages[p].(wb := false)).(io := s.io - {p})
    case SyncWrite(t, async) =>
      var p := s.holding[t].page;
      SetPage(s, p, s.pages[p].(locked := None, wb := async)).(
        io := if async then s.io + {p} else s.io, holding := s.holding - {t})
    case Enqueue(t) => EnqueueStep(s, t)
    case PinAndUnlock(t) =>
      var p := s.holding[t].page;
      SetPage(s, p, s.pages[p].(wb := true, locked := None)).(holding := s.holding - {t})
    case Pop(t) => PopHead(s, t)
    case Check(t) => CheckStep(s, t)
    case LockForWrite(t) =>
      var p := s.work[t].page;
      SetPage(s, p, s.pages[p].(locked := Some(t))).(work := s.work[t := Locked(p)])
    case EndPin(t) =>
      var p := s.work[t].page;
      SetPage(s, p, s.pages[p].(wb := false)).(work := s.work[t := Writing(p)])
    case IssueWrite(t, async) => WriteStep(s, t, async)
    case PutPage(t) => PutStep(s, t)
  }

  ghost predicate Init(s: State) {
    && s.ring == [] && s.phase == Down && s.threshold <= FIFO_SIZE
    && s.work == map[] && s.holding == map[] && s.io == {}
    && s.enqueued == s.swapped == s.dropped == 0
    && s.submitted == [] && s.popped == [] && s.writes == []
    && (forall p :: p in s.pages ==> s.pages[p].refs == 0 && s.pages[p].locked == None && !s.pages[p].wb)
    && SlotsDistinct(s)
  }

  /** A run: the states it visits and the steps between them. */
  ghost predicate IsRun(states: seq<State>, steps: seq<Step>) {
    && |states| == |steps| + 1
    && Init(states[0])
    && forall i :: 0 <= i < |steps| ==>
         Enabled(states[i], steps[i]) && states[i + 1] == Apply(states[i], steps[i])
  }

  /** No two pages share a swap slot. */
  ghost predicate SlotsDistinct(s: State) {
    forall p, q :: p in s.pages && q in s.pages && p != q && s.pages[p].slot.Some? ==>
      s.pages[p].slot != s.pages[q].slot
  }
}
