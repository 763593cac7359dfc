/**
 One writeback_store() sweep, its pool of requests and the bios in flight, interleaved with
 everything that can happen to a slot meanwhile.  The sweep holds a slot lock only inside a
 step; between steps slots are freed, rewritten, read, marked idle and recompressed.
 */
module ZramWriteback {
  import opened Wrappers
  import opened ZramSlots

  type ReqId = nat

  /** Where a request is: on the idle list, in the sweep's hands, submitted, or on the done list. */
  datatype Phase = Idle | Selected | InFlight | Done(ok: bool)

  /** gen is what the request's page holds: the contents it was filled with. */
  datatype Req = Req(phase: Phase, index: nat, blk: nat, gen: nat)

  datatype Ctl = Ctl(
    reqs: map<ReqId, Req>,
    numInflight: int,
    limitEnable: bool,
    limit: int,              // bd_wb_limit
    written: nat)            // completions that did not fail

  datatype Mode = PageMode | HugeMode | IdleMode

  datatype Pc =
    | Head                   // loop condition and write budget
    | NeedReq                // while (!req)
    | Completing(tail: bool) // zram_complete_done_reqs(), from the loop or from the drain tail
    | NeedBlk
    | AtSlot                 // slot lock, skip tests
    | Reading                // slot marked, lock dropped, object being copied
    | TailBlk | TailReq | TailDrain
    | Finished

  datatype Sweep = Sweep(pc: Pc, index: nat, remaining: nat, blk: nat, req: Option<ReqId>, mode: Mode)

  datatype State = State(dev: Dev, ctl: Ctl, sw: Sweep, nrBlocks: nat, unit: nat)

  const U64 := 0x1_0000_0000_0000_0000

  datatype Step =
    // the sweep
    | EndLoop | OutOfBudget | PassBudget
    | SelectIdle(r: ReqId) | WaitForDone | CompleteDone(r: ReqId) | StopCompleting
    | AllocBlock(b: nat) | NoSpace
    | SkipSlot | MarkSlot | ReadFailed | ReadAndSubmit
    | ReleaseBlk | ReleaseReq | DrainWait | Finish
    // the world
    | EndIo(r: ReqId, ok: bool)
    | FreeSlot(i: nat) | StoreSlot(i: nat, c: Content) | AccessSlot(i: nat) | MarkIdle(i: nat)
    | RecompressSlot(i: nat, size: nat, prio: nat)

  predicate Outstanding(q: Req) { q.phase.InFlight? || q.phase.Done? }

  predicate HasDone(c: Ctl) { exists r :: r in c.reqs && c.reqs[r].phase.Done? }

  predicate HasIdle(c: Ctl) { exists r :: r in c.reqs && c.reqs[r].phase.Idle? }

  /** The tests between slot lock and marking. */
  predicate Wanted(x: Slot, mode: Mode) {
    && Allocated(x) && !x.wb && !x.same && !x.underWb
    && (mode == IdleMode ==> x.idle)
    && (mode == HugeMode ==> x.huge)
  }

  function Marked(x: Slot, underWb: bool, idle: bool): Slot {
    x.(underWb := underWb, idle := idle)
  }

  predicate AtIndex(s: State) { s.sw.index < |s.dev.table| }

  predicate Enabled(s: State, step: Step) {
    match step
    case EndLoop => s.sw.pc == Head && s.sw.remaining == 0
    case OutOfBudget => s.sw.pc == Head && s.sw.remaining > 0 && s.ctl.limitEnable && s.ctl.limit == 0
    case PassBudget => s.sw.pc == Head && s.sw.remaining > 0 && !(s.ctl.limitEnable && s.ctl.limit == 0)
    case SelectIdle(r) => s.sw.pc == NeedReq && s.sw.req == None && r in s.ctl.reqs && s.ctl.reqs[r].phase.Idle?
    case WaitForDone => s.sw.pc == NeedReq && s.sw.req == None && !HasIdle(s.ctl) && HasDone(s.ctl)
    case CompleteDone(r) =>
      && s.sw.pc.Completing? && s.ctl.numInflight > 0
      && r in s.ctl.reqs && s.ctl.reqs[r].phase.Done? && s.ctl.reqs[r].index < |s.dev.table|
    case StopCompleting => s.sw.pc.Completing? && (s.ctl.numInflight <= 0 || !HasDone(s.ctl))
    case AllocBlock(b) => s.sw.pc == NeedBlk && s.sw.blk == 0 && 0 < b < s.nrBlocks && b !in s.dev.busy
    case NoSpace => s.sw.pc == NeedBlk && s.sw.blk == 0 && (forall b :: 0 < b < s.nrBlocks ==> b in s.dev.busy)
    case SkipSlot => s.sw.pc == AtSlot && AtIndex(s) && !Wanted(s.dev.table[s.sw.index], s.sw.mode) && s.sw.remaining > 0
    case MarkSlot => s.sw.pc == AtSlot && AtIndex(s) && Wanted(s.dev.table[s.sw.index], s.sw.mode)
    case ReadFailed => s.sw.pc == Reading && AtIndex(s) && s.sw.remaining > 0
    case ReadAndSubmit =>
      && s.sw.pc == Reading && AtIndex(s) && s.sw.remaining > 0
      && s.sw.req.Some? && s.sw.req.value in s.ctl.reqs
    case ReleaseBlk => s.sw.pc == TailBlk
    case ReleaseReq => s.sw.pc == TailReq
    case DrainWait => s.sw.pc == TailDrain && s.ctl.numInflight > 0 && HasDone(s.ctl)
    case Finish => s.sw.pc == TailDrain && s.ctl.numInflight <= 0
    case EndIo(r, _) => r in s.ctl.reqs && s.ctl.reqs[r].phase.InFlight?
    case FreeSlot(i) => i < |s.dev.table|
    case StoreSlot(i, c) => i < |s.dev.table| && (c.Object? ==> c.size > 0)
    case AccessSlot(i) => i < |s.dev.table|
    case MarkIdle(i) =>
      i < |s.dev.table| && var x := s.dev.table[i]; Allocated(x) && !x.wb && !x.underWb && !x.same
    case RecompressSlot(i, size, _) =>
      i < |s.dev.table| && size > 0 && var x := s.dev.table[i]; HasHandle(x) && !x.underWb
  }

  function Goto(s: State, pc: Pc): State { s.(sw := s.sw.(pc := pc)) }

  /** index++, nr_pages-- and back to the loop condition. */
  function NextSlot(s: State): State
    requires s.sw.remaining > 0
  {
    s.(sw := s.sw.(pc := Head, index := s.sw.index + 1, remaining := s.sw.remaining - 1))
  }

  /** zram_account_writeback_submit(): a u64 subtraction. */
  function Charge(c: Ctl, unit: nat): Ctl {
    if c.limitEnable && c.limit > 0
    then c.(limit := if c.limit >= unit then c.limit - unit else c.limit - unit + U64)
    else c
  }

  /** zram_account_writeback_rollback() */
  function Rollback(c: Ctl, unit: nat): Ctl {
    if c.limitEnable then c.(limit := c.limit + unit) else c
  }

  /** zram_submit_wb_request(): charge, count, hand the page to the device. */
  function Submit(s: State, r: ReqId): State
    requires AtIndex(s) && r in s.ctl.reqs
  {
    var c := Charge(s.ctl, s.unit);
    var q := Req(InFlight, s.sw.index, s.sw.blk, s.dev.table[s.sw.index].gen);
    s.(ctl := c.(numInflight := c.numInflight + 1, reqs := c.reqs[r := q]),
       sw := s.sw.(blk := 0, req := None))
  }

  /** The slot is the one that was read: nobody freed, rewrote or even touched it since. */
  predicate StillSame(x: Slot) { Allocated(x) && x.idle }

  /** zram_writeback_complete() on the device. */
  function Completed(d: Dev, q: Req): Dev
    requires q.phase.Done? && q.index < |d.table|
  {
    var x := d.table[q.index];
    if q.phase.ok && StillSame(x) then WriteBack(d, q.index, q.blk)
    else Put(d, q.index, Marked(x, false, false)).(busy := d.busy - {q.blk})
  }

  /** One turn of zram_complete_done_reqs(). */
  function CompleteOne(s: State, r: ReqId): State
    requires r in s.ctl.reqs && s.ctl.reqs[r].phase.Done? && s.ctl.reqs[r].index < |s.dev.table|
  {
    var q := s.ctl.reqs[r];
    var c := if q.phase.ok then s.ctl.(written := s.ctl.written + 1) else Rollback(s.ctl, s.unit);
    s.(dev := Completed(s.dev, q),
       ctl := c.(numInflight := c.numInflight - 1, reqs := c.reqs[r := q.(phase := Idle, blk := 0)]))
  }

  /** With a request in hand; a block kept from a skipped slot is not allocated again. */
  function WithReq(s: State): Pc { if s.sw.blk == 0 then NeedBlk else AtSlot }

  function Apply(s: State, step: Step): State
    requires Enabled(s, step)
  {
    match step
    case EndLoop => Goto(s, TailBlk)
    case OutOfBudget => Goto(s, TailBlk)
    case PassBudget => Goto(s, if s.sw.req == None then NeedReq else WithReq(s))
    case SelectIdle(r) =>
      s.(ctl := s.ctl.(reqs := s.ctl.reqs[r := s.ctl.reqs[r].(phase := Selected)]),
         sw := s.sw.(pc := WithReq(s), req := Some(r)))
    case WaitForDone => Goto(s, Completing(false))
    case CompleteDone(r) => CompleteOne(s, r)
    case StopCompleting => Goto(s, if s.sw.pc.tail then TailDrain else NeedReq)
    case AllocBlock(b) =>
      s.(dev := s.dev.(busy := s.dev.busy + {b}), sw := s.sw.(pc := AtSlot, blk := b))
    case NoSpace => Goto(s, TailBlk)
    case SkipSlot => NextSlot(s)
    case MarkSlot =>
      var x := s.dev.table[s.sw.index];
      Goto(s.(dev := Put(s.dev, s.sw.index, Marked(x, true, true))), Reading)
    case ReadFailed =>
      var x := s.dev.table[s.sw.index];
      NextSlot(s.(dev := Put(s.dev, s.sw.index, Marked(x, false, false))))
    case ReadAndSubmit => NextSlot(Submit(s, s.sw.req.value))
    case ReleaseBlk =>
      var d := if s.sw.blk != 0 then s.dev.(busy := s.dev.busy - {s.sw.blk}) else s.dev;
      s.(dev := d, sw := s.sw.(pc := TailReq, blk := 0))
    case ReleaseReq =>
      var reqs := if s.sw.req.Some? then s.ctl.reqs - {s.sw.req.value} else s.ctl.reqs;
      s.(ctl := s.ctl.(reqs := reqs), sw := s.sw.(pc := TailDrain, req := None))
    case DrainWait => Goto(s, Completing(true))
    case Finish => Goto(s, Finished)
    case EndIo(r, ok) =>
      var q := s.ctl.reqs[r];
      var media := if ok then s.dev.media[q.blk := q.gen] else s.dev.media;
      s.(ctl := s.ctl.(reqs := s.ctl.reqs[r := q.(phase := Done(ok))]), dev := s.dev.(media := media))
    case FreeSlot(i) => s.(dev := FreePage(s.dev, i))
    case StoreSlot(i, c) => s.(dev := Store(s.dev, i, c))
    case AccessSlot(i) => s.(dev := Put(s.dev, i, s.dev.table[i].(idle := false)))
    case MarkIdle(i) => s.(dev := Put(s.dev, i, s.dev.table[i].(idle := true)))
    case RecompressSlot(i, size, prio) => s.(dev := Recompress(s.dev, i, size, prio))
  }
}
