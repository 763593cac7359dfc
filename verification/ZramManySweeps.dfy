/** Any number of writeback sweeps at once: init_lock is only held for reading. */
module ZramManySweeps {
  import opened Wrappers
  import opened ZramSlots
  import opened ZramWriteback
  import opened ZramOwnership
  import opened ZramSweepSafety

  type Sid = nat

  /** What a sweep has of its own. */
  datatype Run = Run(ctl: Ctl, sw: Sweep)

  /** The device, the budget all sweeps draw on, and the sweeps. */
  datatype Many = Many(
    dev: Dev, limitEnable: bool, limit: int, runs: map<Sid, Run>, nrBlocks: nat, unit: nat)

  /** The state as sweep k sees it. */
  function View(m: Many, k: Sid): State
    requires k in m.runs
  {
    State(m.dev, m.runs[k].ctl.(limitEnable := m.limitEnable, limit := m.limit), m.runs[k].sw, m.nrBlocks, m.unit)
  }

  /** The state as somebody sees it who takes no part in any sweep. */
  function Bare(m: Many): State {
    State(m.dev, Ctl(map[], 0, m.limitEnable, m.limit, 0), Sweep(Finished, 0, 0, 0, None, HugeMode), m.nrBlocks, m.unit)
  }

  datatype ManyStep =
    | Of(k: Sid, step: Step)              // of a sweep, its requests and their bios
    | Touch(touch: Step)                  // of anybody who frees, writes, reads, marks or recompresses a slot
    | Begin(k: Sid, run: Run)
    | Leave(k: Sid)
    | SetLimit(enable: bool, value: nat)

  /** writeback_store() about to enter its loop: idle requests and a range inside the table. */
  ghost predicate Fresh(m: Many, run: Run) {
    && run.ctl.reqs != map[] && (forall r :: r in run.ctl.reqs ==> run.ctl.reqs[r].phase.Idle?)
    && run.ctl.numInflight == 0 && run.sw.pc == Head && run.sw.blk == 0 && run.sw.req == None
    && run.sw.index + run.sw.remaining <= |m.dev.table|
  }

  ghost predicate ManyEnabled(m: Many, step: ManyStep) {
    match step
    case Of(k, st) => k in m.runs && !TouchesSlot(st) && Enabled(View(m, k), st)
    case Touch(st) => TouchesSlot(st) && Enabled(Bare(m), st)
    case Begin(k, run) => k !in m.runs && Fresh(m, run)
    case Leave(k) => k in m.runs && m.runs[k].sw.pc == Finished
    case SetLimit(_, _) => true
  }

  /** What sweep k did to the state it sees, done to all. */
  function Back(m: Many, k: Sid, s: State): Many {
    m.(dev := s.dev, limit := s.ctl.limit, runs := m.runs[k := Run(s.ctl, s.sw)])
  }

  ghost function ManyApply(m: Many, step: ManyStep): Many
    requires ManyEnabled(m, step)
  {
    match step
    case Of(k, st) => Back(m, k, Apply(View(m, k), st))
    case Touch(st) => m.(dev := Apply(Bare(m), st).dev)
    case Begin(k, run) => m.(runs := m.runs[k := run])
    case Leave(k) => m.(runs := m.runs - {k})
    case SetLimit(enable, value) => m.(limitEnable := enable, limit := value)
  }

  // ---- blocks ----

  /** A sweep's reservation or one of its requests, or a written-back slot. */
  datatype ManyOwner = Local(k: Sid, o: Owner) | InSlot(i: nat)

  ghost predicate ManyOwns(m: Many, o: ManyOwner, b: nat) {
    match o
    case Local(k, p) => k in m.runs && !p.Entry? && Owns(View(m, k), p, b)
    case InSlot(i) => Owns(Bare(m), Entry(i), b)
  }

  /** Each busy block has exactly one owner among all sweeps and slots, and only busy blocks are owned. */
  ghost predicate ManyOwnedOnce(m: Many) {
    && (forall o, b :: ManyOwns(m, o, b) ==> b in m.dev.busy && b != 0)
    && (forall o, p, b :: ManyOwns(m, o, b) && ManyOwns(m, p, b) ==> o == p)
    && (forall b :: b in m.dev.busy ==> exists o :: ManyOwns(m, o, b))
  }

  /** An owner of the view of sweep k, seen from outside. */
  function Outer(k: Sid, o: Owner): ManyOwner { if o.Entry? then InSlot(o.i) else Local(k, o) }

  lemma ViewOwns(m: Many, k: Sid, o: Owner, b: nat)
    requires k in m.runs
    ensures ManyOwns(m, Outer(k, o), b) <==> Owns(View(m, k), o, b)
  {
  }

  /** The owners of blocks in n are those in m, but for the block b: it leaves `from` and goes to `to`. */
  ghost predicate OwnerMoves(m: Many, n: Many, from: Option<ManyOwner>, to: Option<ManyOwner>, b: nat) {
    && (from.Some? ==> ManyOwns(m, from.value, b) && from != to)
    && (from.None? && to.Some? ==> b !in m.dev.busy && b != 0)
    && (forall o, c :: ManyOwns(n, o, c) <==> (ManyOwns(m, o, c) && Some(o) != from) || (Some(o) == to && c == b))
    && n.dev.busy == (if from.Some? && to.None? then m.dev.busy - {b}
                      else if from.None? && to.Some? then m.dev.busy + {b} else m.dev.busy)
  }

  lemma OwnersUniqueAfter(m: Many, n: Many, from: Option<ManyOwner>, to: Option<ManyOwner>, b: nat)
    requires ManyOwnedOnce(m) && OwnerMoves(m, n, from, to, b)
    ensures forall o, c :: ManyOwns(n, o, c) ==> c in n.dev.busy && c != 0
    ensures forall o, p, c :: ManyOwns(n, o, c) && ManyOwns(n, p, c) ==> o == p
  {
  }

  lemma OwnersThereAfter(m: Many, n: Many, from: Option<ManyOwner>, to: Option<ManyOwner>, b: nat, c: nat)
    requires ManyOwnedOnce(m) && OwnerMoves(m, n, from, to, b) && c in n.dev.busy
    ensures exists o :: ManyOwns(n, o, c)
  {
    if to.Some? && c == b {
      assert ManyOwns(n, to.value, c);
    } else {
      var o :| ManyOwns(m, o, c);
      if Some(o) == from {
        OneOuterBlock(m, o, b, c);
      }
      assert ManyOwns(n, o, c);
    }
  }

  lemma OneOuterBlock(m: Many, o: ManyOwner, b: nat, c: nat)
    requires ManyOwns(m, o, b) && ManyOwns(m, o, c)
    ensures b == c
  {
  }

  lemma OwnedOnceAfter(m: Many, n: Many, from: Option<ManyOwner>, to: Option<ManyOwner>, b: nat)
    requires ManyOwnedOnce(m) && OwnerMoves(m, n, from, to, b)
    ensures ManyOwnedOnce(n)
  {
    OwnersUniqueAfter(m, n, from, to, b);
    forall c | c in n.dev.busy ensures exists o :: ManyOwns(n, o, c) {
      OwnersThereAfter(m, n, from, to, b, c);
    }
  }

  /** The same said of the one view that changed, or of the bare device. */
  ghost predicate ViewMoves(s: State, r: State, from: Option<Owner>, to: Option<Owner>, b: nat) {
    && (from.Some? ==> Owns(s, from.value, b) && from != to)
    && (from.None? && to.Some? ==> b !in s.dev.busy && b != 0)
    && (forall o, c :: Owns(r, o, c) <==> (Owns(s, o, c) && Some(o) != from) || (Some(o) == to && c == b))
    && r.dev.busy == (if from.Some? && to.None? then s.dev.busy - {b}
                      else if from.None? && to.Some? then s.dev.busy + {b} else s.dev.busy)
  }

  /** Each step of a sweep and of the device around it passes on at most one block. */
  lemma OwnStepMoves(s: State, step: Step) returns (from: Option<Owner>, to: Option<Owner>, b: nat)
    requires PoolOk(s) && Enabled(s, step) && !TouchesSlot(step)
    requires step.CompleteDone? ==>
      var x := s.dev.table[s.ctl.reqs[step.r].index];
      s.ctl.reqs[step.r].phase.ok && StillSame(x) ==> HasHandle(x)
    ensures ViewMoves(s, Apply(s, step), from, to, b)
  {
    from, to, b := None, None, 0;
    if step.ReadAndSubmit? {
      SubmitPasses(s);
      return Some(Reservation), Some(Request(s.sw.req.value)), s.sw.blk;
    } else if step.CompleteDone? {
      from, to, b := CompletionMoves(s, step.r);
    } else if step.AllocBlock? {
      return None, Some(Reservation), step.b;
    } else if step.ReleaseBlk? {
      if s.sw.blk != 0 {
        return Some(Reservation), None, s.sw.blk;
      }
    } else if MovesOnly(step) {
      OwnersSameInMove(s, step);
    } else if step.MarkSlot? || step.ReadFailed? {
      OwnersSameInSlot(s, step);
    } else {
      OwnersSameInControl(s, step);
    }
  }

  lemma CompletionMoves(s: State, r: ReqId) returns (from: Option<Owner>, to: Option<Owner>, b: nat)
    requires Enabled(s, CompleteDone(r))
    requires
      var x := s.dev.table[s.ctl.reqs[r].index];
      s.ctl.reqs[r].phase.ok && StillSame(x) ==> HasHandle(x)
    ensures ViewMoves(s, Apply(s, CompleteDone(r)), from, to, b)
  {
    var q := s.ctl.reqs[r];
    from, to, b := Some(Request(r)), None, q.blk;
    if q.phase.ok && StillSame(s.dev.table[q.index]) {
      WriteBackPasses(s, r);
      to := Some(Entry(q.index));
    } else {
      DiscardDrops(s, r);
    }
  }

  lemma TouchMoves(s: State, step: Step) returns (from: Option<Owner>, b: nat)
    requires Enabled(s, step) && TouchesSlot(step)
    ensures ViewMoves(s, Apply(s, step), from, None, b) && (from.Some? ==> from.value.Entry?)
  {
    from, b := None, 0;
    if step.FreeSlot? || step.StoreSlot? {
      if s.dev.table[step.i].wb {
        ReleaseDrops(s, step);
        return Some(Entry(step.i)), s.dev.table[step.i].element;
      }
      ReleaseKeepsOwners(s, step);
    } else {
      OwnersSameInSlot(s, step);
    }
  }

  function Lift(k: Sid, o: Option<Owner>): Option<ManyOwner> {
    if o.Some? then Some(Outer(k, o.value)) else None
  }

  /** The owners of the other sweeps do not see it. */
  lemma ViewMoveLifts(m: Many, k: Sid, r: State, from: Option<Owner>, to: Option<Owner>, b: nat)
    requires k in m.runs && ViewMoves(View(m, k), r, from, to, b)
    requires r.ctl.limitEnable == m.limitEnable && r.nrBlocks == m.nrBlocks && r.unit == m.unit
    ensures OwnerMoves(m, Back(m, k, r), Lift(k, from), Lift(k, to), b)
  {
    var n := Back(m, k, r);
    assert View(n, k) == r;
    forall o: ManyOwner, c: nat
      ensures ManyOwns(n, o, c) <==>
        (ManyOwns(m, o, c) && Some(o) != Lift(k, from)) || (Some(o) == Lift(k, to) && c == b)
    {
      OwnsInBack(m, k, r, o, c);
    }
  }

  /** Who owns what once the view of sweep k has become r. */
  lemma OwnsInBack(m: Many, k: Sid, r: State, o: ManyOwner, c: nat)
    requires k in m.runs && r.ctl.limitEnable == m.limitEnable && r.nrBlocks == m.nrBlocks && r.unit == m.unit
    ensures
      ManyOwns(Back(m, k, r), o, c) <==>
        match o
        case Local(l, p) => if l == k then !p.Entry? && Owns(r, p, c) else ManyOwns(m, o, c)
        case InSlot(i) => Owns(r, Entry(i), c)
    ensures o.InSlot? ==> (ManyOwns(m, o, c) <==> Owns(View(m, k), Entry(o.i), c))
  {
    assert View(Back(m, k, r), k) == r;
  }
}
