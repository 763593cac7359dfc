/**
 The multi-generation LRU: a ring of MAX_NR_GENS lists per type of which the window
 [min_seq, max_seq] is live, and the steps that move its two ends.
 */
module Mglru {

  const MAX_NR_GENS := 4
  const MIN_NR_GENS := 2
  const MAX_SWAPPINESS := 200
  const ANON := 0
  const FILE := 1

  type Page = nat
  datatype Place = Place(gen: int, kind: int, zone: int)

  datatype Gens = Gens(max: int, min: seq<int>, lists: map<Place, seq<Page>>)

  predicate Kind(kind: int) { kind == ANON || kind == FILE }

  function List(g: Gens, p: Place): seq<Page> { if p in g.lists then g.lists[p] else [] }

  /** lru_gen_from_seq() */
  function GenOf(s: int): int { s % MAX_NR_GENS }

  /** get_nr_gens() */
  function NrGens(g: Gens, kind: int): int
    requires |g.min| == 2 && Kind(kind)
  {
    g.max - g.min[kind] + 1
  }

  /** seq_is_valid() */
  predicate SeqIsValid(g: Gens) {
    && |g.min| == 2
    && MIN_NR_GENS <= NrGens(g, ANON) <= MAX_NR_GENS
    && MIN_NR_GENS <= NrGens(g, FILE) <= MAX_NR_GENS
  }

  ghost predicate EmptySlot(g: Gens, kind: int, s: int) {
    forall z :: List(g, Place(GenOf(s), kind, z)) == []
  }

  /**
   The ring slots that are not live: the sequence numbers max_seq + 1 .. min_seq + MAX_NR_GENS - 1
   name each of them once.
   */
  predicate Outside(g: Gens, kind: int, s: int)
    requires |g.min| == 2 && Kind(kind)
  {
    g.max < s < g.min[kind] + MAX_NR_GENS
  }

  /** Every ring slot that is not live is empty. */
  ghost predicate CleanOutside(g: Gens, kind: int)
    requires |g.min| == 2 && Kind(kind)
  {
    forall s :: Outside(g, kind, s) ==> EmptySlot(g, kind, s)
  }

  /** The same, except for the slot max_seq moves into next. */
  ghost predicate CleanButNext(g: Gens, kind: int)
    requires |g.min| == 2 && Kind(kind)
  {
    forall s :: Outside(g, kind, s) && s != g.max + 1 ==> EmptySlot(g, kind, s)
  }

  ghost predicate Inv(g: Gens) {
    SeqIsValid(g) && CleanButNext(g, ANON) && CleanButNext(g, FILE)
  }

  /** The type takes part in eviction at this swappiness. */
  predicate Evictable(kind: int, swappiness: int) {
    if kind == FILE then swappiness <= MAX_SWAPPINESS else swappiness != 0
  }

  // ---- inc_min_seq ----

  /** How often page p is on the lists of one type and zone. */
  ghost function Occurs(g: Gens, kind: int, zone: int, p: Page): nat {
    multiset(List(g, Place(0, kind, zone)))[p] + multiset(List(g, Place(1, kind, zone)))[p]
    + multiset(List(g, Place(2, kind, zone)))[p] + multiset(List(g, Place(3, kind, zone)))[p]
  }

  ghost predicate SamePages(g: Gens, r: Gens) {
    forall kind, z, p :: Occurs(r, kind, z, p) == Occurs(g, kind, z, p)
  }

  /** Pages of one type have left the oldest live generation for the ends of younger ones. */
  ghost predicate Moved(g: Gens, r: Gens, kind: int)
    requires |g.min| == 2 && Kind(kind)
  {
    && r.max == g.max && r.min == g.min
    && SamePages(g, r)
    && (forall p: Place :: p.kind != kind ==> List(r, p) == List(g, p))
    && (forall s, z :: Outside(g, kind, s) ==>
          List(r, Place(GenOf(s), kind, z)) == List(g, Place(GenOf(s), kind, z)))
    && (forall z :: List(r, Place(GenOf(g.min[kind]), kind, z)) <= List(g, Place(GenOf(g.min[kind]), kind, z)))
    && (forall s, z :: g.min[kind] < s <= g.max ==>
          List(g, Place(GenOf(s), kind, z)) <= List(r, Place(GenOf(s), kind, z)))
  }

  function Bump(g: Gens, kind: int): Gens
    requires |g.min| == 2 && Kind(kind)
  {
    g.(min := g.min[kind := g.min[kind] + 1])
  }

  /**
   inc_min_seq(): a type that takes no part in eviction is only renumbered; for the other the
   oldest generation is emptied first, in batches.
   */
  ghost predicate IncMin(g: Gens, r: Gens, kind: int, swappiness: int, done: bool)
    requires |g.min| == 2 && Kind(kind)
  {
    if !Evictable(kind, swappiness) then done && r == Bump(g, kind)
    else if !done then Moved(g, r, kind)
    else exists m :: Moved(g, m, kind) && EmptySlot(m, kind, g.min[kind]) && r == Bump(m, kind)
  }

  // ---- try_to_inc_min_seq ----

  /** The oldest populated generation from m on, leaving MIN_NR_GENS of them. */
  ghost function Oldest(g: Gens, kind: int, m: int): (r: int)
    requires |g.min| == 2 && Kind(kind)
    ensures m <= r && (m + MIN_NR_GENS - 1 <= g.max ==> r + MIN_NR_GENS - 1 <= g.max)
    ensures forall s :: m <= s < r ==> EmptySlot(g, kind, s)
    ensures r + MIN_NR_GENS <= g.max ==> !EmptySlot(g, kind, r)
    decreases g.max - m
  {
    if m + MIN_NR_GENS <= g.max && EmptySlot(g, kind, m) then Oldest(g, kind, m + 1) else m
  }

  /** Neither type may run ahead of the other by more than a generation while both are evictable. */
  function HoldBack(a: int, f: int, limit: int): (r: (int, int)) {
    if a > limit && f < limit then (limit, f)
    else if f > limit && a < limit then (a, limit)
    else (a, f)
  }

  ghost function TryIncMin(g: Gens, swappiness: int): Gens
    requires |g.min| == 2
  {
    var a := if Evictable(ANON, swappiness) then Oldest(g, ANON, g.min[ANON]) else g.min[ANON];
    var f := if Evictable(FILE, swappiness) then Oldest(g, FILE, g.min[FILE]) else g.min[FILE];
    var (a', f') :=
      if swappiness != 0 && swappiness <= MAX_SWAPPINESS then HoldBack(a, f, g.max - MIN_NR_GENS) else (a, f);
    g.(min := [if a' <= g.min[ANON] then g.min[ANON] else a', if f' <= g.min[FILE] then g.min[FILE] else f'])
  }

  /**
   How far a type's oldest generation moves: over empty generations only, up to the first that is
   populated or to where MIN_NR_GENS are left.  While both types are evictable and the other still
   has pages older than MIN_NR_GENS generations before the youngest, it stops there.
   */
  ghost predicate AdvancedMin(g: Gens, r: Gens, kind: int, swappiness: int)
    requires |g.min| == 2 && |r.min| == 2 && Kind(kind)
  {
    var (from, to, other, stop) := (g.min[kind], r.min[kind], 1 - kind, g.max - MIN_NR_GENS);
    var evictable := if kind == FILE then swappiness <= MAX_SWAPPINESS else swappiness != 0;
    var held := swappiness != 0 && swappiness <= MAX_SWAPPINESS && exists s :: g.min[other] <= s < stop && !EmptySlot(g, other, s);
    && from <= to && (forall s :: from <= s < to ==> EmptySlot(g, kind, s))
    && (!evictable ==> to == from)
    && (evictable && held ==> (to <= stop || to == from) && (to < stop ==> !EmptySlot(g, kind, to)))
    && (evictable && !held ==>
          to + MIN_NR_GENS - 1 <= g.max && (to + MIN_NR_GENS - 1 < g.max ==> !EmptySlot(g, kind, to)))
  }

  // ---- inc_max_seq ----

  /** One type's turn in inc_max_seq(). */
  ghost predicate MakeRoom(g: Gens, r: Gens, kind: int, swappiness: int, done: bool)
    requires |g.min| == 2 && Kind(kind)
  {
    if NrGens(g, kind) != MAX_NR_GENS then done && r == g else IncMin(g, r, kind, swappiness, done)
  }

  /** One stretch of inc_max_seq() under lru_lock: it advances max_seq, or has to start again. */
  ghost predicate Attempt(g: Gens, r: Gens, swappiness: int, done: bool)
    requires |g.min| == 2
  {
    exists a: Gens, more: bool ::
      |a.min| == 2 && MakeRoom(g, a, ANON, swappiness, more)
      && (if more then SecondHalf(a, r, swappiness, done) else !done && r == a)
  }

  ghost predicate SecondHalf(a: Gens, r: Gens, swappiness: int, done: bool)
    requires |a.min| == 2
  {
    exists f: Gens :: MakeRoom(a, f, FILE, swappiness, done) && r == if done then f.(max := f.max + 1) else f
  }

  // ---- runs ----

  datatype Step = TryMin(swappiness: int) | MaxAttempt(swappiness: int, done: bool) | World

  /** Pages come, go and are promoted, in live generations; what is not live is at most emptied. */
  ghost predicate WorldStep(g: Gens, r: Gens)
    requires |g.min| == 2
  {
    && r.max == g.max && r.min == g.min
    && forall kind, s :: Kind(kind) && Outside(g, kind, s) && EmptySlot(g, kind, s) ==> EmptySlot(r, kind, s)
  }

  ghost predicate Next(g: Gens, r: Gens, step: Step) {
    && |g.min| == 2
    && match step
       case TryMin(swappiness) => r == TryIncMin(g, swappiness)
       case MaxAttempt(swappiness, done) => Attempt(g, r, swappiness, done)
       case World => WorldStep(g, r)
  }

  ghost predicate IsRun(run: seq<Gens>, steps: seq<Step>) {
    |run| == |steps| + 1 && forall k :: 0 <= k < |steps| ==> Next(run[k], run[k + 1], steps[k])
  }

  // ---- each move of a window end ----

  lemma SameLists(g: Gens, r: Gens)
    requires r.lists == g.lists
    ensures forall kind, s :: EmptySlot(r, kind, s) == EmptySlot(g, kind, s)
  {
    forall kind, s ensures EmptySlot(r, kind, s) == EmptySlot(g, kind, s) {
      assert forall p :: List(r, p) == List(g, p);
    }
  }

  lemma EmptyAfterMove(g: Gens, r: Gens, kind: int, other: int, s: int)
    requires |g.min| == 2 && Kind(kind) && Moved(g, r, kind)
    requires EmptySlot(g, other, s) && (other == kind ==> Outside(g, kind, s))
    ensures EmptySlot(r, other, s)
  {
    forall z ensures List(r, Place(GenOf(s), other, z)) == [] {
      assert List(g, Place(GenOf(s), other, z)) == [];
    }
  }

  lemma MovedKeepsInv(g: Gens, r: Gens, kind: int)
    requires Inv(g) && Kind(kind) && Moved(g, r, kind)
    ensures Inv(r)
  {
    forall other, s | Kind(other) && Outside(g, other, s) && s != g.max + 1 ensures EmptySlot(r, other, s) {
      EmptyAfterMove(g, r, kind, other, s);
    }
  }

  /** The slot that leaves the window is the one before it, seen a ring length later. */
  lemma BumpKeepsInv(g: Gens, kind: int)
    requires Inv(g) && Kind(kind) && NrGens(g, kind) == MAX_NR_GENS
    ensures Inv(Bump(g, kind))
  {
    SameLists(g, Bump(g, kind));
    assert g.min[kind] + MAX_NR_GENS == g.max + 1;
  }

  lemma IncMinKeepsInv(g: Gens, r: Gens, kind: int, swappiness: int, done: bool)
    requires Inv(g) && Kind(kind) && NrGens(g, kind) == MAX_NR_GENS
    requires IncMin(g, r, kind, swappiness, done)
    ensures Inv(r) && r.max == g.max
    ensures r.min == g.min[kind := if done then g.min[kind] + 1 else g.min[kind]]
  {
    if !Evictable(kind, swappiness) {
      BumpKeepsInv(g, kind);
    } else if !done {
      MovedKeepsInv(g, r, kind);
    } else {
      var m :| Moved(g, m, kind) && EmptySlot(m, kind, g.min[kind]) && r == Bump(m, kind);
      MovedKeepsInv(g, m, kind);
      BumpKeepsInv(m, kind);
    }
  }

  lemma MakeRoomKeepsInv(g: Gens, r: Gens, kind: int, swappiness: int, done: bool)
    requires Inv(g) && Kind(kind) && MakeRoom(g, r, kind, swappiness, done)
    ensures Inv(r) && r.max == g.max && (done ==> NrGens(r, kind) < MAX_NR_GENS)
    ensures r.min == g.min[kind := if done && NrGens(g, kind) == MAX_NR_GENS then g.min[kind] + 1 else g.min[kind]]
  {
    if NrGens(g, kind) == MAX_NR_GENS {
      IncMinKeepsInv(g, r, kind, swappiness, done);
    }
  }

  /** With room on both sides max_seq may move: the slot it takes over is the one allowed leftover. */
  lemma AdvanceMaxKeepsInv(g: Gens)
    requires Inv(g) && NrGens(g, ANON) < MAX_NR_GENS && NrGens(g, FILE) < MAX_NR_GENS
    ensures Inv(g.(max := g.max + 1))
  {
    var r := g.(max := g.max + 1);
    SameLists(g, r);
  }

  lemma AttemptKeepsInv(g: Gens, r: Gens, swappiness: int, done: bool)
    requires Inv(g) && Attempt(g, r, swappiness, done)
    ensures Inv(r) && r.max == (if done then g.max + 1 else g.max)
    ensures forall kind :: Kind(kind) ==> g.min[kind] <= r.min[kind] <= g.min[kind] + 1
    ensures forall kind :: Kind(kind) && done ==> (r.min[kind] > g.min[kind] <==> g.max - g.min[kind] + 1 == MAX_NR_GENS)
  {
    var a: Gens, more: bool :|
      |a.min| == 2 && MakeRoom(g, a, ANON, swappiness, more)
      && (if more then SecondHalf(a, r, swappiness, done) else !done && r == a);
    MakeRoomKeepsInv(g, a, ANON, swappiness, more);
    if more {
      var f: Gens :| MakeRoom(a, f, FILE, swappiness, done) && r == if done then f.(max := f.max + 1) else f;
      MakeRoomKeepsInv(a, f, FILE, swappiness, done);
      if done {
        AdvanceMaxKeepsInv(f);
      }
    }
  }

  lemma TryMinKeepsInv(g: Gens, swappiness: int)
    requires Inv(g)
    ensures Inv(TryIncMin(g, swappiness)) && TryIncMin(g, swappiness).max == g.max
    ensures forall kind :: Kind(kind) ==> g.min[kind] <= TryIncMin(g, swappiness).min[kind]
  {
    var r := TryIncMin(g, swappiness);
    SameLists(g, r);
    forall kind, s | Kind(kind) && Outside(r, kind, s) && s != r.max + 1 ensures EmptySlot(r, kind, s) {
      if !Outside(g, kind, s) {
        SlotAgain(g, kind, s - MAX_NR_GENS);
      }
    }
  }

  /** The oldest populated generation is older than this exactly when some populated one is. */
  lemma OldestBefore(g: Gens, kind: int, m: int, stop: int)
    requires |g.min| == 2 && Kind(kind) && stop <= g.max - MIN_NR_GENS
    ensures Oldest(g, kind, m) < stop <==> exists s :: m <= s < stop && !EmptySlot(g, kind, s)
  {
    var r := Oldest(g, kind, m);
    if r < stop {
      assert !EmptySlot(g, kind, r);
    }
  }

  /** try_to_inc_min_seq() moves each type's end as far as that, and nothing else. */
  lemma TryMinAdvances(g: Gens, swappiness: int, kind: int)
    requires SeqIsValid(g) && Kind(kind)
    ensures
      var r := TryIncMin(g, swappiness);
      r.max == g.max && r.lists == g.lists && |r.min| == 2 && AdvancedMin(g, r, kind, swappiness)
  {
    var r, other := TryIncMin(g, swappiness), 1 - kind;
    OldestBefore(g, other, g.min[other], g.max - MIN_NR_GENS);
  }

  /** One ring length on, it is the same slot. */
  lemma SlotAgain(g: Gens, kind: int, s: int)
    ensures EmptySlot(g, kind, s + MAX_NR_GENS) == EmptySlot(g, kind, s)
  {
    assert GenOf(s + MAX_NR_GENS) == GenOf(s);
  }

  lemma NextKeepsInv(g: Gens, r: Gens, step: Step)
    requires Inv(g) && Next(g, r, step)
    ensures Inv(r) && g.max <= r.max
    ensures forall kind :: Kind(kind) ==> g.min[kind] <= r.min[kind]
  {
    match step
    case TryMin(swappiness) => TryMinKeepsInv(g, swappiness);
    case MaxAttempt(swappiness, done) => AttemptKeepsInv(g, r, swappiness, done);
    case World =>
  }

  /**
   Over any run of both kinds of advances, at any swappiness and with pages coming and going:
   two to four generations of each type, ends that only move forward, and at most one ring
   slot outside the window with anything in it, the one max_seq takes over next.
   */
  lemma {:induction false} RunKeepsWindow(run: seq<Gens>, steps: seq<Step>, j: nat, k: nat)
    requires IsRun(run, steps) && j <= k <= |steps| && Inv(run[0])
    ensures Inv(run[j]) && Inv(run[k])
    ensures run[j].max <= run[k].max && run[j].min[ANON] <= run[k].min[ANON] && run[j].min[FILE] <= run[k].min[FILE]
    decreases k, j
  {
    if 0 < j == k {
      RunKeepsWindow(run, steps, j - 1, j - 1);
      NextKeepsInv(run[j - 1], run[j], steps[j - 1]);
    } else if j < k {
      RunKeepsWindow(run, steps, j, k - 1);
      NextKeepsInv(run[k - 1], run[k], steps[k - 1]);
    }
  }

  // ---- pages ----

  lemma SamePagesIfSameLists(g: Gens, r: Gens)
    requires r.lists == g.lists
    ensures SamePages(g, r)
  {
    assert forall p :: List(r, p) == List(g, p);
  }

  lemma SamePagesTransitive(g: Gens, m: Gens, r: Gens)
    requires SamePages(g, m) && SamePages(m, r)
    ensures SamePages(g, r)
  {
    forall kind, z, p ensures Occurs(r, kind, z, p) == Occurs(g, kind, z, p) {
      assert Occurs(r, kind, z, p) == Occurs(m, kind, z, p);
    }
  }

  lemma MakeRoomKeepsPages(g: Gens, r: Gens, kind: int, swappiness: int, done: bool)
    requires |g.min| == 2 && Kind(kind) && MakeRoom(g, r, kind, swappiness, done)
    ensures SamePages(g, r) && |r.min| == 2
  {
    if NrGens(g, kind) == MAX_NR_GENS && Evictable(kind, swappiness) && done {
      var m :| Moved(g, m, kind) && EmptySlot(m, kind, g.min[kind]) && r == Bump(m, kind);
      SamePagesIfSameLists(m, r);
      SamePagesTransitive(g, m, r);
    } else if r.lists == g.lists {
      SamePagesIfSameLists(g, r);
    }
  }

  /** Neither advance loses, duplicates or changes the type or zone of a page. */
  lemma AdvancesKeepPages(g: Gens, r: Gens, step: Step)
    requires !step.World? && Next(g, r, step)
    ensures SamePages(g, r)
  {
    if step.TryMin? {
      SamePagesIfSameLists(g, r);
    } else {
      var a: Gens, more: bool :|
        |a.min| == 2 && MakeRoom(g, a, ANON, step.swappiness, more)
        && (if more then SecondHalf(a, r, step.swappiness, step.done) else !step.done && r == a);
      MakeRoomKeepsPages(g, a, ANON, step.swappiness, more);
      if more {
        var f: Gens :|
          MakeRoom(a, f, FILE, step.swappiness, step.done) && r == if step.done then f.(max := f.max + 1) else f;
        MakeRoomKeepsPages(a, f, FILE, step.swappiness, step.done);
        SamePagesIfSameLists(f, r);
        SamePagesTransitive(a, f, r);
        SamePagesTransitive(g, a, r);
      }
    }
  }

  // ---- both types evictable all along ----

  predicate BothEvictable(step: Step) { step.World? || 1 <= step.swappiness <= MAX_SWAPPINESS }

  /** The two types' oldest generations are close. */
  predicate Close(g: Gens)
    requires |g.min| == 2
  {
    -(MAX_NR_GENS - MIN_NR_GENS - 1) <= g.min[ANON] - g.min[FILE] <= MAX_NR_GENS - MIN_NR_GENS - 1
  }

  ghost predicate Tight(g: Gens) {
    Inv(g) && CleanOutside(g, ANON) && CleanOutside(g, FILE) && Close(g)
  }

  lemma MovedKeepsClean(g: Gens, r: Gens, kind: int, other: int)
    requires Inv(g) && Kind(kind) && Kind(other) && Moved(g, r, kind) && CleanOutside(g, other)
    ensures CleanOutside(r, other)
  {
    forall s | Outside(g, other, s) ensures EmptySlot(r, other, s) {
      EmptyAfterMove(g, r, kind, other, s);
    }
  }

  lemma MakeRoomKeepsClean(g: Gens, r: Gens, kind: int, swappiness: int, done: bool)
    requires Inv(g) && Kind(kind) && MakeRoom(g, r, kind, swappiness, done) && Evictable(kind, swappiness)
    requires CleanOutside(g, ANON) && CleanOutside(g, FILE)
    ensures |r.min| == 2 && CleanOutside(r, ANON) && CleanOutside(r, FILE)
  {
    if NrGens(g, kind) == MAX_NR_GENS {
      var m := r;
      if done {
        m :| Moved(g, m, kind) && EmptySlot(m, kind, g.min[kind]) && r == Bump(m, kind);
      }
      MovedKeepsClean(g, m, kind, ANON);
      MovedKeepsClean(g, m, kind, FILE);
      if done {
        BumpKeepsClean(m, kind);
      }
    }
  }

  lemma BumpKeepsClean(g: Gens, kind: int)
    requires Inv(g) && Kind(kind) && NrGens(g, kind) == MAX_NR_GENS && EmptySlot(g, kind, g.min[kind])
    requires CleanOutside(g, ANON) && CleanOutside(g, FILE)
    ensures CleanOutside(Bump(g, kind), ANON) && CleanOutside(Bump(g, kind), FILE)
  {
    SameLists(g, Bump(g, kind));
    SlotAgain(g, kind, g.min[kind]);
  }

  lemma AttemptKeepsTight(g: Gens, r: Gens, swappiness: int, done: bool)
    requires Tight(g) && Attempt(g, r, swappiness, done) && 1 <= swappiness <= MAX_SWAPPINESS
    ensures Tight(r)
  {
    AttemptKeepsInv(g, r, swappiness, done);
    var a: Gens, more: bool :|
      |a.min| == 2 && MakeRoom(g, a, ANON, swappiness, more)
      && (if more then SecondHalf(a, r, swappiness, done) else !done && r == a);
    MakeRoomKeepsInv(g, a, ANON, swappiness, more);
    MakeRoomKeepsClean(g, a, ANON, swappiness, more);
    if more {
      var f: Gens :| MakeRoom(a, f, FILE, swappiness, done) && r == if done then f.(max := f.max + 1) else f;
      MakeRoomKeepsInv(a, f, FILE, swappiness, done);
      MakeRoomKeepsClean(a, f, FILE, swappiness, done);
      SameLists(f, r);
    }
  }

  lemma TryMinKeepsTight(g: Gens, swappiness: int)
    requires Tight(g) && 1 <= swappiness <= MAX_SWAPPINESS
    ensures Tight(TryIncMin(g, swappiness))
  {
    TryMinKeepsInv(g, swappiness);
    var r := TryIncMin(g, swappiness);
    SameLists(g, r);
    forall kind, s | Kind(kind) && Outside(r, kind, s) ensures EmptySlot(r, kind, s) {
      if !Outside(g, kind, s) {
        SlotAgain(g, kind, s - MAX_NR_GENS);
      }
    }
  }

  /**
   While swappiness stays in 1..MAX_SWAPPINESS every slot outside the window is empty and the two
   types never drift apart by more than MAX_NR_GENS - MIN_NR_GENS - 1 generations.
   */
  lemma {:induction false} RunKeepsTypesClose(run: seq<Gens>, steps: seq<Step>, k: nat)
    requires IsRun(run, steps) && k <= |steps| && Tight(run[0])
    requires forall i :: 0 <= i < |steps| ==> BothEvictable(steps[i])
    ensures Tight(run[k])
  {
    if k > 0 {
      RunKeepsTypesClose(run, steps, k - 1);
      var step := steps[k - 1];
      match step
      case TryMin(swappiness) => TryMinKeepsTight(run[k - 1], swappiness);
      case MaxAttempt(swappiness, done) => AttemptKeepsTight(run[k - 1], run[k], swappiness, done);
      case World => NextKeepsInv(run[k - 1], run[k], step);
    }
  }

  // ---- a type that takes no part in eviction ----

  /** The slot min_seq leaves is empty exactly when the type is evictable or it held nothing anyway. */
  lemma LeftSlotEmptyIff(g: Gens, r: Gens, kind: int, swappiness: int)
    requires Inv(g) && Kind(kind) && NrGens(g, kind) == MAX_NR_GENS
    requires IncMin(g, r, kind, swappiness, true)
    ensures Outside(r, kind, r.max + 1) && GenOf(r.max + 1) == GenOf(g.min[kind])
    ensures EmptySlot(r, kind, r.max + 1) <==> Evictable(kind, swappiness) || EmptySlot(g, kind, g.min[kind])
  {
    assert g.min[kind] + MAX_NR_GENS == g.max + 1;
    SlotAgain(r, kind, g.min[kind]);
    if Evictable(kind, swappiness) {
      var m :| Moved(g, m, kind) && EmptySlot(m, kind, g.min[kind]) && r == Bump(m, kind);
      SameLists(m, r);
    } else {
      SameLists(g, r);
    }
  }

  /** With swappiness 0 a page of the oldest anonymous generation ends up in the youngest. */
  lemma OldestAnonBecomesYoungest() returns (g: Gens, r: Gens)
    ensures Tight(g) && g.min[ANON] == 0 && List(g, Place(GenOf(g.min[ANON]), ANON, 0)) == [7]
    ensures Attempt(g, r, 0, true) && List(r, Place(GenOf(r.max), ANON, 0)) == [7]
  {
    g := Gens(3, [0, 1], map[Place(0, ANON, 0) := [7]]);
    var a := Bump(g, ANON);
    r := a.(max := 4);
    assert EmptySlot(g, FILE, 4);
    assert MakeRoom(g, a, ANON, 0, true) && MakeRoom(a, a, FILE, 0, true);
    assert SecondHalf(a, r, 0, true);
  }
}
