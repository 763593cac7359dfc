/** Recompression of a slot with the secondary compressors, and the sweep that drives it. */
module ZramRecompress {
  import opened Wrappers
  import opened ZramSlots
  import opened ZramDevice

  const ZRAM_MAX_COMPS: nat := 4

  /** What the compressors make of one page, and what the environment grants. */
  datatype Env = Env(
    present: seq<bool>,               // zram->comps[]
    compress: nat -> Option<nat>,     // compressed length at a priority, None on error
    classOf: nat -> nat,              // zs_lookup_class_index()
    active: nat,                      // num_active_comps
    readOk: bool, allocOk: bool)

  datatype Args = Args(threshold: nat, prio: nat, prioMax: nat)

  datatype Exit = Rewritten | Kept | Invalid | ReadError | CompressError | NoMemory

  predicate Shaped(e: Env, a: Args) {
    |e.present| == ZRAM_MAX_COMPS && a.prioMax <= ZRAM_MAX_COMPS
  }

  function CountPresent(present: seq<bool>): (r: nat)
    ensures r == 0 <==> true !in present
  {
    if present == [] then 0
    else CountPresent(present[..|present| - 1]) + if present[|present| - 1] then 1 else 0
  }

  /**
   What holds of the compressors whenever zram_recompress() runs: the primary is there, and
   num_active_comps, which starts at 1, has been incremented for it too.
   */
  predicate Counted(e: Env) { e.present != [] && e.present[0] && e.active == 1 + CountPresent(e.present) }

  predicate Valid(e: Env, a: Args) { Shaped(e, a) && Counted(e) }

  /** The compressor at this priority is there and better than what the slot was compressed with. */
  predicate Tries(e: Env, x: Slot, p: nat) { p < |e.present| && e.present[p] && p > x.prio }

  predicate Smaller(e: Env, x: Slot, p: nat) {
    e.compress(p).Some? && e.classOf(e.compress(p).value) < e.classOf(x.size)
  }

  predicate Accepted(e: Env, x: Slot, a: Args, p: nat) {
    Smaller(e, x, p) && (a.threshold == 0 || e.compress(p).value < a.threshold)
  }

  /** The loop ends at p: an error or an accepted result. */
  predicate Ends(e: Env, x: Slot, a: Args, p: nat) {
    Tries(e, x, p) && (e.compress(p).None? || Accepted(e, x, a, p))
  }

  function FirstEnd(e: Env, x: Slot, a: Args, p: nat): (r: nat)
    requires p <= a.prioMax
    ensures p <= r <= a.prioMax && (r < a.prioMax ==> Ends(e, x, a, r))
    ensures forall q :: p <= q < r ==> !Ends(e, x, a, q)
    decreases a.prioMax - p
  {
    if p == a.prioMax || Ends(e, x, a, p) then p else FirstEnd(e, x, a, p + 1)
  }

  /** How many compressors from p up to q the loop tries. */
  function Tried(e: Env, x: Slot, p: nat, q: nat): (r: nat)
    requires p <= q
    ensures r == 0 <==> forall i :: p <= i < q ==> !Tries(e, x, i)
    ensures r <= q - p
    decreases q
  {
    if p == q then 0 else Tried(e, x, p, q - 1) + if Tries(e, x, q - 1) then 1 else 0
  }

  /** The last compressor tried before q. */
  function LastTried(e: Env, x: Slot, p: nat, q: nat): (r: nat)
    requires p <= q && Tried(e, x, p, q) > 0
    ensures p <= r < q && Tries(e, x, r) && forall i :: r < i < q ==> !Tries(e, x, i)
    decreases q
  {
    if Tries(e, x, q - 1) then q - 1 else LastTried(e, x, p, q - 1)
  }

  datatype Result = Result(dev: Dev, exit: Exit)

  /** zram_recompress() */
  function Recompressed(d: Dev, i: nat, e: Env, a: Args): (r: Result)
    requires i < |d.table| && Shaped(e, a)
    ensures |r.dev.table| == |d.table|
  {
    var x := d.table[i];
    if x.size == 0 then Result(d, Invalid)
    else if x.size < a.threshold then Result(d, Kept)
    else if !e.readOk then Result(d, ReadError)
    else
      var n := Put(d, i, x.(idle := false));
      if a.prio >= a.prioMax then Result(n, Kept)
      else
        var p := FirstEnd(e, x, a, a.prio);
        if p < a.prioMax then
          if e.compress(p).None? then Result(n, CompressError)
          else if !e.allocOk then Result(n, NoMemory)
          else Result(Recompress(n, i, e.compress(p).value, p), Rewritten)
        else if Tried(e, x, a.prio, p) > 0 && Tried(e, x, a.prio, p) + 1 == e.active
          && !Smaller(e, x, LastTried(e, x, a.prio, p))
        then Result(Put(n, i, x.(idle := false, incompressible := true)), Kept)
        else Result(n, Kept)
  }

  // ---- what a recompression means ----

  lemma RecompressedSlot(d: Dev, i: nat, size: nat, prio: nat)
    requires i < |d.table|
    ensures
      var t := Recompress(d, i, size, prio).table;
      var y := t[i];
      && |t| == |d.table| && (forall j :: 0 <= j < |t| && j != i ==> t[j] == d.table[j])
      && y.gen == d.table[i].gen && y.size == size && y.prio == prio
      && !y.idle && !y.huge && !y.incompressible && y.underWb == d.table[i].underWb
  {
  }

  /**
   A rewritten slot keeps its contents, has moved to a strictly better compressor and to a
   strictly smaller size class; any other exit leaves its object alone.
   */
  lemma RecompressionImproves(d: Dev, i: nat, e: Env, a: Args)
    requires i < |d.table| && Valid(e, a)
    ensures
      var r := Recompressed(d, i, e, a);
      var x, y := d.table[i], r.dev.table[i];
      && y.gen == x.gen
      && (r.exit == Rewritten ==>
            && x.prio < y.prio < a.prioMax && a.prio <= y.prio && e.classOf(y.size) < e.classOf(x.size)
            && (a.threshold > 0 ==> y.size < a.threshold) && !y.idle && !y.huge && !y.incompressible)
      && (r.exit != Rewritten ==> y.size == x.size && y.prio == x.prio)
      && |r.dev.table| == |d.table| && (forall j :: 0 <= j < |d.table| && j != i ==> r.dev.table[j] == d.table[j])
  {
    var x, r := d.table[i], Recompressed(d, i, e, a);
    if r.exit == Rewritten {
      RecompressedSlot(Put(d, i, x.(idle := false)), i, r.dev.table[i].size, r.dev.table[i].prio);
    }
  }

  /**
   What an attempt comes to, over all compressors of the range: the first that is there, is better
   than the slot's own and whose result is in a smaller class and below the threshold is taken over,
   if none before it fails; without memory for the object the slot stays as it is.
   */
  lemma AcceptedIsRewritten(d: Dev, i: nat, e: Env, a: Args, p: nat)
    requires i < |d.table| && Shaped(e, a) && e.readOk && a.prio <= p < a.prioMax
    requires d.table[i].size > 0 && d.table[i].size >= a.threshold
    requires e.present[p] && p > d.table[i].prio && e.compress(p).Some?
    requires e.classOf(e.compress(p).value) < e.classOf(d.table[i].size)
    requires a.threshold == 0 || e.compress(p).value < a.threshold
    requires forall q :: a.prio <= q < p && e.present[q] && q > d.table[i].prio ==>
      && e.compress(q).Some?
      && (e.classOf(e.compress(q).value) >= e.classOf(d.table[i].size)
          || (a.threshold > 0 && e.compress(q).value >= a.threshold))
    ensures
      var r := Recompressed(d, i, e, a);
      var y := r.dev.table[i];
      if e.allocOk then
        && r.exit == Rewritten && y.size == e.compress(p).value && y.prio == p && y.gen == d.table[i].gen
        && (HasHandle(d.table[i]) ==>
              r.dev.comprSize == d.comprSize - d.table[i].size + y.size && r.dev.stored == d.stored)
      else r == Result(Put(d, i, d.table[i].(idle := false)), NoMemory)
  {
    var x := d.table[i];
    assert Ends(e, x, a, p);
    var f := FirstEnd(e, x, a, a.prio);
    assert forall q :: a.prio <= q < p ==> !Ends(e, x, a, q);
    assert f == p;
    RecompressedSlot(Put(d, i, x.(idle := false)), i, e.compress(p).value, p);
  }

  /** The first compressor that fails ends the attempt; nothing but the idle mark has changed. */
  lemma FailureIsReported(d: Dev, i: nat, e: Env, a: Args, p: nat)
    requires i < |d.table| && Shaped(e, a) && e.readOk && a.prio <= p < a.prioMax
    requires d.table[i].size > 0 && d.table[i].size >= a.threshold
    requires e.present[p] && p > d.table[i].prio && e.compress(p).None?
    requires forall q :: a.prio <= q < p && e.present[q] && q > d.table[i].prio ==>
      && e.compress(q).Some?
      && (e.classOf(e.compress(q).value) >= e.classOf(d.table[i].size)
          || (a.threshold > 0 && e.compress(q).value >= a.threshold))
    ensures Recompressed(d, i, e, a) == Result(Put(d, i, d.table[i].(idle := false)), CompressError)
  {
    var x := d.table[i];
    assert Ends(e, x, a, p);
    assert forall q :: a.prio <= q < p ==> !Ends(e, x, a, q);
    assert FirstEnd(e, x, a, a.prio) == p;
  }

  /** When no compressor is asked: an empty slot, one below the threshold, a failed read, no range. */
  lemma NothingTried(d: Dev, i: nat, e: Env, a: Args)
    requires i < |d.table| && Shaped(e, a)
    requires d.table[i].size == 0 || d.table[i].size < a.threshold || !e.readOk || a.prio >= a.prioMax
    ensures
      var x, r := d.table[i], Recompressed(d, i, e, a);
      && (r.exit == Invalid <==> x.size == 0)
      && (r.exit == ReadError <==> x.size > 0 && x.size >= a.threshold && !e.readOk)
      && (r.exit == Kept <==> 0 < x.size < a.threshold || (x.size > 0 && e.readOk))
      && r.dev.table == (if x.size > 0 && x.size >= a.threshold && e.readOk
                         then d.table[i := x.(idle := false)] else d.table)
      && r.dev == d.(table := r.dev.table)
  {
  }

  lemma RecompressedKeepsStats(d: Dev, i: nat, e: Env, a: Args)
    requires i < |d.table| && Valid(e, a) && StatsExact(d) && SlotsOk(d) && HasHandle(d.table[i])
    requires forall p :: e.compress(p).Some? ==> e.compress(p).value > 0
    ensures StatsExact(Recompressed(d, i, e, a).dev) && SlotsOk(Recompressed(d, i, e, a).dev)
  {
    var x, r := d.table[i], Recompressed(d, i, e, a);
    var n := Put(d, i, x.(idle := false));
    FlagsKeepStats(d, i, false, x.underWb);
    if r.exit == Rewritten {
      RecompressKeepsStats(n, i, r.dev.table[i].size, r.dev.table[i].prio);
    } else if r.dev != d && r.dev != n {
      StatsAfterPut(d, r.dev, i, r.dev.table[i]);
    }
  }

  /**
   Which value of num_active_comps would set ZRAM_INCOMPRESSIBLE: exactly one more than the
   number of compressors tried, after each was tried without error or success and the last one
   did not reach a smaller class.
   */
  lemma IncompressibleIff(d: Dev, i: nat, e: Env, a: Args)
    requires i < |d.table| && Shaped(e, a) && !d.table[i].incompressible && a.prio < a.prioMax
    requires d.table[i].size > 0 && d.table[i].size >= a.threshold && e.readOk
    ensures
      var x := d.table[i];
      Recompressed(d, i, e, a).dev.table[i].incompressible <==>
        && (forall p :: a.prio <= p < a.prioMax && Tries(e, x, p) ==> e.compress(p).Some? && !Accepted(e, x, a, p))
        && Tried(e, x, a.prio, a.prioMax) > 0 && e.active == 1 + Tried(e, x, a.prio, a.prioMax)
        && !Smaller(e, x, LastTried(e, x, a.prio, a.prioMax))
  {
    var x := d.table[i];
    var p := FirstEnd(e, x, a, a.prio);
    if p < a.prioMax {
      assert Tries(e, x, p) && (e.compress(p).None? || Accepted(e, x, a, p));
      if e.compress(p).Some? {
        RecompressedSlot(Put(d, i, x.(idle := false)), i, e.compress(p).value, p);
      }
    } else {
      forall q | a.prio <= q < a.prioMax && Tries(e, x, q) ensures e.compress(q).Some? && !Accepted(e, x, a, q) {
        assert !Ends(e, x, a, q);
      }
    }
  }

  lemma {:induction false} CountGrows(present: seq<bool>, q: nat)
    requires q <= |present|
    ensures CountPresent(present[..q]) <= CountPresent(present)
  {
    if q < |present| {
      assert present[..|present| - 1][..q] == present[..q];
      CountGrows(present[..|present| - 1], q);
    } else {
      assert present[..q] == present;
    }
  }

  /** The primary compressor is present and never tried. */
  lemma {:induction false} PrimaryIsNotTried(e: Env, x: Slot, p: nat, q: nat)
    requires p <= q <= |e.present| && 0 < q && e.present[0]
    ensures Tried(e, x, p, q) + 1 <= CountPresent(e.present[..q])
    ensures p <= 1 && x.prio == 0 ==> Tried(e, x, p, q) + 1 == CountPresent(e.present[..q])
    decreases q
  {
    assert e.present[..q][..q - 1] == e.present[..q - 1];
    if q == 1 {
      assert e.present[..1][..0] == [];
      assert Tried(e, x, p, q) == 0;
    } else if p < q {
      PrimaryIsNotTried(e, x, p, q - 1);
    } else {
      PrimaryIsNotTried(e, x, p - 1, q - 1);
    }
  }

  /**
   ZRAM_INCOMPRESSIBLE is never set: the loop tries at most all compressors but the primary,
   and num_active_comps - 1 is the number of all of them.
   */
  lemma NeverIncompressible(d: Dev, i: nat, e: Env, a: Args)
    requires i < |d.table| && Valid(e, a)
    ensures
      var r := Recompressed(d, i, e, a).dev;
      forall j :: 0 <= j < |d.table| && r.table[j].incompressible ==> d.table[j].incompressible
  {
    var x := d.table[i];
    RecompressionImproves(d, i, e, a);
    if a.prio < a.prioMax {
      PrimaryIsNotTried(e, x, a.prio, a.prioMax);
      CountGrows(e.present, a.prioMax);
      if !x.incompressible && x.size > 0 && x.size >= a.threshold && e.readOk {
        IncompressibleIff(d, i, e, a);
      }
    }
  }

  /**
   Without the extra one it would be: had num_active_comps been the number of compressors, a
   pass over all of them would mark a slot of the primary exactly when none of the others
   failed or was accepted and the last did not reach a smaller class.
   */
  lemma CountedWithoutTheExtraOne(d: Dev, i: nat, e: Env, a: Args)
    requires i < |d.table| && Valid(e, a) && !d.table[i].incompressible && d.table[i].prio == 0
    requires a.prio <= 1 && a.prioMax == ZRAM_MAX_COMPS
    requires d.table[i].size > 0 && d.table[i].size >= a.threshold && e.readOk
    ensures
      var x, f := d.table[i], e.(active := CountPresent(e.present));
      Recompressed(d, i, f, a).dev.table[i].incompressible <==>
        && (forall p :: a.prio <= p < a.prioMax && Tries(e, x, p) ==> e.compress(p).Some? && !Accepted(e, x, a, p))
        && Tried(e, x, a.prio, a.prioMax) > 0 && !Smaller(e, x, LastTried(e, x, a.prio, a.prioMax))
  {
    var x, f := d.table[i], e.(active := CountPresent(e.present));
    assert e.present[..a.prioMax] == e.present;
    PrimaryIsNotTried(e, x, a.prio, a.prioMax);
    SameCompressors(e, f, x, a.prio, a.prioMax);
    IncompressibleIff(d, i, f, a);
    assert forall p :: Tries(e, x, p) == Tries(f, x, p) && Accepted(e, x, a, p) == Accepted(f, x, a, p);
  }

  lemma {:induction false} SameCompressors(e: Env, f: Env, x: Slot, p: nat, q: nat)
    requires p <= q && e.present == f.present
    ensures Tried(e, x, p, q) == Tried(f, x, p, q)
    ensures Tried(e, x, p, q) > 0 ==> LastTried(e, x, p, q) == LastTried(f, x, p, q)
    decreases q
  {
    if p < q {
      SameCompressors(e, f, x, p, q - 1);
    }
  }

  /** abk_zram_recompress_pointless() */
  method Pointless(e: Env, x: Slot, prio: nat, prioMax: nat) returns (r: bool)
    requires |e.present| == ZRAM_MAX_COMPS && prioMax <= ZRAM_MAX_COMPS
    ensures r <==> prio >= prioMax || Tried(e, x, prio, prioMax) == 0
  {
    var p := prio;
    while p < prioMax
      invariant prio <= p
      invariant forall i :: prio <= i < p && i < prioMax ==> !Tries(e, x, i)
    {
      if p > x.prio && e.present[p] {
        assert Tries(e, x, p);
        return false;
      }
      p := p + 1;
    }
    return true;
  }

  /** The predicate holds exactly when an attempt could try nothing, and then skipping it loses nothing. */
  lemma SkippingLosesNothing(d: Dev, i: nat, e: Env, a: Args)
    requires i < |d.table| && Valid(e, a) && e.readOk && e.allocOk
    requires a.prio >= a.prioMax || Tried(e, d.table[i], a.prio, a.prioMax) == 0
    ensures Recompressed(d, i, e, a).exit != Rewritten
    ensures
      var y := Recompressed(d, i, e, a).dev.table[i];
      y == d.table[i] || y == d.table[i].(idle := false)
  {
    if a.prio < a.prioMax {
      assert forall q :: a.prio <= q < a.prioMax ==> !Ends(e, d.table[i], a, q);
    }
  }

  // ---- in place ----

  /** The per-cpu compression streams of each priority, as far as they are held. */
  class Streams {
    var held: seq<int>

    constructor ()
      ensures held == [0, 0, 0, 0]
    {
      held := [0, 0, 0, 0];
    }

    /** zcomp_stream_get() */
    method Get(p: nat)
      requires p < |held|
      modifies this
      ensures held == old(held)[p := old(held)[p] + 1]
    {
      held := held[p := held[p] + 1];
    }

    /** zcomp_stream_put() */
    method Put(p: nat)
      requires p < |held|
      modifies this
      ensures held == old(held)[p := old(held)[p] - 1]
    {
      held := held[p := held[p] - 1];
    }
  }

  /** The compressor loop: where it ended, with that priority's stream held unless it ran out. */
  method TryCompressors(s: Streams, e: Env, x: Slot, a: Args) returns (p: nat, tried: nat, len: Option<nat>)
    requires Valid(e, a) && a.prio < a.prioMax && |s.held| == ZRAM_MAX_COMPS
    modifies s
    ensures p == FirstEnd(e, x, a, a.prio)
    ensures p == a.prioMax ==> s.held == old(s.held) && tried == Tried(e, x, a.prio, p)
    ensures p == a.prioMax && tried > 0 ==> len == e.compress(LastTried(e, x, a.prio, p)) && len.Some?
    ensures p < a.prioMax ==> len == e.compress(p)
    ensures p < a.prioMax && len.None? ==> s.held == old(s.held)
    ensures p < a.prioMax && len.Some? ==> s.held == old(s.held)[p := old(s.held)[p] + 1]
  {
    p, tried, len := a.prio, 0, None;
    while p < a.prioMax
      invariant a.prio <= p <= a.prioMax && s.held == old(s.held) && tried == Tried(e, x, a.prio, p)
      invariant FirstEnd(e, x, a, p) == FirstEnd(e, x, a, a.prio)
      invariant tried > 0 ==> len == e.compress(LastTried(e, x, a.prio, p)) && len.Some?
    {
      if e.present[p] && p > x.prio {
        tried := tried + 1;
        s.Get(p);
        len := e.compress(p);
        if len.None? {
          s.Put(p);
          return;
        }
        if !(e.classOf(len.value) >= e.classOf(x.size) || (a.threshold > 0 && len.value >= a.threshold)) {
          return;
        }
        s.Put(p);
      }
      p := p + 1;
    }
  }

  /** zram_recompress(): every stream it gets it has put again on every exit. */
  method RecompressSlot(z: Zram, s: Streams, i: nat, e: Env, a: Args) returns (exit: Exit)
    requires i < z.table.Length && Valid(e, a) && |s.held| == ZRAM_MAX_COMPS
    modifies z`busy, z`hugePages, z`comprSize, z`stored, z.table, s
    ensures Result(z.View(), exit) == Recompressed(old(z.View()), i, e, a)
    ensures s.held == old(s.held)
  {
    ghost var d := z.View();
    var x := z.table[i];
    if x.size == 0 {
      return Invalid;
    }
    if x.size < a.threshold {
      return Kept;
    }
    if !e.readOk {
      return ReadError;
    }
    z.table[i] := x.(idle := false);
    ghost var n := z.View();
    assert n == ZramSlots.Put(d, i, x.(idle := false));
    if a.prio >= a.prioMax {
      return Kept;
    }
    var p, tried, len := TryCompressors(s, e, x, a);
    if p == a.prioMax {
      if tried > 0 && e.classOf(len.value) >= e.classOf(x.size) && tried + 1 == e.active {
        z.table[i] := z.table[i].(incompressible := true);
        assert z.table[..] == n.table[i := z.table[i]];
      }
      return Kept;
    }
    if len.None? {
      return CompressError;
    }
    s.Put(p);
    assert s.held == old(s.held);
    if !e.allocOk {
      return NoMemory;
    }
    z.FreePage(i);
    ghost var f := z.View();
    z.table[i] := z.table[i].(size := len.value, prio := p);
    z.comprSize := z.comprSize + len.value;
    z.stored := z.stored + 1;
    assert z.View() == Recompress(n, i, len.value, p);
    return Rewritten;
  }

  // ---- the sweep ----

  datatype Sweep = Sweep(idleOnly: bool, hugeOnly: bool, args: Args)

  /** The tests recompress_store() makes under the slot lock before it spends an attempt. */
  predicate Eligible(x: Slot, w: Sweep, e: Env) {
    && Allocated(x) && (w.idleOnly ==> x.idle) && (w.hugeOnly ==> x.huge)
    && !x.wb && !x.underWb && !x.same && !x.incompressible
    && w.args.prio < w.args.prioMax && Tried(e, x, w.args.prio, w.args.prioMax) > 0
  }

  /** What a sweep looks for: an object of the kind asked for that a better compressor could take. */
  lemma EligibleIs(x: Slot, w: Sweep, e: Env)
    requires |e.present| == ZRAM_MAX_COMPS && w.args.prioMax <= ZRAM_MAX_COMPS
    ensures
      Eligible(x, w, e) <==>
        && x.size > 0 && !x.same && !x.wb && !x.underWb && !x.incompressible
        && (w.idleOnly ==> x.idle) && (w.hugeOnly ==> x.huge)
        && exists p :: w.args.prio <= p < w.args.prioMax && e.present[p] && p > x.prio
  {
    if w.args.prio < w.args.prioMax {
      assert forall p :: w.args.prio <= p < w.args.prioMax ==> (Tries(e, x, p) <==> e.present[p] && p > x.prio);
    }
  }

  /** The eligible slots below n, in index order. */
  function EligibleBelow(t: seq<Slot>, w: Sweep, env: nat -> Env, n: nat): (r: seq<nat>)
    requires n <= |t|
    ensures forall k :: 0 <= k < |r| ==> r[k] < n && Eligible(t[r[k]], w, env(r[k]))
    ensures forall j, k :: 0 <= j < k < |r| ==> r[j] < r[k]
    ensures forall i :: 0 <= i < n && Eligible(t[i], w, env(i)) ==> i in r
  {
    if n == 0 then []
    else EligibleBelow(t, w, env, n - 1) + if Eligible(t[n - 1], w, env(n - 1)) then [n - 1] else []
  }

  /** The device after one attempt at each of the slots in turn. */
  function AfterAttempts(d: Dev, a: Args, env: nat -> Env, slots: seq<nat>): (r: Dev)
    requires (forall i :: Valid(env(i), a)) && forall k :: 0 <= k < |slots| ==> slots[k] < |d.table|
    ensures |r.table| == |d.table|
  {
    if slots == [] then d
    else
      var k := |slots| - 1;
      Recompressed(AfterAttempts(d, a, env, slots[..k]), slots[k], env(slots[k]), a).dev
  }

  lemma OneMoreAttempt(d: Dev, a: Args, env: nat -> Env, slots: seq<nat>, i: nat)
    requires (forall j :: Valid(env(j), a)) && i < |d.table| && forall k :: 0 <= k < |slots| ==> slots[k] < |d.table|
    ensures
      AfterAttempts(d, a, env, slots + [i]) == Recompressed(AfterAttempts(d, a, env, slots), i, env(i), a).dev
  {
    assert (slots + [i])[..|slots|] == slots;
  }

  /** The body of recompress_store()'s loop: an attempt if the slot is eligible. */
  method VisitSlot(z: Zram, s: Streams, w: Sweep, e: Env, i: nat) returns (attempted: bool, failed: bool)
    requires i < z.table.Length && |s.held| == ZRAM_MAX_COMPS && Valid(e, w.args)
    modifies z`busy, z`hugePages, z`comprSize, z`stored, z.table, s
    ensures attempted <==> Eligible(old(z.table[i]), w, e)
    ensures failed ==> attempted
    ensures s.held == old(s.held)
    ensures z.View() == if attempted then Recompressed(old(z.View()), i, e, w.args).dev else old(z.View())
    ensures forall j :: 0 <= j < z.table.Length && j != i ==> z.table[j] == old(z.table[j])
  {
    var x := z.table[i];
    if !Allocated(x) || (w.idleOnly && !x.idle) || (w.hugeOnly && !x.huge)
      || x.wb || x.underWb || x.same || x.incompressible
    {
      return false, false;
    }
    var skip := Pointless(e, x, w.args.prio, w.args.prioMax);
    if skip {
      return false, false;
    }
    ghost var d := z.View();
    var exit := RecompressSlot(z, s, i, e, w.args);
    RecompressionImproves(d, i, e, w.args);
    assert forall j :: 0 <= j < z.table.Length && j != i ==> z.View().table[j] == d.table[j];
    return true, exit != Rewritten && exit != Kept;
  }

  /** A sweep over d has reached slot n: r is the device, attempts what was spent on it. */
  ghost predicate Swept(d: Dev, r: Dev, w: Sweep, env: nat -> Env, attempts: seq<nat>, n: nat, maxPages: nat) {
    && (forall i :: Valid(env(i), w.args)) && n <= |d.table| == |r.table|
    && attempts == EligibleBelow(d.table, w, env, n) && |attempts| <= maxPages
    && r == AfterAttempts(d, w.args, env, attempts)
    && (forall j :: n <= j < |d.table| ==> r.table[j] == d.table[j])
  }

  lemma AttemptLeavesOthers(r: Dev, n: nat, e: Env, a: Args)
    requires n < |r.table| && Valid(e, a)
    ensures
      var t := Recompressed(r, n, e, a).dev.table;
      |t| == |r.table| && forall j :: n < j < |t| ==> t[j] == r.table[j]
  {
    RecompressionImproves(r, n, e, a);
  }

  lemma SweptOneAttempted(
    d: Dev, r: Dev, w: Sweep, env: nat -> Env, attempts: seq<nat>, n: nat, maxPages: nat)
    requires Swept(d, r, w, env, attempts, n, maxPages) && n < |d.table| && |attempts| < maxPages
    requires Eligible(r.table[n], w, env(n))
    ensures Swept(d, Recompressed(r, n, env(n), w.args).dev, w, env, attempts + [n], n + 1, maxPages)
  {
    OneMoreAttempt(d, w.args, env, attempts, n);
    AttemptLeavesOthers(r, n, env(n), w.args);
  }

  lemma SweptOneMore(
    d: Dev, r: Dev, w: Sweep, env: nat -> Env, attempts: seq<nat>, n: nat, maxPages: nat, attempted: bool)
    requires Swept(d, r, w, env, attempts, n, maxPages) && n < |d.table| && |attempts| < maxPages
    requires attempted <==> Eligible(r.table[n], w, env(n))
    ensures
      Swept(d, if attempted then Recompressed(r, n, env(n), w.args).dev else r, w, env,
        if attempted then attempts + [n] else attempts, n + 1, maxPages)
  {
    if attempted {
      SweptOneAttempted(d, r, w, env, attempts, n, maxPages);
    }
  }

  /**
   recompress_store()'s loop: at most maxPages attempts, spent on the first eligible slots in
   index order; it goes on to the end of the device unless the budget or an error stops it.
   */
  method RecompressSweep(z: Zram, s: Streams, w: Sweep, env: nat -> Env, maxPages: nat)
    returns (attempts: seq<nat>, reached: nat, failed: bool)
    requires |s.held| == ZRAM_MAX_COMPS && forall i :: Valid(env(i), w.args)
    modifies z`busy, z`hugePages, z`comprSize, z`stored, z.table, s
    ensures Swept(old(z.View()), z.View(), w, env, attempts, reached, maxPages)
    ensures failed || |attempts| == maxPages || reached == z.table.Length
    ensures s.held == old(s.held)
  {
    attempts, reached, failed := [], 0, false;
    ghost var d := z.View();
    while reached < z.table.Length && |attempts| < maxPages && !failed
      invariant Swept(d, z.View(), w, env, attempts, reached, maxPages) && s.held == old(s.held)
      decreases z.table.Length - reached
    {
      ghost var r := z.View();
      var attempted;
      attempted, failed := VisitSlot(z, s, w, env(reached), reached);
      SweptOneMore(d, r, w, env, attempts, reached, maxPages, attempted);
      attempts := if attempted then attempts + [reached] else attempts;
      reached := reached + 1;
    }
  }

  // ---- rewrites of one stored page ----

  datatype Event =
    | Stored(c: Content)
    | Freed
    | Attempted(e: Env, a: Args)
    | WrittenBack(blk: nat)
    | Flagged(idle: bool, underWb: bool)

  /** One slot of a device and the number of rewrites since its page was stored. */
  function Happens(d: Dev, i: nat, rewrites: nat, ev: Event): (Dev, nat)
    requires i < |d.table| && (ev.Attempted? ==> Valid(ev.e, ev.a))
  {
    match ev
    case Stored(c) => (Store(d, i, c), 0)
    case Freed => (FreePage(d, i), 0)
    case Attempted(e, a) =>
      var r := Recompressed(d, i, e, a);
      (r.dev, if r.exit == Rewritten then rewrites + 1 else rewrites)
    case WrittenBack(blk) => (WriteBack(d, i, blk), rewrites)
    case Flagged(idle, underWb) => (Put(d, i, d.table[i].(idle := idle, underWb := underWb)), rewrites)
  }

  lemma HappensKeepsBound(d: Dev, i: nat, rewrites: nat, ev: Event)
    requires i < |d.table| && (ev.Attempted? ==> Valid(ev.e, ev.a))
    requires rewrites <= d.table[i].prio < ZRAM_MAX_COMPS
    ensures
      var (r, n) := Happens(d, i, rewrites, ev);
      |r.table| == |d.table| && n <= r.table[i].prio < ZRAM_MAX_COMPS
  {
    if ev.Attempted? {
      RecompressionImproves(d, i, ev.e, ev.a);
    }
  }

  /**
   Stores, frees, attempts, writebacks and flag changes in any order: a stored page is rewritten
   at most ZRAM_MAX_COMPS - 1 times.
   */
  lemma {:induction false} RewritesBounded(run: seq<(Dev, nat)>, i: nat, events: seq<Event>, k: nat)
    requires |run| == |events| + 1 && k <= |events|
    requires forall j :: 0 <= j < |events| ==> events[j].Attempted? ==> Valid(events[j].e, events[j].a)
    requires i < |run[0].0.table| && run[0].1 == 0 && run[0].0.table[i].prio < ZRAM_MAX_COMPS
    requires forall j :: 0 <= j < |events| && i < |run[j].0.table| ==>
      run[j + 1] == Happens(run[j].0, i, run[j].1, events[j])
    ensures i < |run[k].0.table| && run[k].1 <= run[k].0.table[i].prio <= ZRAM_MAX_COMPS - 1
  {
    if k > 0 {
      RewritesBounded(run, i, events, k - 1);
      HappensKeepsBound(run[k - 1].0, i, run[k - 1].1, events[k - 1]);
    }
  }
}
