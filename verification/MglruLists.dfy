/** The generation lists as vmscan changes them in place, under lru_lock. */
module MglruLists {
  import opened Mglru

  const MAX_LRU_BATCH := 64

  /** page_inc_gen() answers, for a page of the type, a live generation other than the oldest. */
  ghost predicate Targets(min: int, max: int, kind: int, newGen: (int, Page) -> int) {
    forall p :: exists s :: min < s <= max && newGen(kind, p) == GenOf(s)
  }

  /** How many pages the generation s of one type still holds, over n zones. */
  ghost function Held(g: Gens, kind: int, s: int, n: nat): nat {
    if n == 0 then 0 else Held(g, kind, s, n - 1) + |List(g, Place(GenOf(s), kind, n - 1))|
  }

  ghost predicate EmptyBelow(g: Gens, kind: int, s: int, n: int) {
    forall z :: 0 <= z < n ==> List(g, Place(GenOf(s), kind, z)) == []
  }

  ghost predicate OnlyZone(g: Gens, r: Gens, kind: int, s: int, zone: int) {
    forall z :: z != zone ==> List(r, Place(GenOf(s), kind, z)) == List(g, Place(GenOf(s), kind, z))
  }

  lemma {:induction false} HeldChange(g: Gens, r: Gens, kind: int, s: int, n: nat, zone: nat, d: int)
    requires OnlyZone(g, r, kind, s, zone)
    requires |List(g, Place(GenOf(s), kind, zone))| - |List(r, Place(GenOf(s), kind, zone))| == d
    ensures Held(r, kind, s, n) == Held(g, kind, s, n) - if zone < n then d else 0
  {
    if n > 0 {
      HeldChange(g, r, kind, s, n - 1, zone, d);
    }
  }

  /** What the last n pages of l, the last one first, add to the list of generation gen. */
  function Sent(l: seq<Page>, n: nat, gen: int, kind: int, newGen: (int, Page) -> int): seq<Page>
    requires n <= |l|
  {
    if n == 0 then []
    else Sent(l, n - 1, gen, kind, newGen) + if newGen(kind, l[|l| - n]) == gen then [l[|l| - n]] else []
  }

  /**
   The oldest lists have lost pages at their ends, and each page is where page_inc_gen() sent it,
   behind what was there, in the order in which they were taken.
   */
  ghost predicate Drained(g: Gens, r: Gens, kind: int, newGen: (int, Page) -> int)
    requires |g.min| == 2 && Kind(kind)
  {
    forall z :: DrainedIn(g, r, GenOf(g.min[kind]), kind, z, newGen)
  }

  ghost predicate DrainedIn(g: Gens, r: Gens, oldest: int, kind: int, z: int, newGen: (int, Page) -> int) {
    var l, rest := List(g, Place(oldest, kind, z)), List(r, Place(oldest, kind, z));
    && rest <= l
    && forall gen :: gen != oldest ==>
         List(r, Place(gen, kind, z)) == List(g, Place(gen, kind, z)) + Sent(l, |l| - |rest|, gen, kind, newGen)
  }

  ghost predicate Emptying(g: Gens, r: Gens, kind: int, newGen: (int, Page) -> int)
    requires |g.min| == 2 && Kind(kind)
  {
    Moved(g, r, kind) && Drained(g, r, kind, newGen)
  }

  lemma DrainedAtFirst(g: Gens, kind: int, newGen: (int, Page) -> int)
    requires SeqIsValid(g) && Kind(kind)
    ensures Drained(g, g, kind, newGen)
  {
  }

  ghost predicate SameKind(m: Gens, r: Gens, kind: int) {
    forall p: Place :: p.kind == kind ==> List(r, p) == List(m, p)
  }

  /**
   What advancing max_seq makes of a type's lists: with the ring full and the type evictable the
   oldest generation's pages go where page_inc_gen() sends them; otherwise none moves.
   */
  ghost predicate Aged(g: Gens, r: Gens, kind: int, swappiness: int, newGen: (int, Page) -> int)
    requires |g.min| == 2 && Kind(kind)
  {
    var evictable := if kind == FILE then swappiness <= MAX_SWAPPINESS else swappiness != 0;
    if g.max - g.min[kind] + 1 == MAX_NR_GENS && evictable then Drained(g, r, kind, newGen) else SameKind(g, r, kind)
  }

  lemma AgedThen(g: Gens, m: Gens, r: Gens, kind: int, swappiness: int, newGen: (int, Page) -> int)
    requires |g.min| == 2 && Kind(kind) && Aged(g, m, kind, swappiness, newGen) && SameKind(m, r, kind)
    ensures Aged(g, r, kind, swappiness, newGen)
  {
    if Drained(g, m, kind, newGen) {
      DrainedThen(g, m, r, kind, newGen);
    }
  }

  lemma AgedAtFirst(g: Gens, r: Gens, kind: int, swappiness: int, newGen: (int, Page) -> int)
    requires SeqIsValid(g) && Kind(kind) && SameKind(g, r, kind)
    ensures Aged(g, r, kind, swappiness, newGen)
  {
    DrainedAtFirst(g, kind, newGen);
    DrainedThen(g, g, r, kind, newGen);
  }

  lemma AgedAfter(g: Gens, a: Gens, r: Gens, kind: int, swappiness: int, newGen: (int, Page) -> int)
    requires |g.min| == 2 && |a.min| == 2 && Kind(kind) && a.max == g.max && a.min[kind] == g.min[kind]
    requires SameKind(g, a, kind) && Aged(a, r, kind, swappiness, newGen)
    ensures Aged(g, r, kind, swappiness, newGen)
  {
    if Drained(a, r, kind, newGen) {
      forall z ensures DrainedIn(g, r, GenOf(g.min[kind]), kind, z, newGen) {
        assert DrainedIn(a, r, GenOf(g.min[kind]), kind, z, newGen);
      }
    }
  }

  lemma DrainedThen(g: Gens, m: Gens, r: Gens, kind: int, newGen: (int, Page) -> int)
    requires |g.min| == 2 && Kind(kind) && Drained(g, m, kind, newGen) && SameKind(m, r, kind)
    ensures Drained(g, r, kind, newGen)
  {
    forall z ensures DrainedIn(g, r, GenOf(g.min[kind]), kind, z, newGen) {
      assert DrainedIn(g, m, GenOf(g.min[kind]), kind, z, newGen);
    }
  }

  lemma SentOneMore(l: seq<Page>, rest: seq<Page>, gen: int, kind: int, newGen: (int, Page) -> int)
    requires rest <= l && rest != []
    ensures
      var page := rest[|rest| - 1];
      Sent(l, |l| - |rest| + 1, gen, kind, newGen) ==
        Sent(l, |l| - |rest|, gen, kind, newGen) + if newGen(kind, page) == gen then [page] else []
  {
  }

  lemma TakeLastIn(m: Gens, from: Place, to: Place, p: Place)
    requires List(m, from) != [] && from != to
    ensures
      var l := List(m, from);
      List(TakeLast(m, from, to), p) ==
        if p == from then l[..|l| - 1] else List(m, p) + if p == to then [l[|l| - 1]] else []
  {
  }

  /** Zones other than the page's. */
  lemma DrainedElsewhere(g: Gens, m: Gens, r: Gens, oldest: int, kind: int, z: int, newGen: (int, Page) -> int)
    requires DrainedIn(g, m, oldest, kind, z, newGen)
    requires forall gen :: List(r, Place(gen, kind, z)) == List(m, Place(gen, kind, z))
    ensures DrainedIn(g, r, oldest, kind, z, newGen)
  {
  }

  /** The page's own zone, its last list being rest before the page was taken. */
  lemma DrainedHere(
    g: Gens, m: Gens, r: Gens, oldest: int, kind: int, z: int, rest: seq<Page>, newGen: (int, Page) -> int)
    requires DrainedIn(g, m, oldest, kind, z, newGen) && List(m, Place(oldest, kind, z)) == rest != []
    requires List(r, Place(oldest, kind, z)) == rest[..|rest| - 1]
    requires forall gen :: gen != oldest ==>
      List(r, Place(gen, kind, z)) ==
        List(m, Place(gen, kind, z)) + if newGen(kind, rest[|rest| - 1]) == gen then [rest[|rest| - 1]] else []
    ensures DrainedIn(g, r, oldest, kind, z, newGen)
  {
    var l := List(g, Place(oldest, kind, z));
    forall gen | gen != oldest
      ensures List(r, Place(gen, kind, z)) ==
        List(g, Place(gen, kind, z)) + Sent(l, |l| - (|rest| - 1), gen, kind, newGen)
    {
      SentOneMore(l, rest, gen, kind, newGen);
    }
  }

  lemma DrainedInOneMore(g: Gens, m: Gens, from: Place, to: Place, z: int, newGen: (int, Page) -> int)
    requires DrainedIn(g, m, from.gen, from.kind, z, newGen) && List(m, from) != []
    requires to == Place(newGen(from.kind, List(m, from)[|List(m, from)| - 1]), from.kind, from.zone) != from
    ensures DrainedIn(g, TakeLast(m, from, to), from.gen, from.kind, z, newGen)
  {
    var r, kind, rest := TakeLast(m, from, to), from.kind, List(m, from);
    forall gen
      ensures z != from.zone ==> List(r, Place(gen, kind, z)) == List(m, Place(gen, kind, z))
      ensures z == from.zone && gen != from.gen ==>
        List(r, Place(gen, kind, z)) == List(m, Place(gen, kind, z)) + if to.gen == gen then [rest[|rest| - 1]] else []
    {
      TakeLastIn(m, from, to, Place(gen, kind, z));
    }
    if z != from.zone {
      DrainedElsewhere(g, m, r, from.gen, kind, z, newGen);
    } else {
      TakeLastIn(m, from, to, from);
      DrainedHere(g, m, r, from.gen, kind, z, rest, newGen);
    }
  }

  lemma DrainedOneMore(g: Gens, m: Gens, kind: int, from: Place, to: Place, newGen: (int, Page) -> int)
    requires |g.min| == 2 && Kind(kind) && Drained(g, m, kind, newGen)
    requires from.gen == GenOf(g.min[kind]) && from.kind == kind && List(m, from) != []
    requires to == Place(newGen(kind, List(m, from)[|List(m, from)| - 1]), kind, from.zone) != from
    ensures Drained(g, TakeLast(m, from, to), kind, newGen)
  {
    forall z ensures DrainedIn(g, TakeLast(m, from, to), GenOf(g.min[kind]), kind, z, newGen) {
      DrainedInOneMore(g, m, from, to, z, newGen);
    }
  }

  class LruGen {
    const zones: nat
    var maxSeq: int
    var minSeq: seq<int>
    var lists: map<Place, seq<Page>>

    ghost function View(): Gens
      reads this
    {
      Gens(maxSeq, minSeq, lists)
    }

    ghost predicate Valid()
      reads this
    {
      SeqIsValid(View()) && forall p :: p in lists && lists[p] != [] ==> 0 <= p.zone < zones
    }

    function At(gen: int, kind: int, zone: int): seq<Page>
      reads this
    {
      var p := Place(gen, kind, zone);
      if p in lists then lists[p] else []
    }

    /** Empty lists under any valid window. */
    constructor (zones: nat, max: int, min: seq<int>)
      requires SeqIsValid(Gens(max, min, map[]))
      ensures this.zones == zones && View() == Gens(max, min, map[])
      ensures Valid() && Inv(View())
    {
      this.zones, maxSeq, minSeq, lists := zones, max, min, map[];
    }

    /** The body of the loop: the last page of a list of the oldest generation moves on. */
    method MoveLast(kind: int, zone: int, newGen: (int, Page) -> int, ghost g: Gens)
      requires Valid() && Kind(kind) && 0 <= zone < zones && SeqIsValid(g) && Emptying(g, View(), kind, newGen)
      requires Targets(minSeq[kind], maxSeq, kind, newGen) && At(GenOf(minSeq[kind]), kind, zone) != []
      modifies this`lists
      ensures Valid() && Emptying(g, View(), kind, newGen)
      ensures |At(GenOf(minSeq[kind]), kind, zone)| == |old(At(GenOf(minSeq[kind]), kind, zone))| - 1
      ensures OnlyZone(old(View()), View(), kind, minSeq[kind], zone)
    {
      ghost var m := View();
      var from := Place(GenOf(minSeq[kind]), kind, zone);
      var l := lists[from];
      var page := l[|l| - 1];
      var to := Place(newGen(kind, page), kind, zone);
      MovedTarget(g, m, kind, zone, to.gen);
      DrainedOneMore(g, m, kind, from, to, newGen);
      lists := lists[from := l[..|l| - 1]][to := At(to.gen, kind, zone) + [page]];
      assert View() == TakeLast(m, from, to);
    }

    /** The oldest generation's pages of one zone, as far as the batch goes. */
    method EmptyZone(kind: int, zone: int, newGen: (int, Page) -> int, batch: nat, ghost g: Gens) returns (remaining: nat)
      requires Valid() && Kind(kind) && 0 <= zone < zones && SeqIsValid(g) && Emptying(g, View(), kind, newGen)
      requires Targets(minSeq[kind], maxSeq, kind, newGen) && batch > 0
      modifies this`lists
      ensures Valid() && Emptying(g, View(), kind, newGen)
      ensures remaining > 0 ==> At(GenOf(minSeq[kind]), kind, zone) == []
      ensures |old(At(GenOf(minSeq[kind]), kind, zone))| - |At(GenOf(minSeq[kind]), kind, zone)| == batch - remaining
      ensures OnlyZone(old(View()), View(), kind, minSeq[kind], zone)
    {
      remaining := batch;
      while At(GenOf(minSeq[kind]), kind, zone) != []
        invariant Valid() && Emptying(g, View(), kind, newGen) && Targets(minSeq[kind], maxSeq, kind, newGen) && 0 < remaining
        invariant OnlyZone(old(View()), View(), kind, minSeq[kind], zone)
        invariant |old(At(GenOf(minSeq[kind]), kind, zone))| - |At(GenOf(minSeq[kind]), kind, zone)| == batch - remaining
        decreases |At(GenOf(minSeq[kind]), kind, zone)|
      {
        MoveLast(kind, zone, newGen, g);
        remaining := remaining - 1;
        if remaining == 0 {
          return;
        }
      }
    }

    /** The same, with the pages of the generation counted. */
    method EmptyNext(kind: int, zone: int, newGen: (int, Page) -> int, batch: nat, ghost g: Gens) returns (remaining: nat)
      requires Valid() && Kind(kind) && 0 <= zone < zones && SeqIsValid(g) && Emptying(g, View(), kind, newGen)
      requires Targets(minSeq[kind], maxSeq, kind, newGen) && batch > 0
      requires EmptyBelow(View(), kind, minSeq[kind], zone)
      modifies this`lists
      ensures Valid() && Emptying(g, View(), kind, newGen)
      ensures remaining > 0 ==> EmptyBelow(View(), kind, minSeq[kind], zone + 1)
      ensures Held(View(), kind, minSeq[kind], zones) + (batch - remaining)
              == Held(old(View()), kind, minSeq[kind], zones)
    {
      ghost var m := View();
      remaining := EmptyZone(kind, zone, newGen, batch, g);
      HeldChange(m, View(), kind, minSeq[kind], zones, zone, batch - remaining);
    }

    /** The loop over the zones in inc_min_seq(). */
    method EmptyOldest(kind: int, newGen: (int, Page) -> int) returns (done: bool)
      requires Valid() && Kind(kind) && Targets(minSeq[kind], maxSeq, kind, newGen)
      modifies this`lists
      ensures Valid() && Emptying(old(View()), View(), kind, newGen)
      ensures done ==> EmptyBelow(View(), kind, minSeq[kind], zones)
      ensures !done ==>
        Held(View(), kind, minSeq[kind], zones) == Held(old(View()), kind, minSeq[kind], zones) - MAX_LRU_BATCH
    {
      ghost var g := View();
      var remaining := MAX_LRU_BATCH;
      for zone := 0 to zones
        invariant Valid() && Emptying(g, View(), kind, newGen) && Targets(minSeq[kind], maxSeq, kind, newGen) && 0 < remaining
        invariant EmptyBelow(View(), kind, minSeq[kind], zone)
        invariant Held(View(), kind, minSeq[kind], zones) + (MAX_LRU_BATCH - remaining)
                  == Held(g, kind, minSeq[kind], zones)
      {
        remaining := EmptyNext(kind, zone, newGen, remaining, g);
        if remaining == 0 {
          return false;
        }
      }
      return true;
    }

    /**
     inc_min_seq(); when it gives up it has moved a full batch, so that an emptied generation is
     reached after as many tries as it has batches.
     */
    method IncMinSeq(kind: int, swappiness: int, newGen: (int, Page) -> int) returns (done: bool)
      requires Valid() && Kind(kind) && Targets(minSeq[kind], maxSeq, kind, newGen)
      modifies this`minSeq, this`lists
      ensures IncMin(old(View()), View(), kind, swappiness, done)
      ensures !done ==>
        Held(View(), kind, minSeq[kind], zones) == Held(old(View()), kind, minSeq[kind], zones) - MAX_LRU_BATCH
      ensures Evictable(kind, swappiness) ==> Drained(old(View()), View(), kind, newGen)
      ensures SameKind(old(View()), View(), 1 - kind) && (!Evictable(kind, swappiness) ==> SameKind(old(View()), View(), kind))
      ensures forall p :: p in lists && lists[p] != [] ==> 0 <= p.zone < zones
    {
      if if kind == FILE then swappiness > MAX_SWAPPINESS else swappiness == 0 {
        minSeq := minSeq[kind := minSeq[kind] + 1];
        return true;
      }
      ghost var g := View();
      done := EmptyOldest(kind, newGen);
      if done {
        ghost var m := View();
        forall z ensures List(m, Place(GenOf(minSeq[kind]), kind, z)) == [] {
          assert 0 <= z < zones ==> List(m, Place(GenOf(minSeq[kind]), kind, z)) == [];
        }
        minSeq := minSeq[kind := minSeq[kind] + 1];
        assert View() == Bump(m, kind);
        DrainedThen(g, m, View(), kind, newGen);
      }
    }

    /** One generation is empty in every zone. */
    method IsEmpty(kind: int, s: int) returns (r: bool)
      requires Valid()
      ensures r <==> EmptySlot(View(), kind, s)
    {
      for zone := 0 to zones
        invariant forall z :: 0 <= z < zone ==> At(GenOf(s), kind, z) == []
      {
        if At(GenOf(s), kind, zone) != [] {
          assert List(View(), Place(GenOf(s), kind, zone)) != [];
          return false;
        }
      }
      forall z ensures List(View(), Place(GenOf(s), kind, z)) == [] {
        assert 0 <= z < zones ==> At(GenOf(s), kind, z) == [];
      }
      return true;
    }

    method OldestPopulated(kind: int) returns (m: int)
      requires Valid() && Kind(kind)
      ensures m == Oldest(View(), kind, minSeq[kind])
    {
      m := minSeq[kind];
      while m + MIN_NR_GENS <= maxSeq
        invariant Oldest(View(), kind, m) == Oldest(View(), kind, minSeq[kind])
        decreases maxSeq - m
      {
        var empty := IsEmpty(kind, m);
        if !empty {
          return;
        }
        m := m + 1;
      }
    }

    /** The search, the limit and the two writes of try_to_inc_min_seq(). */
    method AdvanceMins(swappiness: int) returns (success: bool)
      requires Valid()
      modifies this`minSeq
      ensures View() == TryIncMin(old(View()), swappiness)
      ensures success <==> minSeq != old(minSeq)
    {
      var a, f := minSeq[ANON], minSeq[FILE];
      if swappiness != 0 {
        a := OldestPopulated(ANON);
      }
      if swappiness <= MAX_SWAPPINESS {
        f := OldestPopulated(FILE);
      }
      if swappiness != 0 && swappiness <= MAX_SWAPPINESS {
        var s := maxSeq - MIN_NR_GENS;
        if a > s && f < s {
          a := s;
        } else if f > s && a < s {
          f := s;
        }
      }
      success := false;
      ghost var g := View();
      if a > minSeq[ANON] {
        minSeq := minSeq[ANON := a];
        success := true;
      }
      if f > minSeq[FILE] {
        minSeq := minSeq[FILE := f];
        success := true;
      }
      assert minSeq == TryIncMin(g, swappiness).min;
    }

    /** try_to_inc_min_seq(): both ends as far as AdvancedMin allows; success means that one moved. */
    method TryToIncMinSeq(swappiness: int) returns (success: bool)
      requires Valid()
      modifies this`minSeq
      ensures View() == TryIncMin(old(View()), swappiness) && |minSeq| == 2
      ensures forall kind :: Kind(kind) ==> AdvancedMin(old(View()), View(), kind, swappiness)
      ensures success <==> minSeq != old(minSeq)
    {
      TryMinAdvances(View(), swappiness, ANON);
      TryMinAdvances(View(), swappiness, FILE);
      success := AdvanceMins(swappiness);
    }

    /** One type's turn in inc_max_seq(). */
    method MakeOneRoom(kind: int, swappiness: int, newGen: (int, Page) -> int) returns (done: bool)
      requires Valid() && Kind(kind) && Targets(minSeq[kind], maxSeq, kind, newGen)
      modifies this`minSeq, this`lists
      ensures MakeRoom(old(View()), View(), kind, swappiness, done)
      ensures Aged(old(View()), View(), kind, swappiness, newGen) && SameKind(old(View()), View(), 1 - kind)
      ensures forall p :: p in lists && lists[p] != [] ==> 0 <= p.zone < zones
    {
      done := true;
      if maxSeq - minSeq[kind] + 1 == MAX_NR_GENS {
        done := IncMinSeq(kind, swappiness, newGen);
      }
    }

    /** inc_max_seq() from taking lru_lock to advancing max_seq or to dropping the lock for another try. */
    method TryToIncMaxSeq(swappiness: int, newGen: (int, Page) -> int) returns (done: bool)
      requires Valid() && Inv(View())
      requires Targets(minSeq[ANON], maxSeq, ANON, newGen) && Targets(minSeq[FILE], maxSeq, FILE, newGen)
      modifies this`maxSeq, this`minSeq, this`lists
      ensures Attempt(old(View()), View(), swappiness, done)
      ensures Aged(old(View()), View(), ANON, swappiness, newGen) && Aged(old(View()), View(), FILE, swappiness, newGen)
    {
      ghost var g := View();
      done := MakeOneRoom(ANON, swappiness, newGen);
      ghost var a := View();
      MakeRoomKeepsInv(g, a, ANON, swappiness, done);
      if !done {
        AgedAtFirst(g, a, FILE, swappiness, newGen);
        return;
      }
      done := MakeOneRoom(FILE, swappiness, newGen);
      ghost var f := View();
      AgedThen(g, a, f, ANON, swappiness, newGen);
      AgedAfter(g, a, f, FILE, swappiness, newGen);
      if done {
        maxSeq := maxSeq + 1;
      }
      assert SecondHalf(a, View(), swappiness, done);
      AgedThen(g, f, View(), ANON, swappiness, newGen);
      AgedThen(g, f, View(), FILE, swappiness, newGen);
    }
  }

  lemma CountSnoc(l: seq<Page>, x: Page, p: Page)
    ensures multiset(l + [x])[p] == multiset(l)[p] + if p == x then 1 else 0
  {
  }

  /** x has gone from the end of one list to the end of the other. */
  ghost predicate Carried(m: Gens, r: Gens, from: Place, to: Place, x: Page) {
    && from.kind == to.kind && from.zone == to.zone && from.gen != to.gen
    && 0 <= from.gen < MAX_NR_GENS && 0 <= to.gen < MAX_NR_GENS
    && r.max == m.max && r.min == m.min
    && List(m, from) == List(r, from) + [x] && List(r, to) == List(m, to) + [x]
    && (forall p :: p != from && p != to ==> List(r, p) == List(m, p))
  }

  lemma CountCarried(m: Gens, r: Gens, from: Place, to: Place, x: Page, q: Place, p: Page)
    requires Carried(m, r, from, to, x)
    ensures multiset(List(r, q))[p] ==
      multiset(List(m, q))[p] - (if q == from && p == x then 1 else 0) + (if q == to && p == x then 1 else 0)
  {
    CountSnoc(List(r, from), x, p);
    CountSnoc(List(m, to), x, p);
  }

  lemma CarriedKeepsPages(m: Gens, r: Gens, from: Place, to: Place, x: Page)
    requires Carried(m, r, from, to, x)
    ensures SamePages(m, r)
  {
    forall k, z, p ensures Occurs(r, k, z, p) == Occurs(m, k, z, p) {
      CountCarried(m, r, from, to, x, Place(0, k, z), p);
      CountCarried(m, r, from, to, x, Place(1, k, z), p);
      CountCarried(m, r, from, to, x, Place(2, k, z), p);
      CountCarried(m, r, from, to, x, Place(3, k, z), p);
    }
  }

  lemma SlotsDiffer(i: int, j: int)
    requires i < j < i + MAX_NR_GENS
    ensures GenOf(i) != GenOf(j)
  {
  }

  /** One page taken from the end of the oldest generation and put at the end of a younger one. */
  lemma MovedOneMore(g: Gens, m: Gens, r: Gens, kind: int, zone: int, s: int, x: Page)
    requires SeqIsValid(g) && Kind(kind) && Moved(g, m, kind) && g.min[kind] < s <= g.max
    requires Carried(m, r, Place(GenOf(g.min[kind]), kind, zone), Place(GenOf(s), kind, zone), x)
    ensures Moved(g, r, kind)
  {
    var from, to := Place(GenOf(g.min[kind]), kind, zone), Place(GenOf(s), kind, zone);
    CarriedKeepsPages(m, r, from, to, x);
    SamePagesTransitive(g, m, r);
    OutsideKept(g, m, r, kind, zone, s, x);
    LiveKept(g, m, r, kind, zone, s, x);
  }

  /** The list of one place with its last page taken off and put after those of another. */
  function TakeLast(m: Gens, from: Place, to: Place): Gens
    requires List(m, from) != []
  {
    var l := List(m, from);
    m.(lists := m.lists[from := l[..|l| - 1]][to := List(m, to) + [l[|l| - 1]]])
  }

  lemma TakeLastCarries(m: Gens, from: Place, to: Place)
    requires List(m, from) != [] && from.kind == to.kind && from.zone == to.zone && from.gen != to.gen
    requires 0 <= from.gen < MAX_NR_GENS && 0 <= to.gen < MAX_NR_GENS
    ensures Carried(m, TakeLast(m, from, to), from, to, List(m, from)[|List(m, from)| - 1])
  {
    var l := List(m, from);
    assert l == l[..|l| - 1] + [l[|l| - 1]];
  }

  lemma MovedTarget(g: Gens, m: Gens, kind: int, zone: int, gen: int)
    requires SeqIsValid(g) && Kind(kind) && Moved(g, m, kind)
    requires exists s :: g.min[kind] < s <= g.max && gen == GenOf(s)
    requires List(m, Place(GenOf(g.min[kind]), kind, zone)) != []
    ensures gen != GenOf(g.min[kind])
    ensures Moved(g, TakeLast(m, Place(GenOf(g.min[kind]), kind, zone), Place(gen, kind, zone)), kind)
  {
    var from := Place(GenOf(g.min[kind]), kind, zone);
    var s :| g.min[kind] < s <= g.max && gen == GenOf(s);
    SlotsDiffer(g.min[kind], s);
    TakeLastCarries(m, from, Place(gen, kind, zone));
    MovedOneMore(g, m, TakeLast(m, from, Place(gen, kind, zone)), kind, zone, s, List(m, from)[|List(m, from)| - 1]);
  }

  lemma OutsideKept(g: Gens, m: Gens, r: Gens, kind: int, zone: int, s: int, x: Page)
    requires SeqIsValid(g) && Kind(kind) && Moved(g, m, kind) && g.min[kind] < s <= g.max
    requires Carried(m, r, Place(GenOf(g.min[kind]), kind, zone), Place(GenOf(s), kind, zone), x)
    ensures forall i, z :: Outside(g, kind, i) ==>
      List(r, Place(GenOf(i), kind, z)) == List(g, Place(GenOf(i), kind, z))
  {
    forall i, z | Outside(g, kind, i)
      ensures List(r, Place(GenOf(i), kind, z)) == List(g, Place(GenOf(i), kind, z))
    {
      SlotsDiffer(s, i);
      SlotsDiffer(g.min[kind], i);
      assert List(m, Place(GenOf(i), kind, z)) == List(g, Place(GenOf(i), kind, z));
    }
  }

  lemma LiveKept(g: Gens, m: Gens, r: Gens, kind: int, zone: int, s: int, x: Page)
    requires SeqIsValid(g) && Kind(kind) && Moved(g, m, kind) && g.min[kind] < s <= g.max
    requires Carried(m, r, Place(GenOf(g.min[kind]), kind, zone), Place(GenOf(s), kind, zone), x)
    ensures forall i, z :: g.min[kind] < i <= g.max ==>
      List(g, Place(GenOf(i), kind, z)) <= List(r, Place(GenOf(i), kind, z))
    ensures forall z :: List(r, Place(GenOf(g.min[kind]), kind, z)) <= List(g, Place(GenOf(g.min[kind]), kind, z))
  {
    var from, to := Place(GenOf(g.min[kind]), kind, zone), Place(GenOf(s), kind, zone);
    forall i, z | g.min[kind] < i <= g.max
      ensures List(g, Place(GenOf(i), kind, z)) <= List(r, Place(GenOf(i), kind, z))
    {
      SlotsDiffer(g.min[kind], i);
      assert List(g, Place(GenOf(i), kind, z)) <= List(m, Place(GenOf(i), kind, z));
    }
    forall z
      ensures List(r, Place(GenOf(g.min[kind]), kind, z)) <= List(g, Place(GenOf(g.min[kind]), kind, z))
    {
      var q := Place(GenOf(g.min[kind]), kind, z);
      assert List(m, q) <= List(g, q) && List(r, q) <= List(m, q);
    }
  }
}
