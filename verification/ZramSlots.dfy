/** The zram slot table: flags, sizes and the three statistics that are maintained by hand. */
module ZramSlots {

  const PAGE_SIZE: nat := 4096

  /**
   One zram_table_entry.  size is obj_size; element is the backing block of a ZRAM_WB slot;
   gen counts the stores into the slot, standing for its contents.
   */
  datatype Slot = Slot(
    size: nat, same: bool, huge: bool, wb: bool, idle: bool, underWb: bool,
    incompressible: bool, prio: nat, element: nat, gen: nat)

  /** zram_allocated() */
  predicate Allocated(x: Slot) { x.size > 0 || x.same || x.wb }

  /** The slot holds a zsmalloc object. */
  predicate HasHandle(x: Slot) { x.size > 0 && !x.same && !x.wb }

  predicate SlotOk(x: Slot) {
    && !(x.same && x.wb)
    && (x.same ==> x.size == 0)
    && (x.huge ==> x.size > 0)
    && (!x.wb ==> x.element == 0)
    && (x.wb ==> x.size > 0)
  }

  /** The device as far as slots and backing blocks go. */
  datatype Dev = Dev(
    table: seq<Slot>,
    busy: set<nat>,          // allocated blocks of the backing device; block 0 is never one
    media: map<nat, nat>,    // what each block holds
    hugePages: int, comprSize: int, stored: int)

  function HugeOf(x: Slot): int { if x.huge && !x.wb then 1 else 0 }

  function SizeOf(x: Slot): int { if Allocated(x) && !x.wb && !x.same then x.size else 0 }

  function StoredOf(x: Slot): int { if Allocated(x) then 1 else 0 }

  ghost function Sum(t: seq<Slot>, f: Slot -> int): int {
    if t == [] then 0 else f(t[0]) + Sum(t[1..], f)
  }

  lemma {:induction false} SumUpdate(t: seq<Slot>, i: nat, x: Slot, f: Slot -> int)
    requires i < |t|
    ensures Sum(t[i := x], f) == Sum(t, f) - f(t[i]) + f(x)
  {
    var u := t[i := x];
    if i == 0 {
      assert u[1..] == t[1..];
    } else {
      assert u[1..] == t[1..][i - 1 := x];
      SumUpdate(t[1..], i - 1, x, f);
    }
  }

  lemma {:induction false} SumNonNegative(t: seq<Slot>, f: Slot -> int)
    requires forall x :: f(x) >= 0
    ensures Sum(t, f) >= 0
  {
    if t != [] {
      SumNonNegative(t[1..], f);
    }
  }

  /**
   The counters are what they claim: huge pages not written back, bytes of zsmalloc objects,
   allocated slots.
   */
  ghost predicate StatsExact(d: Dev) {
    && d.hugePages == Sum(d.table, HugeOf)
    && d.comprSize == Sum(d.table, SizeOf)
    && d.stored == Sum(d.table, StoredOf)
  }

  lemma StatsNonNegative(d: Dev)
    requires StatsExact(d)
    ensures d.hugePages >= 0 && d.comprSize >= 0 && d.stored >= 0
  {
    SumNonNegative(d.table, HugeOf);
    SumNonNegative(d.table, SizeOf);
    SumNonNegative(d.table, StoredOf);
  }

  ghost predicate SlotsOk(d: Dev) {
    forall i :: 0 <= i < |d.table| ==> SlotOk(d.table[i])
  }

  function Put(d: Dev, i: nat, x: Slot): Dev
    requires i < |d.table|
  {
    d.(table := d.table[i := x])
  }

  /** One slot changed, and the counters by exactly what that changed. */
  lemma StatsAfterPut(d: Dev, r: Dev, i: nat, x: Slot)
    requires StatsExact(d) && i < |d.table| && r.table == d.table[i := x]
    requires r.hugePages == d.hugePages - HugeOf(d.table[i]) + HugeOf(x)
    requires r.comprSize == d.comprSize - SizeOf(d.table[i]) + SizeOf(x)
    requires r.stored == d.stored - StoredOf(d.table[i]) + StoredOf(x)
    ensures StatsExact(r)
  {
    SumUpdate(d.table, i, x, HugeOf);
    SumUpdate(d.table, i, x, SizeOf);
    SumUpdate(d.table, i, x, StoredOf);
  }

  /** zram_free_page(): UNDER_WB survives; a written-back slot gives its block back instead of an object. */
  function FreePage(d: Dev, i: nat): Dev
    requires i < |d.table|
  {
    var x := d.table[i];
    var y := x.(idle := false, huge := false, incompressible := false, prio := 0);
    var h := d.hugePages - (if x.huge && !x.wb then 1 else 0);
    if x.wb then
      Put(d, i, y.(wb := false, size := 0, element := 0)).(
        hugePages := h, busy := d.busy - {x.element}, stored := d.stored - 1)
    else if x.same then
      Put(d, i, y.(same := false, size := 0, element := 0)).(hugePages := h, stored := d.stored - 1)
    else if x.size == 0 then
      Put(d, i, y).(hugePages := h)
    else
      Put(d, i, y.(size := 0, element := 0)).(
        hugePages := h, comprSize := d.comprSize - x.size, stored := d.stored - 1)
  }

  /** What zram_write_page() found: one repeated word, or a compressed object. */
  datatype Content = Same | Object(size: nat)

  /** The tail of zram_write_page(), under the slot lock. */
  function Store(d: Dev, i: nat, c: Content): Dev
    requires i < |d.table|
  {
    var e := FreePage(d, i);
    var x := e.table[i].(gen := e.table[i].gen + 1);
    match c
    case Same => Put(e, i, x.(same := true)).(stored := e.stored + 1)
    case Object(size) =>
      var huge := size == PAGE_SIZE;
      Put(e, i, x.(size := size, huge := huge)).(
        hugePages := e.hugePages + (if huge then 1 else 0),
        comprSize := e.comprSize + size, stored := e.stored + 1)
  }

  /** The tail of zram_recompress(): the same contents under a smaller object. */
  function Recompress(d: Dev, i: nat, size: nat, prio: nat): Dev
    requires i < |d.table|
  {
    var e := FreePage(d, i);
    Put(e, i, e.table[i].(size := size, prio := prio)).(comprSize := e.comprSize + size, stored := e.stored + 1)
  }

  /** Completion of a good write: the object goes, its metadata stays, the block takes over. */
  function WriteBack(d: Dev, i: nat, blk: nat): Dev
    requires i < |d.table|
  {
    var x := d.table[i];
    Put(d, i, x.(idle := false, underWb := false, wb := true, element := blk)).(
      hugePages := d.hugePages - (if x.huge then 1 else 0),
      comprSize := d.comprSize - x.size)
  }

  /** A freed slot holds nothing and means nothing any more; who marked it for writeback still has it. */
  lemma FreedSlot(d: Dev, i: nat)
    requires i < |d.table| && SlotOk(d.table[i])
    ensures
      var (r, x) := (FreePage(d, i), d.table[i]);
      && r.table == d.table[i := Slot(0, false, false, false, false, x.underWb, false, 0, 0, x.gen)]
      && r.busy == (if x.wb then d.busy - {x.element} else d.busy) && r.media == d.media
  {
  }

  /** A stored slot holds the new contents, whatever it held before. */
  lemma StoredSlot(d: Dev, i: nat, c: Content)
    requires i < |d.table| && SlotOk(d.table[i])
    ensures
      var (r, x) := (Store(d, i, c), d.table[i]);
      var huge := c.Object? && c.size == PAGE_SIZE;
      && r.table == d.table[i :=
           Slot(if c.Object? then c.size else 0, c.Same?, huge, false, false, x.underWb, false, 0, 0, x.gen + 1)]
      && r.busy == (if x.wb then d.busy - {x.element} else d.busy) && r.media == d.media
  {
    FreedSlot(d, i);
  }

  lemma FreePageKeepsStats(d: Dev, i: nat)
    requires StatsExact(d) && SlotsOk(d) && i < |d.table|
    ensures StatsExact(FreePage(d, i)) && SlotsOk(FreePage(d, i))
    ensures !Allocated(FreePage(d, i).table[i]) && !FreePage(d, i).table[i].idle
  {
    StatsAfterPut(d, FreePage(d, i), i, FreePage(d, i).table[i]);
  }

  lemma StoreKeepsStats(d: Dev, i: nat, c: Content)
    requires StatsExact(d) && SlotsOk(d) && i < |d.table| && (c.Object? ==> c.size > 0)
    ensures StatsExact(Store(d, i, c)) && SlotsOk(Store(d, i, c))
  {
    FreePageKeepsStats(d, i);
    StatsAfterPut(FreePage(d, i), Store(d, i, c), i, Store(d, i, c).table[i]);
  }

  lemma RecompressKeepsStats(d: Dev, i: nat, size: nat, prio: nat)
    requires StatsExact(d) && SlotsOk(d) && i < |d.table| && HasHandle(d.table[i]) && size > 0
    ensures StatsExact(Recompress(d, i, size, prio)) && SlotsOk(Recompress(d, i, size, prio))
  {
    FreePageKeepsStats(d, i);
    var r := Recompress(d, i, size, prio);
    StatsAfterPut(FreePage(d, i), r, i, r.table[i]);
  }

  lemma WriteBackKeepsStats(d: Dev, i: nat, blk: nat)
    requires StatsExact(d) && SlotsOk(d) && i < |d.table| && HasHandle(d.table[i])
    ensures StatsExact(WriteBack(d, i, blk)) && SlotsOk(WriteBack(d, i, blk))
  {
    StatsAfterPut(d, WriteBack(d, i, blk), i, WriteBack(d, i, blk).table[i]);
  }

  /** Flag changes that the counters do not look at. */
  lemma FlagsKeepStats(d: Dev, i: nat, idle: bool, underWb: bool)
    requires StatsExact(d) && SlotsOk(d) && i < |d.table|
    ensures
      var r := Put(d, i, d.table[i].(idle := idle, underWb := underWb));
      StatsExact(r) && SlotsOk(r)
  {
    var x := d.table[i].(idle := idle, underWb := underWb);
    StatsAfterPut(d, Put(d, i, x), i, x);
  }

  /**
   A slot that is stored, written back and finally released leaves every counter where it
   was, huge or not: its huge page is not taken off twice.
   */
  lemma StoreWriteBackFreeIsNeutral(d: Dev, i: nat, size: nat, blk: nat)
    requires SlotsOk(d) && i < |d.table| && !Allocated(d.table[i]) && size > 0
    ensures
      var r := FreePage(WriteBack(Store(d, i, Object(size)), i, blk), i);
      && r.hugePages == d.hugePages && r.comprSize == d.comprSize && r.stored == d.stored
      && r.busy == d.busy - {blk} && !Allocated(r.table[i])
  {
  }
}
