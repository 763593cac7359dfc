/** The launch page-cache recorder: an LRU table of files with a page bitmap each, and its replay. */
module LaunchCache {
  import opened Wrappers

  const ABK_LP_SLOTS: nat := 4096
  const ABK_LP_PAGES: nat := 4096

  /** A file as the recorder tells it from others: device, inode, modification time. */
  datatype Key = Key(dev: nat, ino: nat, mtime: int)

  datatype Rec = Rec(used: bool, key: Key, uid: nat, touch: nat, pages: set<nat>)

  /** One call of abk_lp_touch() at time now. */
  datatype Req = Req(key: Key, uid: nat, first: nat, last: nat, now: nat)

  datatype Range = Range(first: nat, last: nat)

  predicate InRange(r: Range, p: nat) { r.first <= p <= r.last }

  /** The part of a request that fits a record. */
  function Clamped(q: Req): (r: Option<Range>)
    ensures r.Some? ==> r.value.first <= r.value.last < ABK_LP_PAGES
  {
    if q.first >= ABK_LP_PAGES then None
    else
      var last := if q.last >= ABK_LP_PAGES then ABK_LP_PAGES - 1 else q.last;
      if last < q.first then None else Some(Range(q.first, last))
  }

  datatype Choice = Ignore | Hit(slot: nat) | Claim(slot: nat)

  predicate Holds(r: Rec, key: Key) { r.used && r.key == key }

  /** v is where a new record goes: the first free slot, or else the least recently touched one. */
  ghost predicate IsVictim(t: seq<Rec>, v: nat) {
    && v < |t|
    && if !t[v].used then forall i :: 0 <= i < v ==> t[i].used
       else
         && (forall i :: 0 <= i < |t| ==> t[i].used && t[v].touch <= t[i].touch)
         && (forall i :: 0 <= i < v ==> t[v].touch < t[i].touch)
  }

  ghost predicate Known(t: seq<Rec>, key: Key) { exists i :: 0 <= i < |t| && Holds(t[i], key) }

  ghost predicate KnownTo(t: seq<Rec>, key: Key, uid: nat) {
    exists i :: 0 <= i < |t| && Holds(t[i], key) && t[i].uid == uid
  }

  /** What a request leads to: its own record, nothing for a file another uid recorded, or a new one. */
  ghost predicate Chosen(t: seq<Rec>, q: Req, c: Choice) {
    if Clamped(q).None? then c == Ignore
    else if KnownTo(t, q.key, q.uid) then
      c.Hit? && c.slot < |t| && Holds(t[c.slot], q.key) && t[c.slot].uid == q.uid
    else if Known(t, q.key) then c == Ignore
    else c.Claim? && IsVictim(t, c.slot)
  }

  function PagesOf(r: Range): (s: set<nat>)
    ensures forall p :: p in s <==> InRange(r, p)
  {
    set p | 0 <= p <= r.last && InRange(r, p)
  }

  /** abk_lp_touch() once the slot is known. */
  function Effect(t: seq<Rec>, q: Req, c: Choice): (r: seq<Rec>)
    requires !c.Ignore? ==> c.slot < |t| && Clamped(q).Some?
    ensures |r| == |t|
  {
    match c
    case Ignore => t
    case Hit(i) => t[i := t[i].(touch := q.now, pages := t[i].pages + PagesOf(Clamped(q).value))]
    case Claim(i) => t[i := Rec(true, q.key, q.uid, q.now, PagesOf(Clamped(q).value))]
  }

  // ---- what every history of requests keeps ----

  ghost predicate Distinct(t: seq<Rec>) {
    forall i, j :: 0 <= i < j < |t| && t[i].used && t[j].used ==> t[i].key != t[j].key
  }

  datatype Event = Event(q: Req, c: Choice)

  ghost predicate IsRun(run: seq<seq<Rec>>, evs: seq<Event>) {
    && |run| == |evs| + 1
    && (forall i :: 0 <= i < |run[0]| ==> !run[0][i].used)
    && (forall k :: 0 <= k < |evs| ==>
          Chosen(run[k], evs[k].q, evs[k].c) && run[k + 1] == Effect(run[k], evs[k].q, evs[k].c))
  }

  /** The touches slot i has accepted since it was last claimed, oldest first. */
  function Accepted(evs: seq<Event>, i: nat): seq<Event> {
    if evs == [] then []
    else
      var rest, ev := evs[..|evs| - 1], evs[|evs| - 1];
      if ev.c == Hit(i) then Accepted(rest, i) + [ev]
      else if ev.c == Claim(i) then [ev]
      else Accepted(rest, i)
  }

  /** Some of the touches asked for page p. */
  ghost predicate AskedFor(a: seq<Event>, p: nat) {
    exists k :: 0 <= k < |a| && a[k].q.first <= p <= a[k].q.last
  }

  /** The record in slot i says what the requests it accepted amount to. */
  ghost predicate RecordOf(r: Rec, a: seq<Event>) {
    && a != [] && r.touch == a[|a| - 1].q.now
    && (forall k :: 0 <= k < |a| ==> a[k].q.key == r.key && a[k].q.uid == r.uid)
    && (forall p: nat :: p in r.pages <==> p < ABK_LP_PAGES && AskedFor(a, p))
  }

  lemma AskedForSnoc(a: seq<Event>, ev: Event, p: nat)
    ensures AskedFor(a + [ev], p) <==> AskedFor(a, p) || ev.q.first <= p <= ev.q.last
  {
    var b := a + [ev];
    assert b[|a|] == ev;
    if AskedFor(a, p) {
      var k :| 0 <= k < |a| && a[k].q.first <= p <= a[k].q.last;
      assert b[k] == a[k];
    }
  }

  /** A request loses the pages a record has no room for, and nothing else. */
  lemma ClampedIs(q: Req)
    ensures Clamped(q).None? <==> q.first >= ABK_LP_PAGES || q.last < q.first
    ensures Clamped(q).Some? ==>
      forall p :: p in PagesOf(Clamped(q).value) <==> q.first <= p <= q.last && p < ABK_LP_PAGES
  {
  }

  lemma RecordAfter(t: seq<Rec>, ev: Event, i: nat, a: seq<Event>)
    requires Chosen(t, ev.q, ev.c) && i < |t| && (t[i].used ==> RecordOf(t[i], a))
    ensures
      var r := Effect(t, ev.q, ev.c)[i];
      var b := if ev.c == Hit(i) then a + [ev] else if ev.c == Claim(i) then [ev] else a;
      r.used ==> RecordOf(r, b)
  {
    assert [] + [ev] == [ev];
    if Clamped(ev.q).Some? {
      forall p: nat
        ensures AskedFor(a + [ev], p) <==> AskedFor(a, p) || ev.q.first <= p <= ev.q.last
        ensures AskedFor([ev], p) <==> ev.q.first <= p <= ev.q.last
      {
        AskedForSnoc(a, ev, p);
        AskedForSnoc([], ev, p);
      }
      ClampedIs(ev.q);
    }
  }

  lemma {:induction false} RecordsAreOf(run: seq<seq<Rec>>, evs: seq<Event>, i: nat)
    requires IsRun(run, evs) && i < |run[0]|
    ensures |run[|evs|]| == |run[0]|
    ensures run[|evs|][i].used ==> RecordOf(run[|evs|][i], Accepted(evs, i))
  {
    if evs != [] {
      var k := |evs| - 1;
      assert IsRun(run[..k + 1], evs[..k]);
      RecordsAreOf(run[..k + 1], evs[..k], i);
      RecordAfter(run[k], evs[k], i, Accepted(evs[..k], i));
    }
  }

  lemma DistinctAfter(t: seq<Rec>, ev: Event)
    requires Distinct(t) && Chosen(t, ev.q, ev.c)
    ensures Distinct(Effect(t, ev.q, ev.c))
  {
  }

  lemma {:induction false} RunKeepsDistinct(run: seq<seq<Rec>>, evs: seq<Event>, k: nat)
    requires IsRun(run, evs) && k <= |evs|
    ensures Distinct(run[k])
  {
    if k > 0 {
      RunKeepsDistinct(run, evs, k - 1);
      DistinctAfter(run[k - 1], evs[k - 1]);
    }
  }

  /**
   For any sequence of touches from an empty table: no two records share device, inode and
   modification time, and each record's bitmap holds just the pages that fit a record and that a
   touch accepted since its claim asked for, its stamp the time of the last of them.
   */
  lemma RunKeepsRecords(run: seq<seq<Rec>>, evs: seq<Event>, i: nat)
    requires IsRun(run, evs) && i < |run[0]|
    ensures |run[|evs|]| == |run[0]| && Distinct(run[|evs|])
    ensures
      var (r, a) := (run[|evs|][i], Accepted(evs, i));
      r.used ==>
        && a != [] && r.touch == a[|a| - 1].q.now
        && (forall k :: 0 <= k < |a| ==> a[k].q.key == r.key && a[k].q.uid == r.uid)
        && (forall p: nat :: p in r.pages <==>
              p < ABK_LP_PAGES && exists k :: 0 <= k < |a| && a[k].q.first <= p <= a[k].q.last)
  {
    RecordsAreOf(run, evs, i);
    RunKeepsDistinct(run, evs, |evs|);
    assert forall p: nat :: AskedFor(Accepted(evs, i), p) <==>
      exists k :: 0 <= k < |Accepted(evs, i)| && Accepted(evs, i)[k].q.first <= p <= Accepted(evs, i)[k].q.last;
  }

  /**
   What the recorder does with a request, at any point of a run: it drops one that has no page for
   a record or is for a file that another uid recorded, adds to the uid's own record of the file,
   and takes a slot that is free or longest untouched for a file nobody recorded.
   */
  lemma RequestMeets(run: seq<seq<Rec>>, evs: seq<Event>, k: nat)
    requires IsRun(run, evs) && k < |evs|
    ensures
      var t, q, c := run[k], evs[k].q, evs[k].c;
      var fits := q.first < ABK_LP_PAGES && q.first <= q.last;
      && (c.Ignore? <==> !fits || exists i :: 0 <= i < |t| && t[i].used && t[i].key == q.key && t[i].uid != q.uid)
      && (c.Hit? <==> fits && exists i :: 0 <= i < |t| && t[i].used && t[i].key == q.key && t[i].uid == q.uid)
      && (c.Hit? ==> c.slot < |t| && t[c.slot].used && t[c.slot].key == q.key && t[c.slot].uid == q.uid)
      && (c.Claim? ==>
            && c.slot < |t| && (forall i :: 0 <= i < |t| && t[i].used ==> t[i].key != q.key)
            && (t[c.slot].used ==> forall i :: 0 <= i < |t| ==> t[i].used && t[c.slot].touch <= t[i].touch))
  {
    RunKeepsDistinct(run, evs, k);
    ClampedIs(evs[k].q);
    if Clamped(evs[k].q).Some? {
      ChoiceIs(run[k], evs[k].q, evs[k].c);
    }
  }

  lemma ChoiceIs(t: seq<Rec>, q: Req, c: Choice)
    requires Distinct(t) && Chosen(t, q, c) && Clamped(q).Some?
    ensures c.Ignore? <==> exists i :: 0 <= i < |t| && t[i].used && t[i].key == q.key && t[i].uid != q.uid
    ensures c.Hit? <==> exists i :: 0 <= i < |t| && t[i].used && t[i].key == q.key && t[i].uid == q.uid
    ensures c.Claim? ==> c.slot < |t| && forall i :: 0 <= i < |t| && t[i].used ==> t[i].key != q.key
  {
    if i :| 0 <= i < |t| && t[i].used && t[i].key == q.key {
      assert Holds(t[i], q.key);
    }
  }

  // ---- replay ----

  /** The set bits from i on of a bitmap of that many pages, ascending. */
  function SetBits(bits: set<nat>, pages: nat, i: nat): (r: seq<nat>)
    ensures i >= pages ==> r == []
    decreases if i < pages then pages - i else 0
  {
    if i >= pages then [] else (if i in bits then [i] else []) + SetBits(bits, pages, i + 1)
  }

  lemma {:induction false} SetBitsAre(bits: set<nat>, pages: nat, i: nat)
    ensures
      var r := SetBits(bits, pages, i);
      && (forall p :: p in r <==> i <= p < pages && p in bits)
      && (forall j, k :: 0 <= j < k < |r| ==> r[j] < r[k])
    decreases if i < pages then pages - i else 0
  {
    if i < pages {
      SetBitsAre(bits, pages, i + 1);
      var rest := SetBits(bits, pages, i + 1);
      forall k | 0 <= k < |rest| ensures i < rest[k] {
        assert rest[k] in rest;
      }
    }
  }

  /** first, first + 1, ..., count of them */
  function Span(first: nat, count: nat): (r: seq<nat>)
    ensures |r| == count
  {
    seq(count, k requires 0 <= k < count => first + k)
  }

  lemma {:induction false} SetBitsOfRun(bits: set<nat>, pages: nat, i: nat, run: nat)
    requires i + run <= pages && forall k :: i <= k < i + run ==> k in bits
    ensures SetBits(bits, pages, i) == Span(i, run) + SetBits(bits, pages, i + run)
    decreases run
  {
    if run > 0 {
      SetBitsOfRun(bits, pages, i + 1, run - 1);
      assert Span(i, run) == [i] + Span(i + 1, run - 1);
    }
  }

  class Recorder {
    const table: array<Rec>

    constructor ()
      ensures fresh(table) && table.Length == ABK_LP_SLOTS
      ensures forall i :: 0 <= i < table.Length ==> !table[i].used
    {
      table := new Rec[ABK_LP_SLOTS](_ => Rec(false, Key(0, 0, 0), 0, 0, {}));
    }

    /** The first record of a file, of this uid or of any. */
    method Find(key: Key, uid: Option<nat>) returns (r: Option<nat>)
      ensures r.Some? ==>
        r.value < table.Length && Holds(table[r.value], key) && (uid.Some? ==> table[r.value].uid == uid.value)
      ensures r.None? ==> if uid.Some? then !KnownTo(table[..], key, uid.value) else !Known(table[..], key)
    {
      for i := 0 to table.Length
        invariant forall k :: 0 <= k < i ==>
          !(Holds(table[k], key) && (uid.Some? ==> table[k].uid == uid.value))
      {
        if table[i].used && table[i].key == key && (uid.None? || table[i].uid == uid.value) {
          return Some(i);
        }
      }
      return None;
    }

    /** The slot for a new record. */
    method Victim() returns (v: nat)
      requires table.Length > 0
      ensures IsVictim(table[..], v)
    {
      v := 0;
      if !table[0].used {
        return;
      }
      for i := 1 to table.Length
        invariant 0 <= v < i
        invariant forall k :: 0 <= k < i ==> table[k].used && table[v].touch <= table[k].touch
        invariant forall k :: 0 <= k < v ==> table[v].touch < table[k].touch
      {
        if !table[i].used {
          return i;
        }
        if table[i].touch < table[v].touch {
          v := i;
        }
      }
    }

    /** abk_lp_touch() */
    method Touch(q: Req) returns (ghost c: Choice)
      requires table.Length > 0
      modifies table
      ensures Chosen(old(table[..]), q, c) && table[..] == Effect(old(table[..]), q, c)
      ensures c == Ignore <==>
        || q.first >= ABK_LP_PAGES || q.last < q.first
        || (Known(old(table[..]), q.key) && !KnownTo(old(table[..]), q.key, q.uid))
      ensures c.Hit? ==>
        && c.slot < table.Length && table[c.slot].touch == q.now
        && (forall p :: p in table[c.slot].pages <==>
              p in old(table[..])[c.slot].pages || (q.first <= p <= q.last && p < ABK_LP_PAGES))
      ensures c.Claim? ==>
        && c.slot < table.Length && Holds(table[c.slot], q.key) && table[c.slot].uid == q.uid
        && table[c.slot].touch == q.now
        && (forall p :: p in table[c.slot].pages <==> q.first <= p <= q.last && p < ABK_LP_PAGES)
    {
      ClampedIs(q);
      if q.first >= ABK_LP_PAGES {
        return Ignore;
      }
      var last := if q.last >= ABK_LP_PAGES then ABK_LP_PAGES - 1 else q.last;
      if last < q.first {
        return Ignore;
      }
      ghost var t := table[..];
      var slot;
      var own := Find(q.key, Some(q.uid));
      if own.Some? {
        slot, c := own.value, Hit(own.value);
        assert t[slot] == table[slot] && KnownTo(t, q.key, q.uid);
      } else {
        var other := Find(q.key, None);
        if other.Some? {
          assert t[other.value] == table[other.value];
          return Ignore;
        }
        slot := Victim();
        c := Claim(slot);
        table[slot] := Rec(true, q.key, q.uid, q.now, {});
      }
      table[slot] := table[slot].(touch := q.now, pages := table[slot].pages + PagesOf(Range(q.first, last)));
      assert {} + PagesOf(Range(q.first, last)) == PagesOf(Range(q.first, last));
      assert table[..] == t[slot := table[slot]];
    }
  }

  predicate Progress(all: seq<nat>, rest: seq<nat>, issued: seq<nat>, left: nat, budget: nat) {
    && |issued| + left == budget
    && if left > 0 then issued + rest == all else budget <= |all| && issued == all[..budget]
  }

  /** One readahead call over a run of set bits, cut to the budget. */
  lemma RunIssued(bits: set<nat>, pages: nat, i: nat, run: nat, all: seq<nat>, issued: seq<nat>, left: nat, budget: nat)
    requires i + run <= pages && forall k :: i <= k < i + run ==> k in bits
    requires left > 0 && Progress(all, SetBits(bits, pages, i), issued, left, budget)
    ensures
      var n := if run < left then run else left;
      Progress(all, SetBits(bits, pages, i + run), issued + Span(i, n), left - n, budget)
  {
    SetBitsOfRun(bits, pages, i, run);
    var n := if run < left then run else left;
    assert Span(i, n) == Span(i, run)[..n];
    assert all == issued + Span(i, run) + SetBits(bits, pages, i + run);
  }

  /**
   abk_lp_readahead_bits(): the pages asked for, over all its readahead calls, are the first set
   bits in index order, as many as the budget allows; the rest of the budget is returned.
   */
  method ReadaheadBits(bits: set<nat>, pages: nat, budget: nat) returns (issued: seq<nat>, left: nat)
    ensures
      var all := SetBits(bits, pages, 0);
      && issued == all[..if |all| < budget then |all| else budget]
      && left == budget - |issued|
  {
    issued, left := [], budget;
    ghost var all := SetBits(bits, pages, 0);
    var idx := 0;
    assert [] + all == all;
    while idx < pages && left > 0
      invariant idx <= pages
      invariant Progress(all, SetBits(bits, pages, idx), issued, left, budget)
      decreases pages - idx
    {
      if idx !in bits {
        idx := idx + 1;
        continue;
      }
      var run := 0;
      while idx + run < pages && idx + run in bits
        invariant idx + run <= pages && forall k :: idx <= k < idx + run ==> k in bits
      {
        run := run + 1;
      }
      var n := if run < left then run else left;
      RunIssued(bits, pages, idx, run, all, issued, left, budget);
      issued := issued + Span(idx, n);
      left := left - n;
      idx := idx + run;
    }
    if left > 0 {
      assert issued + [] == issued;
    }
  }
}
