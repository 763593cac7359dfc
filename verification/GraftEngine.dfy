/** The graft context, transactional application of a step list, and one child run over its groups. */
module GraftEngine {
  import opened Wrappers
  import opened GraftText

  type File = string
  type Text = string

  /** One step: (file, old block, new block, required). */
  datatype Edit = Edit(file: File, old_: Text, new_: Text, required: bool)

  /** The tree, its .abk-orig snapshots, and the context's cache and set of written files. */
  datatype Ctx = Ctx(
    disk: map<File, Text>, snapshots: map<File, Text>, texts: map<File, Text>, dirty: set<File>, dryRun: bool)

  /** What read() answers; None is FileNotFoundError. */
  function Look(c: Ctx, f: File): Option<Text> {
    if f in c.texts then Some(c.texts[f]) else if f in c.disk then Some(c.disk[f]) else None
  }

  /** read(): the text is kept. */
  function Read(c: Ctx, f: File): Ctx {
    if Look(c, f).Some? then c.(texts := c.texts[f := Look(c, f).value]) else c
  }

  /** write_text(): the first write of a file leaves a snapshot. */
  function Save(c: Ctx, f: File, text: Text): Ctx
    requires f in c.disk
  {
    c.(disk := c.disk[f := text],
       snapshots := if f in c.snapshots then c.snapshots else c.snapshots[f := c.disk[f]])
  }

  /** A real write of a file that is not in the tree raises; a dry one does not look. */
  predicate Raises(c: Ctx, f: File) { !c.dryRun && f !in c.disk }

  /** write(): the cache is set first, so it keeps the text even when the write then raises. */
  function Write(c: Ctx, f: File, text: Text): Ctx {
    var r := c.(texts := c.texts[f := text]);
    if Raises(c, f) then r
    else if c.dryRun then r.(dirty := r.dirty + {f})
    else Save(r, f, text).(dirty := r.dirty + {f})
  }

  // ---- apply_steps ----

  /** The state of the first loop; order is the insertion order of pending. */
  datatype Scan = Scan(
    ctx: Ctx, pending: map<File, Text>, order: seq<File>, results: seq<Status>, failed: bool)

  /** The result q of one replacement goes into the pending texts, unless there was no anchor. */
  function Record(s: Scan, c: Ctx, e: Edit, q: Replaced): Scan {
    var results := s.results + [q.status];
    if q.status == MissingAnchor then Scan(c, s.pending, s.order, results, e.required)
    else Scan(c, s.pending[e.file := q.text],
              if e.file in s.pending then s.order else s.order + [e.file], results, false)
  }

  /** One turn of the first loop. */
  function ScanOne(s: Scan, e: Edit): Scan {
    var c := Read(s.ctx, e.file);
    if Look(c, e.file).None? then
      Scan(c, s.pending, s.order, if e.required then s.results else s.results + [MissingAnchor], e.required)
    else
      var text := if e.file in s.pending then s.pending[e.file] else Look(c, e.file).value;
      Record(s, c, e, ReplaceOnce(text, e.old_, e.new_))
  }

  /** The first loop over a list of steps; it returns at the first required miss. */
  function ScanAll(c: Ctx, edits: seq<Edit>): Scan {
    if edits == [] then Scan(c, map[], [], [], false)
    else
      var s := ScanAll(c, edits[..|edits| - 1]);
      if s.failed then s else ScanOne(s, edits[|edits| - 1])
  }

  /** A context after writes, the last of which may have raised. */
  datatype Written = Written(ctx: Ctx, raised: bool)

  function WriteIfChanged(c: Ctx, f: File, text: Text): Written {
    if Look(c, f) != Some(text) then Written(Write(c, f, text), Raises(c, f)) else Written(Read(c, f), false)
  }

  /** The second loop: what changed is written, until a write raises. */
  function WriteBack(c: Ctx, order: seq<File>, pending: map<File, Text>): Written
    requires forall f :: f in order ==> f in pending
  {
    if order == [] then Written(c, false)
    else
      var m := WriteBack(c, order[..|order| - 1], pending);
      if m.raised then m else WriteIfChanged(m.ctx, order[|order| - 1], pending[order[|order| - 1]])
  }

  datatype GroupStatus =
    | GApplied | GPartial | GAlreadyPresent
    | GBlockedByMissingAnchor | GBlockedByShape | GReportOnly | GSkipSuiteProcessed

  function Count(results: seq<Status>, x: Status): nat {
    if results == [] then 0 else Count(results[..|results| - 1], x) + if results[|results| - 1] == x then 1 else 0
  }

  function StatusOf(results: seq<Status>): GroupStatus {
    var applied, present := Count(results, Applied), Count(results, AlreadyPresent);
    if applied == 0 && present == 0 then GBlockedByMissingAnchor
    else if applied == 0 && present == |results| then GAlreadyPresent
    else if MissingAnchor in results then GPartial
    else GApplied
  }

  /** How a call on the context ends; Missed is apply_steps() answering None. */
  datatype Ending = Returned(status: GroupStatus) | Missed | Failed | NoSuchFile

  datatype Outcome = Outcome(ctx: Ctx, ending: Ending)

  /** apply_steps() */
  function ApplySteps(c: Ctx, edits: seq<Edit>): (o: Outcome) {
    ScanFrame(c, edits);
    var s := ScanAll(c, edits);
    if s.failed then Outcome(s.ctx, Missed)
    else
      var w := WriteBack(s.ctx, s.order, s.pending);
      Outcome(w.ctx, if w.raised then NoSuchFile else Returned(StatusOf(s.results)))
  }

  // ---- the context is what it seems ----

  /** before is the tree as it was found before the first run ever. */
  ghost predicate CtxOk(c: Ctx, before: map<File, Text>) {
    && c.dirty <= c.texts.Keys && (!c.dryRun ==> c.dirty <= c.disk.Keys)
    && (forall f :: f in c.texts && f in c.disk && (f !in c.dirty || !c.dryRun) ==> c.texts[f] == c.disk[f])
    && Restored(c) == before
  }

  /** No text is kept of a file that is not in the tree. */
  ghost predicate Clean(c: Ctx) { c.texts.Keys <= c.disk.Keys }

  /** The tree after every snapshot has been copied back. */
  function Restored(c: Ctx): map<File, Text> {
    map f | f in c.disk :: if f in c.snapshots then c.snapshots[f] else c.disk[f]
  }

  lemma ReadKeepsOk(c: Ctx, f: File, before: map<File, Text>)
    requires CtxOk(c, before)
    ensures CtxOk(Read(c, f), before) && (Clean(c) ==> Clean(Read(c, f)))
    ensures forall g :: Look(Read(c, f), g) == Look(c, g)
  {
  }

  lemma WriteKeepsOk(c: Ctx, f: File, text: Text, before: map<File, Text>)
    requires CtxOk(c, before)
    ensures CtxOk(Write(c, f, text), before) && (f in c.disk && Clean(c) ==> Clean(Write(c, f, text)))
    ensures forall g :: Look(Write(c, f, text), g) == if g == f then Some(text) else Look(c, g)
  {
    assert Restored(Write(c, f, text)) == Restored(c);
  }

  ghost predicate Framed(c: Ctx, s: Scan) {
    && s.ctx == c.(texts := s.ctx.texts) && c.texts.Keys <= s.ctx.texts.Keys <= c.texts.Keys + c.disk.Keys
    && (forall f :: Look(s.ctx, f) == Look(c, f))
    && (forall f :: f in s.order <==> f in s.pending) && s.pending.Keys <= s.ctx.texts.Keys
  }

  lemma ScanOneFrame(c: Ctx, s: Scan, e: Edit)
    requires Framed(c, s)
    ensures Framed(c, ScanOne(s, e))
  {
    var r := Read(s.ctx, e.file);
    assert Look(s.ctx, e.file) == Look(c, e.file);
    assert r == c.(texts := r.texts) && forall f :: Look(r, f) == Look(c, f);
  }

  /** The first loop only reads, and only files that can be read become pending. */
  lemma {:induction false} ScanFrame(c: Ctx, edits: seq<Edit>)
    ensures Framed(c, ScanAll(c, edits))
  {
    if edits != [] {
      ScanFrame(c, edits[..|edits| - 1]);
      ScanOneFrame(c, ScanAll(c, edits[..|edits| - 1]), edits[|edits| - 1]);
    }
  }

  // ---- the left fold the steps stand for ----

  /** Everything read() would answer. */
  function Texts(c: Ctx): (v: map<File, Text>)
    ensures forall f :: Look(c, f) == if f in v then Some(v[f]) else None
  {
    map f | f in c.disk.Keys + c.texts.Keys :: if f in c.texts then c.texts[f] else c.disk[f]
  }

  /** All steps applied in order, a step without anchor or file doing nothing. */
  function Fold(v: map<File, Text>, edits: seq<Edit>): (r: map<File, Text>)
    ensures r.Keys == v.Keys
  {
    if edits == [] then v
    else
      var m, e := Fold(v, edits[..|edits| - 1]), edits[|edits| - 1];
      if e.file in m then m[e.file := ReplaceOnce(m[e.file], e.old_, e.new_).text] else m
  }

  function StatusAt(v: map<File, Text>, edits: seq<Edit>, k: nat): Status
    requires k < |edits|
  {
    var e := edits[k];
    if e.file in v then ReplaceOnce(Fold(v, edits[..k])[e.file], e.old_, e.new_).status else MissingAnchor
  }

  /** Some required step finds neither its anchor nor its result. */
  ghost predicate Misses(v: map<File, Text>, edits: seq<Edit>) {
    exists k :: 0 <= k < |edits| && edits[k].required && StatusAt(v, edits, k) == MissingAnchor
  }

  lemma StatusAtPrefix(v: map<File, Text>, edits: seq<Edit>, k: nat)
    requires k + 1 < |edits|
    ensures StatusAt(v, edits[..|edits| - 1], k) == StatusAt(v, edits, k)
  {
    assert edits[..|edits| - 1][..k] == edits[..k];
  }

  lemma MissesPrefix(v: map<File, Text>, edits: seq<Edit>)
    requires edits != []
    ensures
      var k := |edits| - 1;
      Misses(v, edits) <==> Misses(v, edits[..k]) || (edits[k].required && StatusAt(v, edits, k) == MissingAnchor)
  {
    forall k: nat | k + 1 < |edits| ensures StatusAt(v, edits[..|edits| - 1], k) == StatusAt(v, edits, k) {
      StatusAtPrefix(v, edits, k);
    }
    if Misses(v, edits[..|edits| - 1]) {
      var k :| 0 <= k < |edits| - 1 && edits[k].required && StatusAt(v, edits[..|edits| - 1], k) == MissingAnchor;
      assert StatusAt(v, edits, k) == MissingAnchor;
    }
  }

  /** s has the fold m of v pending. */
  ghost predicate Pends(s: Scan, v: map<File, Text>, m: map<File, Text>) {
    && m.Keys == v.Keys
    && (forall f :: Look(s.ctx, f) == if f in v then Some(v[f]) else None)
    && (forall f :: f in v ==> m[f] == if f in s.pending then s.pending[f] else v[f])
  }

  ghost predicate ResultsAre(results: seq<Status>, v: map<File, Text>, edits: seq<Edit>) {
    |results| == |edits| && forall k :: 0 <= k < |edits| ==> results[k] == StatusAt(v, edits, k)
  }

  /** The pending texts are the fold so far, the results its statuses. */
  ghost predicate ScanIsFold(c: Ctx, edits: seq<Edit>) {
    var s := ScanAll(c, edits);
    Pends(s, Texts(c), Fold(Texts(c), edits)) && ResultsAre(s.results, Texts(c), edits)
  }

  lemma {:induction false} ScanFolds(c: Ctx, edits: seq<Edit>)
    ensures ScanAll(c, edits).failed <==> Misses(Texts(c), edits)
    ensures !Misses(Texts(c), edits) ==> ScanIsFold(c, edits)
  {
    if edits != [] {
      var k := |edits| - 1;
      ScanFolds(c, edits[..k]);
      MissesPrefix(Texts(c), edits);
      if !ScanAll(c, edits[..k]).failed {
        LastStep(c, edits);
      }
    }
  }

  lemma RecordFolds(s: Scan, c: Ctx, e: Edit, q: Replaced, v: map<File, Text>, m: map<File, Text>)
    requires Pends(s, v, m) && c == Read(s.ctx, e.file) && e.file in m
    requires q.status == MissingAnchor ==> q.text == m[e.file]
    ensures
      var r := Record(s, c, e, q);
      && (r.failed <==> e.required && q.status == MissingAnchor)
      && r.results == s.results + [q.status] && Pends(r, v, m[e.file := q.text])
  {
    assert forall f :: Look(c, f) == Look(s.ctx, f);
  }

  lemma ScanOneFolds(s: Scan, e: Edit, v: map<File, Text>, m: map<File, Text>)
    requires Pends(s, v, m)
    ensures
      var r := ScanOne(s, e);
      var q := if e.file in m then ReplaceOnce(m[e.file], e.old_, e.new_) else Replaced("", MissingAnchor);
      && (r.failed <==> e.required && q.status == MissingAnchor)
      && (!r.failed ==> r.results == s.results + [q.status])
      && Pends(r, v, if e.file in m then m[e.file := q.text] else m)
  {
    assert Look(s.ctx, e.file) == if e.file in v then Some(v[e.file]) else None;
    if e.file in m {
      var q := ReplaceOnce(m[e.file], e.old_, e.new_);
      RecordFolds(s, Read(s.ctx, e.file), e, q, v, m);
    }
  }

  lemma OneMoreResult(results: seq<Status>, v: map<File, Text>, edits: seq<Edit>)
    requires edits != [] && ResultsAre(results, v, edits[..|edits| - 1])
    ensures ResultsAre(results + [StatusAt(v, edits, |edits| - 1)], v, edits)
  {
    forall j: nat | j < |edits| - 1 ensures StatusAt(v, edits[..|edits| - 1], j) == StatusAt(v, edits, j) {
      StatusAtPrefix(v, edits, j);
    }
  }

  lemma LastStep(c: Ctx, edits: seq<Edit>)
    requires edits != []
    requires !ScanAll(c, edits[..|edits| - 1]).failed && ScanIsFold(c, edits[..|edits| - 1])
    ensures
      var k := |edits| - 1;
      && (ScanAll(c, edits).failed <==> edits[k].required && StatusAt(Texts(c), edits, k) == MissingAnchor)
      && (!ScanAll(c, edits).failed ==> ScanIsFold(c, edits))
  {
    var k := |edits| - 1;
    var s := ScanAll(c, edits[..k]);
    ScanOneFolds(s, edits[k], Texts(c), Fold(Texts(c), edits[..k]));
    OneMoreResult(s.results, Texts(c), edits);
  }
}
