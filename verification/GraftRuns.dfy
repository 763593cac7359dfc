/** What a step list promises: nothing or the whole fold, and a status that says which. */
module GraftRuns {
  import opened Wrappers
  import opened GraftText
  import opened GraftEngine

  // ---- the second loop ----

  /** What any call can do to the context, whether or not it raises. */
  ghost predicate Effect(c: Ctx, r: Ctx) {
    && c.dirty <= r.dirty && r.dryRun == c.dryRun && r.disk.Keys == c.disk.Keys
    && (forall f :: f !in r.dirty && (c.dryRun || f in c.disk) ==> Look(r, f) == Look(c, f))
    && (forall f :: f in c.disk && f !in r.dirty ==> r.disk[f] == c.disk[f])
    && (c.dryRun ==> r.disk == c.disk && r.snapshots == c.snapshots)
  }

  lemma WriteIfChangedEffect(c: Ctx, f: File, text: Text, before: map<File, Text>)
    requires CtxOk(c, before)
    ensures CtxOk(WriteIfChanged(c, f, text).ctx, before) && Effect(c, WriteIfChanged(c, f, text).ctx)
  {
    ReadKeepsOk(c, f, before);
    WriteKeepsOk(c, f, text, before);
  }

  lemma EffectsAdd(c: Ctx, m: Ctx, r: Ctx)
    requires Effect(c, m) && Effect(m, r)
    ensures Effect(c, r)
  {
  }

  lemma {:induction false} WriteBackEffect(c: Ctx, order: seq<File>, pending: map<File, Text>, before: map<File, Text>)
    requires CtxOk(c, before) && forall f :: f in order ==> f in pending
    ensures CtxOk(WriteBack(c, order, pending).ctx, before) && Effect(c, WriteBack(c, order, pending).ctx)
  {
    if order != [] {
      var rest, f := order[..|order| - 1], order[|order| - 1];
      WriteBackEffect(c, rest, pending, before);
      var m := WriteBack(c, rest, pending);
      if !m.raised {
        WriteIfChangedEffect(m.ctx, f, pending[f], before);
        EffectsAdd(c, m.ctx, WriteIfChanged(m.ctx, f, pending[f]).ctx);
      }
    }
  }

  /** A changed text is pending for a file that is not in the tree. */
  ghost predicate Stray(c: Ctx, order: seq<File>, pending: map<File, Text>)
    requires forall f :: f in order ==> f in pending
  {
    !c.dryRun && exists f :: f in order && f !in c.disk && Look(c, f) != Some(pending[f])
  }

  /** Files the second loop writes. */
  ghost function Changing(c: Ctx, order: seq<File>, pending: map<File, Text>): set<File>
    requires forall f :: f in order ==> f in pending
  {
    set f | f in order && Look(c, f) != Some(pending[f])
  }

  lemma WriteIfChangedIs(c: Ctx, f: File, text: Text, before: map<File, Text>)
    requires CtxOk(c, before)
    requires c.dryRun || f in c.disk || Look(c, f) == Some(text)
    ensures
      var r := WriteIfChanged(c, f, text);
      && !r.raised && (forall g :: Look(r.ctx, g) == if g == f then Some(text) else Look(c, g))
      && r.ctx.dirty == c.dirty + (if Look(c, f) != Some(text) then {f} else {})
  {
    ReadKeepsOk(c, f, before);
    WriteKeepsOk(c, f, text, before);
  }

  /** The files in order have got their pending texts, those that changed are dirty. */
  ghost predicate WrittenBack(c: Ctx, r: Ctx, order: seq<File>, pending: map<File, Text>)
    requires forall f :: f in order ==> f in pending
  {
    && (forall f :: Look(r, f) == if f in order then Some(pending[f]) else Look(c, f))
    && r.dirty == c.dirty + Changing(c, order, pending)
    && r.disk.Keys == c.disk.Keys && r.dryRun == c.dryRun
  }

  lemma OneMoreWritten(c: Ctx, m: Ctx, r: Ctx, order: seq<File>, f: File, pending: map<File, Text>)
    requires forall g :: g in order + [f] ==> g in pending
    requires WrittenBack(c, m, order, pending)
    requires forall g :: Look(r, g) == if g == f then Some(pending[f]) else Look(m, g)
    requires r.dirty == m.dirty + (if Look(m, f) != Some(pending[f]) then {f} else {})
    requires r.disk.Keys == c.disk.Keys && r.dryRun == c.dryRun
    ensures WrittenBack(c, r, order + [f], pending)
  {
    var more := if Look(m, f) != Some(pending[f]) then {f} else {};
    assert Changing(c, order + [f], pending) == Changing(c, order, pending) + more;
  }

  /** The second loop writes everything or, exactly when a pending file is not there, raises. */
  lemma {:induction false} WriteBackIs(c: Ctx, order: seq<File>, pending: map<File, Text>, before: map<File, Text>)
    requires CtxOk(c, before) && forall f :: f in order ==> f in pending
    ensures WriteBack(c, order, pending).raised <==> Stray(c, order, pending)
    ensures !Stray(c, order, pending) ==> WrittenBack(c, WriteBack(c, order, pending).ctx, order, pending)
  {
    if order != [] {
      var rest, f := order[..|order| - 1], order[|order| - 1];
      assert order == rest + [f];
      WriteBackIs(c, rest, pending, before);
      WriteBackEffect(c, rest, pending, before);
      var m := WriteBack(c, rest, pending).ctx;
      if Stray(c, rest, pending) {
        var g :| g in rest && g !in c.disk && Look(c, g) != Some(pending[g]);
        assert g in order;
      } else if c.dryRun || f in c.disk || Look(m, f) == Some(pending[f]) {
        WriteIfChangedIs(m, f, pending[f], before);
        WriteIfChangedEffect(m, f, pending[f], before);
        OneMoreWritten(c, m, WriteIfChanged(m, f, pending[f]).ctx, rest, f, pending);
      } else {
        assert f !in rest;
      }
    }
  }

  // ---- transactions ----

  ghost predicate Untouched(c: Ctx, r: Ctx) {
    && r.disk == c.disk && r.snapshots == c.snapshots && r.dirty == c.dirty && r.dryRun == c.dryRun
    && (forall f :: Look(r, f) == Look(c, f))
  }

  /** The view of c has become v, and the files that differ are dirty. */
  ghost predicate Becomes(c: Ctx, r: Ctx, v: map<File, Text>)
    requires v.Keys == Texts(c).Keys
  {
    && (forall f :: Look(r, f) == if f in v then Some(v[f]) else None)
    && (forall f :: f in r.dirty <==> f in c.dirty || (f in v && v[f] != Texts(c)[f]))
    && r.dryRun == c.dryRun && r.disk.Keys == c.disk.Keys
    && (c.dryRun ==> r.disk == c.disk && r.snapshots == c.snapshots)
  }

  /** v differs in a file that is known from the cache only. */
  ghost predicate WritesStray(c: Ctx, v: map<File, Text>)
    requires v.Keys == Texts(c).Keys
  {
    !c.dryRun && exists f :: f in v && f !in c.disk && v[f] != Texts(c)[f]
  }

  lemma ScanKeepsOk(c: Ctx, s: Scan, before: map<File, Text>)
    requires CtxOk(c, before) && Framed(c, s)
    ensures CtxOk(s.ctx, before) && Effect(c, s.ctx) && Untouched(c, s.ctx)
  {
    assert Restored(s.ctx) == Restored(c);
    forall f | f in s.ctx.texts && f in c.disk && (f !in c.dirty || !c.dryRun) ensures s.ctx.texts[f] == c.disk[f] {
      assert Look(s.ctx, f) == Look(c, f);
    }
    forall f | f in c.dirty ensures f in s.ctx.texts {
      assert Look(s.ctx, f) == Look(c, f);
    }
  }

  lemma FailedScan(c: Ctx, edits: seq<Edit>, before: map<File, Text>)
    requires CtxOk(c, before) && Misses(Texts(c), edits)
    ensures
      var o := ApplySteps(c, edits);
      CtxOk(o.ctx, before) && o.ending == Missed && Effect(c, o.ctx) && Untouched(c, o.ctx)
  {
    ScanFrame(c, edits);
    ScanFolds(c, edits);
    ScanKeepsOk(c, ScanAll(c, edits), before);
  }

  /** What the first loop leaves pending is the fold. */
  ghost predicate PendingIsFold(c: Ctx, s: Scan, v: map<File, Text>)
    requires v.Keys == Texts(c).Keys
  {
    && (forall f :: f in s.order ==> f in s.pending)
    && (forall f :: f in s.order ==> f in v && s.pending[f] == v[f])
    && (forall f :: f in v && f !in s.order ==> v[f] == Texts(c)[f])
  }

  lemma ScanPending(c: Ctx, edits: seq<Edit>)
    requires !Misses(Texts(c), edits)
    ensures PendingIsFold(c, ScanAll(c, edits), Fold(Texts(c), edits))
  {
    ScanFrame(c, edits);
    ScanFolds(c, edits);
    var s, v := ScanAll(c, edits), Fold(Texts(c), edits);
    forall f | f in s.order ensures f in v && s.pending[f] == v[f] {
      assert Look(s.ctx, f) == Look(c, f) && f in s.ctx.texts;
    }
  }

  lemma PendingWritten(c: Ctx, s: Scan, r: Ctx, v: map<File, Text>)
    requires v.Keys == Texts(c).Keys && Untouched(c, s.ctx) && PendingIsFold(c, s, v)
    ensures Stray(s.ctx, s.order, s.pending) <==> WritesStray(c, v)
    ensures (WrittenBack(s.ctx, r, s.order, s.pending) && (c.dryRun ==> r.disk == c.disk && r.snapshots == c.snapshots))
      ==> Becomes(c, r, v)
  {
    forall f | f in v ensures Look(c, f) == Some(Texts(c)[f]) && Look(s.ctx, f) == Look(c, f) {
    }
    if WritesStray(c, v) {
      var f :| f in v && f !in c.disk && v[f] != Texts(c)[f];
      assert f in s.order && Look(s.ctx, f) != Some(s.pending[f]);
    }
  }

  /** The second loop after a scan that passed: the fold is written, or a write raises. */
  lemma PassedScanWrites(c: Ctx, edits: seq<Edit>, before: map<File, Text>)
    requires CtxOk(c, before) && !Misses(Texts(c), edits)
    ensures
      var s, v := ScanAll(c, edits), Fold(Texts(c), edits);
      && (forall f :: f in s.order ==> f in s.pending)
      && var w := WriteBack(s.ctx, s.order, s.pending);
         && CtxOk(w.ctx, before) && Effect(c, w.ctx)
         && (w.raised <==> WritesStray(c, v)) && (!w.raised ==> Becomes(c, w.ctx, v))
  {
    ScanFrame(c, edits);
    ScanPending(c, edits);
    var s := ScanAll(c, edits);
    ScanKeepsOk(c, s, before);
    WriteBackIs(s.ctx, s.order, s.pending, before);
    WriteBackEffect(s.ctx, s.order, s.pending, before);
    var r := WriteBack(s.ctx, s.order, s.pending).ctx;
    EffectsAdd(c, s.ctx, r);
    PendingWritten(c, s, r, Fold(Texts(c), edits));
  }

  lemma PassedScan(c: Ctx, edits: seq<Edit>, before: map<File, Text>)
    requires CtxOk(c, before) && !Misses(Texts(c), edits)
    ensures
      var o, v := ApplySteps(c, edits), Fold(Texts(c), edits);
      && CtxOk(o.ctx, before) && Effect(c, o.ctx)
      && o.ending == (if WritesStray(c, v) then NoSuchFile else Returned(StatusOf(StatusSeq(Texts(c), edits))))
      && (!WritesStray(c, v) ==> Becomes(c, o.ctx, v))
  {
    PassedScanWrites(c, edits, before);
    ScanFolds(c, edits);
    assert ScanAll(c, edits).results == StatusSeq(Texts(c), edits);
  }

  /**
   apply_steps() is a transaction: one required miss and nothing has happened; otherwise every
   file is the left fold of its steps, exactly the files that differ are written, and the status
   depends on the texts alone.  The exception is a text that is kept of a file which is not in
   the tree: a real run raises exactly when the fold changes such a text.
   */
  lemma Transaction(c: Ctx, edits: seq<Edit>, before: map<File, Text>)
    requires CtxOk(c, before)
    ensures
      var o, v := ApplySteps(c, edits), Fold(Texts(c), edits);
      && CtxOk(o.ctx, before) && Effect(c, o.ctx)
      && (o.ending == Missed <==> Misses(Texts(c), edits))
      && (o.ending == Missed ==> Untouched(c, o.ctx))
      && (o.ending == NoSuchFile <==> !Misses(Texts(c), edits) && WritesStray(c, v))
      && (o.ending != Missed && o.ending != NoSuchFile ==>
            Becomes(c, o.ctx, v) && o.ending == Returned(StatusOf(StatusSeq(Texts(c), edits))))
  {
    if Misses(Texts(c), edits) {
      FailedScan(c, edits, before);
    } else {
      PassedScan(c, edits, before);
    }
  }

  /** Among files of the tree there is no exception, and the cache stays clean. */
  lemma CleanTransaction(c: Ctx, edits: seq<Edit>, before: map<File, Text>)
    requires CtxOk(c, before) && Clean(c)
    ensures ApplySteps(c, edits).ending != NoSuchFile && Clean(ApplySteps(c, edits).ctx)
  {
    Transaction(c, edits, before);
    var r := ApplySteps(c, edits).ctx;
    forall f | f in r.texts ensures f in r.disk {
      assert Look(r, f).Some? && Look(c, f).Some?;
    }
  }

  lemma FoldOfOne(v: map<File, Text>, e: Edit)
    requires e.file in v && ReplaceOnce(v[e.file], e.old_, e.new_).status == Applied
    ensures Fold(v, [e]) == v[e.file := ReplaceOnce(v[e.file], e.old_, e.new_).text]
    ensures !Misses(v, [e]) && StatusOf(StatusSeq(v, [e])) == GApplied
  {
    assert [e][..0] == [] && Fold(v, []) == v;
    assert StatusAt(v, [e], 0) == Applied && StatusSeq(v, [e]) == [Applied];
    assert [Applied][..0] == [] && Count([Applied], Applied) == 1;
  }

  /** In a real run the tree holds what a reader is shown of its files. */
  lemma ShownIsOnDisk(c: Ctx, before: map<File, Text>, f: File)
    requires CtxOk(c, before) && !c.dryRun && f in c.disk
    ensures Look(c, f) == Some(c.disk[f])
  {
  }

  /** One step on a file of the tree: its text becomes what replace_once() makes of it. */
  lemma OneStepOnFile(c: Ctx, e: Edit, text: Text, before: map<File, Text>)
    requires CtxOk(c, before) && e.file in c.disk
    requires ReplaceOnce(Texts(c)[e.file], e.old_, e.new_) == Replaced(text, Applied)
    ensures
      var o := ApplySteps(c, [e]);
      && o.ending == Returned(GApplied) && CtxOk(o.ctx, before) && o.ctx.disk.Keys == c.disk.Keys
      && (forall f :: Look(o.ctx, f) == if f == e.file then Some(text) else Look(c, f))
      && o.ctx.dryRun == c.dryRun
  {
    FoldOfOne(Texts(c), e);
    Transaction(c, [e], before);
  }

  lemma OneStepOnDisk(c: Ctx, e: Edit, text: Text, before: map<File, Text>)
    requires CtxOk(c, before) && e.file in c.disk && !c.dryRun
    requires ReplaceOnce(Texts(c)[e.file], e.old_, e.new_) == Replaced(text, Applied)
    ensures ApplySteps(c, [e]).ctx.disk == c.disk[e.file := text]
  {
    OneStepOnFile(c, e, text, before);
    var r := ApplySteps(c, [e]).ctx;
    forall f | f in c.disk ensures r.disk[f] == c.disk[e.file := text][f] {
      ShownIsOnDisk(c, before, f);
      ShownIsOnDisk(r, before, f);
    }
  }

  /**
   A required anchor that occurs first between a and b with LF line ends: after apply_steps() the
   file reads a, the new block, b - and no other file has changed.
   */
  lemma AnchorReplacedInFile(c: Ctx, e: Edit, a: Text, b: Text, before: map<File, Text>)
    requires CtxOk(c, before) && e.file in c.disk && Texts(c)[e.file] == a + ToLf(e.old_) + b
    requires FirstAfter(a, ToLf(e.old_), b) && !Present(a + ToLf(e.old_) + b, e.new_)
    ensures
      var o := ApplySteps(c, [e]);
      && o.ending == Returned(GApplied) && Look(o.ctx, e.file) == Some(a + ToLf(e.new_) + b)
      && (forall f :: f != e.file ==> Look(o.ctx, f) == Look(c, f))
      && (!c.dryRun ==> o.ctx.disk == c.disk[e.file := a + ToLf(e.new_) + b])
  {
    ReplacedInLf(a, b, e.old_, e.new_);
    OneStepOnFile(c, e, a + ToLf(e.new_) + b, before);
    if !c.dryRun {
      OneStepOnDisk(c, e, a + ToLf(e.new_) + b, before);
    }
  }

  /** The same for an anchor that occurs with CRLF line ends only. */
  lemma CrlfAnchorReplacedInFile(c: Ctx, e: Edit, a: Text, b: Text, before: map<File, Text>)
    requires CtxOk(c, before) && e.file in c.disk && Texts(c)[e.file] == a + ToCrlf(ToLf(e.old_)) + b
    requires FirstAfter(a, ToCrlf(ToLf(e.old_)), b) && !Contains(a + ToCrlf(ToLf(e.old_)) + b, ToLf(e.old_))
    requires !Present(a + ToCrlf(ToLf(e.old_)) + b, e.new_)
    ensures
      var o := ApplySteps(c, [e]);
      && o.ending == Returned(GApplied) && Look(o.ctx, e.file) == Some(a + ToCrlf(ToLf(e.new_)) + b)
      && (forall f :: f != e.file ==> Look(o.ctx, f) == Look(c, f))
      && (!c.dryRun ==> o.ctx.disk == c.disk[e.file := a + ToCrlf(ToLf(e.new_)) + b])
  {
    ReplacedInCrlf(a, b, e.old_, e.new_);
    OneStepOnFile(c, e, a + ToCrlf(ToLf(e.new_)) + b, before);
    if !c.dryRun {
      OneStepOnDisk(c, e, a + ToCrlf(ToLf(e.new_)) + b, before);
    }
  }

  // ---- statuses ----

  function StatusSeq(v: map<File, Text>, edits: seq<Edit>): (r: seq<Status>)
    ensures |r| == |edits|
  {
    seq(|edits|, k requires 0 <= k < |edits| => StatusAt(v, edits, k))
  }

  lemma {:induction false} CountIsZero(results: seq<Status>, x: Status)
    ensures Count(results, x) == 0 <==> x !in results
  {
    if results != [] {
      var k := |results| - 1;
      CountIsZero(results[..k], x);
      assert results == results[..k] + [results[k]];
    }
  }

  /** What the status of a step list says about its steps. */
  lemma StatusMeans(results: seq<Status>)
    ensures
      var s := StatusOf(results);
      && (s == GBlockedByMissingAnchor <==> forall k :: 0 <= k < |results| ==> results[k] == MissingAnchor)
      && (s == GAlreadyPresent <==> results != [] && forall k :: 0 <= k < |results| ==> results[k] == AlreadyPresent)
      && (s == GPartial <==> MissingAnchor in results && (Applied in results || AlreadyPresent in results))
      && (s == GApplied <==> Applied in results && MissingAnchor !in results)
      && (s == GBlockedByMissingAnchor || s == GAlreadyPresent || s == GPartial || s == GApplied)
  {
    CountIsZero(results, Applied);
    CountIsZero(results, AlreadyPresent);
    CountIsZero(results, MissingAnchor);
    CountAll(results);
  }

  /** run_child() gives up on a claim without an edit and on an edit without a claim. */
  lemma RefusedMeans(c: Ctx, r: Ctx, status: GroupStatus)
    ensures
      var changed := exists f :: f in r.dirty && Look(r, f) != if f in c.dirty then Look(c, f) else None;
      Refused(c, r, status) <==>
        ((status == GApplied || status == GPartial) && !changed)
        || (status != GApplied && status != GPartial && status != GAlreadyPresent && changed)
  {
  }

  lemma {:induction false} NothingAppliedNothingChanged(v: map<File, Text>, edits: seq<Edit>)
    requires forall k :: 0 <= k < |edits| ==> StatusAt(v, edits, k) != Applied
    ensures Fold(v, edits) == v
  {
    if edits != [] {
      var k := |edits| - 1;
      forall j: nat | j < k ensures StatusAt(v, edits[..k], j) != Applied {
        StatusAtPrefix(v, edits, j);
      }
      NothingAppliedNothingChanged(v, edits[..k]);
      var e := edits[k];
      assert StatusAt(v, edits, k) != Applied;
      if e.file in v {
        ReplaceOnceSettles(v[e.file], e.old_, e.new_);
      }
    }
  }

  predicate DistinctFiles(edits: seq<Edit>) {
    forall i, j :: 0 <= i < j < |edits| ==> edits[i].file != edits[j].file
  }

  lemma {:induction false} NoStepNoChange(v: map<File, Text>, edits: seq<Edit>, f: File)
    requires f in v && forall k :: 0 <= k < |edits| ==> edits[k].file != f
    ensures Fold(v, edits)[f] == v[f]
  {
    if edits != [] {
      NoStepNoChange(v, edits[..|edits| - 1], f);
    }
  }

  /** With one step per file, each file ends as its own step left it. */
  lemma {:induction false} OwnStepOnly(v: map<File, Text>, edits: seq<Edit>, k: nat)
    requires DistinctFiles(edits) && k < |edits| && edits[k].file in v
    ensures
      var e := edits[k];
      var q := ReplaceOnce(v[e.file], e.old_, e.new_);
      Fold(v, edits)[e.file] == q.text && StatusAt(v, edits, k) == q.status
  {
    var n := |edits| - 1;
    if k < n {
      OwnStepOnly(v, edits[..n], k);
      StatusAtPrefix(v, edits, k);
      assert edits[n].file != edits[k].file;
    } else {
      NoStepNoChange(v, edits[..n], edits[n].file);
    }
  }

  /**
   A pass reports every step as already present exactly when every step's block is in its file
   to begin with; so a second pass does unless a later step took an earlier one's block away.
   */
  lemma AllPresentIff(v: map<File, Text>, edits: seq<Edit>)
    ensures
      (forall k :: 0 <= k < |edits| ==> StatusAt(v, edits, k) == AlreadyPresent) <==>
      (forall k :: 0 <= k < |edits| ==> edits[k].file in v && Present(v[edits[k].file], edits[k].new_))
  {
    if forall k :: 0 <= k < |edits| ==> StatusAt(v, edits, k) == AlreadyPresent {
      forall k | 0 <= k < |edits| ensures edits[k].file in v && Present(v[edits[k].file], edits[k].new_) {
        PresentSoFar(v, edits, k);
      }
    } else if forall k :: 0 <= k < |edits| ==> edits[k].file in v && Present(v[edits[k].file], edits[k].new_) {
      forall k: nat | k < |edits| ensures StatusAt(v, edits, k) == AlreadyPresent {
        StillThere(v, edits[..k]);
      }
    }
  }

  lemma PresentSoFar(v: map<File, Text>, edits: seq<Edit>, k: nat)
    requires k < |edits| && forall j :: 0 <= j < |edits| ==> StatusAt(v, edits, j) == AlreadyPresent
    ensures edits[k].file in v && Present(v[edits[k].file], edits[k].new_)
  {
    forall j: nat | j < k ensures StatusAt(v, edits[..k], j) != Applied {
      assert edits[..k][..j] == edits[..j] && StatusAt(v, edits, j) == AlreadyPresent;
    }
    NothingAppliedNothingChanged(v, edits[..k]);
    assert StatusAt(v, edits, k) == AlreadyPresent;
  }

  lemma {:induction false} StillThere(v: map<File, Text>, edits: seq<Edit>)
    requires forall k :: 0 <= k < |edits| ==> edits[k].file in v && Present(v[edits[k].file], edits[k].new_)
    ensures Fold(v, edits) == v
  {
    if edits != [] {
      StillThere(v, edits[..|edits| - 1]);
      assert Present(v[edits[|edits| - 1].file], edits[|edits| - 1].new_);
    }
  }

  /**
   A second pass finds a step's block already there, whatever the first pass made of the step,
   as long as it and the blocks of the earlier steps in its file are in the text the first pass
   left.
   */
  lemma SecondPassIsAlreadyPresent(v: map<File, Text>, edits: seq<Edit>, k: nat)
    requires k < |edits| && edits[k].file in v && BlocksThere(Fold(v, edits), edits, k)
    ensures StatusAt(Fold(v, edits), edits, k) == AlreadyPresent
  {
    PresentIsReported(Fold(v, edits), edits, k);
  }

  /** w holds the block of the k-th step and those of the earlier steps in its file. */
  ghost predicate BlocksThere(w: map<File, Text>, edits: seq<Edit>, k: nat)
    requires k < |edits| && edits[k].file in w
  {
    forall j :: 0 <= j <= k && edits[j].file == edits[k].file ==> Present(w[edits[k].file], edits[j].new_)
  }

  lemma PresentIsReported(w: map<File, Text>, edits: seq<Edit>, k: nat)
    requires k < |edits| && edits[k].file in w && BlocksThere(w, edits, k)
    ensures StatusAt(w, edits, k) == AlreadyPresent
  {
    PresentStays(w, edits[..k], edits[k].file);
    assert Present(w[edits[k].file], edits[k].new_);
  }

  lemma {:induction false} PresentStays(w: map<File, Text>, edits: seq<Edit>, f: File)
    requires f in w && forall j :: 0 <= j < |edits| && edits[j].file == f ==> Present(w[f], edits[j].new_)
    ensures Fold(w, edits)[f] == w[f]
  {
    if edits != [] {
      PresentStays(w, edits[..|edits| - 1], f);
    }
  }

  /** With one step per file that is so for every step that found something. */
  lemma FoundBlocksStay(v: map<File, Text>, edits: seq<Edit>, k: nat)
    requires DistinctFiles(edits) && k < |edits| && StatusAt(v, edits, k) != MissingAnchor
    ensures StatusAt(Fold(v, edits), edits, k) == AlreadyPresent
  {
    var e := edits[k];
    OwnStepOnly(v, edits, k);
    ReplaceOnceSettles(v[e.file], e.old_, e.new_);
    forall j | 0 <= j <= k && edits[j].file == e.file ensures j == k {
    }
    SecondPassIsAlreadyPresent(v, edits, k);
  }

  // ---- what run_child() makes of a step list ----

  /** changed: pending files that were not pending before or read differently now. */
  ghost predicate Changed(c: Ctx, r: Ctx) {
    exists f :: f in r.dirty && Look(r, f) != if f in c.dirty then Look(c, f) else None
  }

  predicate Edited(status: GroupStatus) { status == GApplied || status == GPartial }

  predicate Degraded(status: GroupStatus) { !Edited(status) && status != GAlreadyPresent }

  /** run_child() gives up: a degraded group wrote, or one that claims an edit did not. */
  ghost predicate Refused(c: Ctx, r: Ctx, status: GroupStatus) {
    (Edited(status) && !Changed(c, r)) || (Degraded(status) && Changed(c, r))
  }

  /** What is reported; a required miss and anything raised are blocked_by_shape. */
  function Reported(e: Ending): GroupStatus { if e.Returned? then e.status else GBlockedByShape }

  ghost predicate StepsRefused(c: Ctx, edits: seq<Edit>) {
    var o := ApplySteps(c, edits);
    Refused(c, o.ctx, Reported(o.ending))
  }

  lemma StepsChange(c: Ctx, edits: seq<Edit>, before: map<File, Text>)
    requires CtxOk(c, before) && Clean(c)
    ensures Changed(c, ApplySteps(c, edits).ctx) <==> !Misses(Texts(c), edits) && Fold(Texts(c), edits) != Texts(c)
  {
    Transaction(c, edits, before);
    CleanTransaction(c, edits, before);
    var r, v := ApplySteps(c, edits).ctx, Fold(Texts(c), edits);
    if !Misses(Texts(c), edits) {
      if v != Texts(c) {
        var f :| f in v && v[f] != Texts(c)[f];
        assert f in r.dirty && Look(r, f) == Some(v[f]);
      } else {
        forall f | f in r.dirty ensures f in c.dirty && Look(r, f) == Look(c, f) {
          assert f in c.dirty && f in c.texts;
        }
      }
    } else {
      forall f | f in r.dirty ensures f in c.dirty && Look(r, f) == Look(c, f) {
      }
    }
  }

  /**
   run_child() refuses a step list exactly when it claims an edit and the fold changes no file;
   a degraded step list is never the reason, because it wrote nothing.
   */
  lemma StepsRefusedIff(c: Ctx, edits: seq<Edit>, before: map<File, Text>)
    requires CtxOk(c, before) && Clean(c)
    ensures
      StepsRefused(c, edits) <==>
        !Misses(Texts(c), edits) && Edited(StatusOf(StatusSeq(Texts(c), edits))) && Fold(Texts(c), edits) == Texts(c)
  {
    Transaction(c, edits, before);
    CleanTransaction(c, edits, before);
    StepsChange(c, edits, before);
    var results := StatusSeq(Texts(c), edits);
    CountIsZero(results, Applied);
    if Applied !in results {
      forall k: nat | k < |edits| ensures StatusAt(Texts(c), edits, k) != Applied {
        assert results[k] in results;
      }
      NothingAppliedNothingChanged(Texts(c), edits);
    }
  }

  /** No applied step puts in a block that its file held to begin with. */
  ghost predicate AppliesNewBlocks(v: map<File, Text>, edits: seq<Edit>) {
    forall k :: 0 <= k < |edits| && StatusAt(v, edits, k) == Applied ==> !Present(v[edits[k].file], edits[k].new_)
  }

  ghost predicate AppliedTo(v: map<File, Text>, edits: seq<Edit>, k: nat, f: File) {
    k < |edits| && edits[k].file == f && StatusAt(v, edits, k) == Applied
  }

  /** The last step that applies to a file leaves its block there. */
  lemma {:induction false} LastApplied(v: map<File, Text>, edits: seq<Edit>, f: File, some: nat) returns (k: nat)
    requires f in v && AppliedTo(v, edits, some, f)
    ensures AppliedTo(v, edits, k, f) && Present(Fold(v, edits)[f], edits[k].new_)
  {
    var n := |edits| - 1;
    var e := edits[n];
    if AppliedTo(v, edits, n, f) {
      ReplaceOnceSettles(Fold(v, edits[..n])[f], e.old_, e.new_);
      return n;
    }
    StatusAtPrefix(v, edits, some);
    k := LastApplied(v, edits[..n], f, some);
    StatusAtPrefix(v, edits, k);
    NotAppliedKeeps(v, edits, f);
  }

  lemma NotAppliedKeeps(v: map<File, Text>, edits: seq<Edit>, f: File)
    requires f in v && edits != [] && !AppliedTo(v, edits, |edits| - 1, f)
    ensures Fold(v, edits)[f] == Fold(v, edits[..|edits| - 1])[f]
  {
    var e := edits[|edits| - 1];
    if e.file == f {
      ReplaceOnceSettles(Fold(v, edits[..|edits| - 1])[f], e.old_, e.new_);
    }
  }

  /**
   The refused lists are those of which some steps are already there, some optional ones find no
   anchor, and none applies: they report "partial" without an edit.
   */
  lemma PartialWithoutEdit(c: Ctx, edits: seq<Edit>, before: map<File, Text>)
    requires CtxOk(c, before) && Clean(c) && AppliesNewBlocks(Texts(c), edits)
    ensures
      var results := StatusSeq(Texts(c), edits);
      StepsRefused(c, edits) <==>
        !Misses(Texts(c), edits) && Applied !in results && AlreadyPresent in results && MissingAnchor in results
  {
    StepsRefusedIff(c, edits, before);
    var v, results := Texts(c), StatusSeq(Texts(c), edits);
    CountIsZero(results, Applied);
    CountIsZero(results, AlreadyPresent);
    CountAll(results);
    CountIsZero(results, MissingAnchor);
    if k: nat :| k < |results| && results[k] == Applied {
      assert AppliedTo(v, edits, k, edits[k].file);
      var last := LastApplied(v, edits, edits[k].file, k);
    } else {
      forall k: nat | k < |edits| ensures StatusAt(v, edits, k) != Applied {
        assert results[k] in results;
      }
      NothingAppliedNothingChanged(v, edits);
    }
  }

  lemma {:induction false} CountAll(results: seq<Status>)
    ensures Count(results, Applied) + Count(results, AlreadyPresent) + Count(results, MissingAnchor) == |results|
  {
    if results != [] {
      CountAll(results[..|results| - 1]);
    }
  }

  // ---- two lists that are refused ----

  lemma OneLetter(t: char, p: char)
    requires t != '\r' && p != '\r' && t != '\n' && p != '\n'
    ensures ToLf([p]) == [p] && ToCrlf([p]) == [p] && (Contains([t], [p]) <==> t == p)
  {
    assert [p][1..] == "";
    if t == p {
      assert OccursAt([t], [p], 0);
    } else {
      forall i | 0 <= i <= 1 ensures !OccursAt([t], [p], i) {
        if i == 0 {
          assert [t][0..1][0] == t;
        }
      }
    }
  }

  lemma OneLetterReplaced(t: char, old_: char, new_: char)
    requires {t, old_, new_} !! {'\r', '\n'}
    ensures ReplaceOnce([t], [old_], [new_]) ==
      if t == new_ then Replaced([t], AlreadyPresent)
      else if t == old_ then Replaced([new_], Applied)
      else Replaced([t], MissingAnchor)
  {
    OneLetter(t, new_);
    OneLetter(t, old_);
    if t == old_ && t != new_ {
      assert FirstFrom([t], [old_], 0) == 0;
      assert [t][..0] + [new_] + [t][1..] == [new_];
    }
  }

  /** Two steps on the one file of a tree. */
  lemma TwoSteps(text: Text, a: Edit, b: Edit)
    requires a.file == "f" == b.file
    ensures
      var v, q := map["f" := text], ReplaceOnce(text, a.old_, a.new_);
      var r := ReplaceOnce(q.text, b.old_, b.new_);
      && Fold(v, [a, b]) == map["f" := r.text]
      && StatusAt(v, [a, b], 0) == q.status && StatusAt(v, [a, b], 1) == r.status
      && StatusSeq(v, [a, b]) == [q.status, r.status]
  {
    var v, q := map["f" := text], ReplaceOnce(text, a.old_, a.new_);
    assert [a, b][..0] == [] && [a, b][..1] == [a] && [a][..0] == [];
    assert Fold(v, []) == v;
    assert Fold(v, [a]) == v["f" := q.text];
  }

  function OneFile(text: Text): (c: Ctx)
    ensures Texts(c) == map["f" := text] == c.disk && Clean(c)
  {
    Ctx(map["f" := text], map[], map[], {}, false)
  }

  lemma PartialSteps(a: Edit, b: Edit)
    requires a == Edit("f", "a", "b", true) && b == Edit("f", "x", "y", false)
    ensures
      var v := map["f" := "b"];
      && !Misses(v, [a, b]) && AppliesNewBlocks(v, [a, b]) && Fold(v, [a, b]) == v
      && StatusSeq(v, [a, b]) == [AlreadyPresent, MissingAnchor]
  {
    OneLetterReplaced('b', 'a', 'b');
    OneLetterReplaced('b', 'x', 'y');
    TwoSteps("b", a, b);
  }

  /** A step that is already there and an optional one without anchor. */
  lemma PartialIsRefused() returns (c: Ctx, edits: seq<Edit>)
    ensures Clean(c) && CtxOk(c, c.disk) && !Misses(Texts(c), edits) && AppliesNewBlocks(Texts(c), edits)
    ensures ApplySteps(c, edits).ending == Returned(GPartial) && StepsRefused(c, edits)
  {
    c := OneFile("b");
    var a, b := Edit("f", "a", "b", true), Edit("f", "x", "y", false);
    edits := [a, b];
    assert Restored(c) == c.disk;
    PartialSteps(a, b);
    StatusOfTwo();
    Transaction(c, edits, c.disk);
    CleanTransaction(c, edits, c.disk);
    StepsRefusedIff(c, edits, c.disk);
  }

  lemma StatusOfTwo()
    ensures StatusOf([AlreadyPresent, MissingAnchor]) == GPartial
    ensures StatusOf([Applied, Applied]) == GApplied
  {
    var r, q := [AlreadyPresent, MissingAnchor], [Applied, Applied];
    assert r[..1] == [AlreadyPresent] && r[..1][..0] == [];
    assert q[..1] == [Applied] && q[..1][..0] == [];
    assert Count([AlreadyPresent], Applied) == 0 && Count([AlreadyPresent], AlreadyPresent) == 1;
    assert Count([Applied], Applied) == 1;
    assert Count(r, Applied) == 0 && Count(r, AlreadyPresent) == 1 && r[1] == MissingAnchor;
    assert Count(q, Applied) == 2;
  }

  /** Outside that condition: a step that undoes another, both of them applied, is refused too. */
  lemma UndoneIsRefused() returns (c: Ctx, edits: seq<Edit>)
    ensures Clean(c) && CtxOk(c, c.disk) && !AppliesNewBlocks(Texts(c), edits)
    ensures ApplySteps(c, edits).ending == Returned(GApplied) && StepsRefused(c, edits)
  {
    c := OneFile("a");
    var a, b := Edit("f", "a", "b", true), Edit("f", "b", "a", true);
    edits := [a, b];
    assert Restored(c) == c.disk;
    OneLetterReplaced('a', 'a', 'b');
    OneLetterReplaced('b', 'b', 'a');
    OneLetterReplaced('a', 'b', 'a');
    TwoSteps("a", a, b);
    StatusOfTwo();
    assert Present("a", "a");
    Transaction(c, edits, c.disk);
    CleanTransaction(c, edits, c.disk);
    StepsRefusedIff(c, edits, c.disk);
  }
}
