/** Child runs over groups of any kind: honest endings, dry runs, restorable files. */
module GraftChild {
  import opened Wrappers
  import opened GraftEngine
  import opened GraftRuns

  // ---- groups ----

  /** What a group's function can do with the context, and what it gets back. */
  datatype Move =
    | ReadFile(file: File)
    | WriteFile(file: File, text: Text)
    | CallApplySteps(edits: seq<Edit>)
    | Return(status: GroupStatus)
    | Raise                              // SystemExit, OSError or ValueError

  datatype Answer =
    | WasRead(text: Option<Text>)        // None is FileNotFoundError, for the group to handle
    | WasWritten
    | Stepped(status: Option<GroupStatus>)

  /**
   A group's function: its next move depends on all it has seen.  It ends within some number of
   moves; hard groups pass on what they raise.
   */
  datatype Group = Group(act: seq<Answer> -> Move, moves: nat, hard: bool)

  /** The rest of a group's function, after it has seen this much. */
  function RunMoves(c: Ctx, act: seq<Answer> -> Move, seen: seq<Answer>, left: nat): (o: Outcome)
    decreases left
  {
    match act(seen)
    case Return(status) => Outcome(c, Returned(status))
    case Raise => Outcome(c, Failed)
    case ReadFile(f) =>
      if left == 0 then Outcome(c, Failed)
      else RunMoves(Read(c, f), act, seen + [WasRead(Look(c, f))], left - 1)
    case WriteFile(f, text) =>
      if left == 0 then Outcome(c, Failed)
      else if Raises(c, f) then Outcome(Write(c, f, text), NoSuchFile)
      else RunMoves(Write(c, f, text), act, seen + [WasWritten], left - 1)
    case CallApplySteps(edits) =>
      if left == 0 then Outcome(c, Failed)
      else
        var o := ApplySteps(c, edits);
        if o.ending == NoSuchFile then o
        else RunMoves(o.ctx, act, seen + [Stepped(StatusSeen(o.ending))], left - 1)
  }

  /** What apply_steps() returns to its caller. */
  function StatusSeen(e: Ending): Option<GroupStatus> { if e.Returned? then Some(e.status) else None }

  function RunGroup(c: Ctx, g: Group): Outcome { RunMoves(c, g.act, [], g.moves) }

  /** The commonest group: its steps, a required miss reported as blocked_by_shape. */
  function StepsGroup(edits: seq<Edit>): Group {
    Group((seen: seq<Answer>) =>
      if seen == [] then CallApplySteps(edits)
      else Return(if seen[0].Stepped? && seen[0].status.Some? then seen[0].status.value else GBlockedByShape),
      1, false)
  }

  lemma StepsGroupIsApplySteps(c: Ctx, edits: seq<Edit>)
    ensures
      var o, s := RunGroup(c, StepsGroup(edits)), ApplySteps(c, edits);
      o.ctx == s.ctx && Reported(o.ending) == Reported(s.ending)
  {
    var g, s := StepsGroup(edits), ApplySteps(c, edits);
    if s.ending != NoSuchFile {
      var seen := [Stepped(StatusSeen(s.ending))];
      assert [] + seen == seen && g.act(seen).Return?;
    }
  }

  /** One move of a group keeps the context in order; only a real write can make it unclean. */
  ghost predicate Sound(c: Ctx, o: Outcome, before: map<File, Text>) {
    && CtxOk(o.ctx, before) && Effect(c, o.ctx)
    && (o.ending == NoSuchFile ==> !c.dryRun)
    && (Clean(c) && !c.dryRun ==> (Clean(o.ctx) <==> o.ending != NoSuchFile))
  }

  lemma SoundAfter(c: Ctx, m: Ctx, o: Outcome, before: map<File, Text>)
    requires Effect(c, m) && (Clean(c) && !c.dryRun ==> Clean(m)) && Sound(m, o, before)
    ensures Sound(c, o, before)
  {
    EffectsAdd(c, m, o.ctx);
  }

  lemma WriteEffect(c: Ctx, f: File, text: Text, before: map<File, Text>)
    requires CtxOk(c, before)
    ensures Effect(c, Write(c, f, text)) && CtxOk(Write(c, f, text), before)
    ensures !c.dryRun && Clean(c) ==> (Clean(Write(c, f, text)) <==> !Raises(c, f))
  {
    WriteKeepsOk(c, f, text, before);
    assert f in Write(c, f, text).texts;
  }

  lemma {:induction false} MovesAreSound(
    c: Ctx, act: seq<Answer> -> Move, seen: seq<Answer>, left: nat, before: map<File, Text>)
    requires CtxOk(c, before)
    ensures Sound(c, RunMoves(c, act, seen, left), before)
    decreases left
  {
    if left > 0 && !act(seen).Return? && !act(seen).Raise? {
      FirstMove(c, act, seen, left, before);
      var (m, answer) := OneMove(c, act(seen));
      if answer.Some? {
        MovesAreSound(m, act, seen + [answer.value], left - 1, before);
        SoundAfter(c, m, RunMoves(m, act, seen + [answer.value], left - 1), before);
      }
    }
  }

  /** The context after one call on it, and the answer unless the call raised. */
  function OneMove(c: Ctx, move: Move): (Ctx, Option<Answer>)
    requires !move.Return? && !move.Raise?
  {
    match move
    case ReadFile(f) => (Read(c, f), Some(WasRead(Look(c, f))))
    case WriteFile(f, text) => (Write(c, f, text), if Raises(c, f) then None else Some(WasWritten))
    case CallApplySteps(edits) =>
      var o := ApplySteps(c, edits);
      (o.ctx, if o.ending == NoSuchFile then None else Some(Stepped(StatusSeen(o.ending))))
  }

  lemma FirstMove(c: Ctx, act: seq<Answer> -> Move, seen: seq<Answer>, left: nat, before: map<File, Text>)
    requires CtxOk(c, before) && left > 0 && !act(seen).Return? && !act(seen).Raise?
    ensures
      var (m, answer) := OneMove(c, act(seen));
      && CtxOk(m, before) && Effect(c, m)
      && (answer == None ==> RunMoves(c, act, seen, left) == Outcome(m, NoSuchFile)
                             && Sound(c, RunMoves(c, act, seen, left), before))
      && (answer.Some? ==> RunMoves(c, act, seen, left) == RunMoves(m, act, seen + [answer.value], left - 1)
                           && (Clean(c) && !c.dryRun ==> Clean(m)))
  {
    match act(seen)
    case ReadFile(f) => ReadKeepsOk(c, f, before);
    case WriteFile(f, text) => WriteEffect(c, f, text, before);
    case CallApplySteps(edits) => StepsMoveIsSound(c, act, seen, left, edits, before);
  }

  lemma StepsMoveIsSound(
    c: Ctx, act: seq<Answer> -> Move, seen: seq<Answer>, left: nat, edits: seq<Edit>, before: map<File, Text>)
    requires CtxOk(c, before) && left > 0 && act(seen) == CallApplySteps(edits)
    ensures
      var o := ApplySteps(c, edits);
      && CtxOk(o.ctx, before) && Effect(c, o.ctx) && (Clean(c) ==> Clean(o.ctx) && o.ending != NoSuchFile)
      && (o.ending == NoSuchFile ==> Sound(c, RunMoves(c, act, seen, left), before))
  {
    Transaction(c, edits, before);
    if Clean(c) {
      CleanTransaction(c, edits, before);
    }
  }

  // ---- run_child ----

  datatype Child = Child(ctx: Ctx, statuses: seq<GroupStatus>, stopped: bool)

  /** The loop of run_child(); it stops when a hard group raises or a status is refused. */
  ghost function RunChild(c: Ctx, groups: seq<Group>): (r: Child)
    ensures !r.stopped ==> |r.statuses| == |groups|
  {
    if groups == [] then Child(c, [], false)
    else
      var r, g := RunChild(c, groups[..|groups| - 1]), groups[|groups| - 1];
      if r.stopped then r
      else
        var o := RunGroup(r.ctx, g);
        if g.hard && !o.ending.Returned? then Child(o.ctx, r.statuses, true)
        else Child(o.ctx, r.statuses + [Reported(o.ending)], Refused(r.ctx, o.ctx, Reported(o.ending)))
  }

  lemma {:induction false} RunChildKeepsOk(c: Ctx, groups: seq<Group>, before: map<File, Text>)
    requires CtxOk(c, before)
    ensures CtxOk(RunChild(c, groups).ctx, before) && Effect(c, RunChild(c, groups).ctx)
  {
    if groups != [] {
      var r, g := RunChild(c, groups[..|groups| - 1]), groups[|groups| - 1];
      RunChildKeepsOk(c, groups[..|groups| - 1], before);
      if !r.stopped {
        MovesAreSound(r.ctx, g.act, [], g.moves, before);
        EffectsAdd(c, r.ctx, RunGroup(r.ctx, g).ctx);
      }
    }
  }

  /** The context that group k finds. */
  ghost function CtxAt(c: Ctx, groups: seq<Group>, k: nat): Ctx
    requires k <= |groups|
  {
    RunChild(c, groups[..k]).ctx
  }

  /** Group k is run and writes a file that is not in the tree. */
  ghost predicate WritesNoSuchFile(c: Ctx, groups: seq<Group>, k: nat) {
    && k < |groups| && !RunChild(c, groups[..k]).stopped
    && RunGroup(CtxAt(c, groups, k), groups[k]).ending == NoSuchFile
  }

  lemma {:induction false} RunOneMore(c: Ctx, groups: seq<Group>, k: nat)
    requires k < |groups|
    ensures
      var r, n := RunChild(c, groups[..k]), RunChild(c, groups[..k + 1]);
      var o := RunGroup(r.ctx, groups[k]);
      && (r.stopped ==> n == r)
      && (!r.stopped && groups[k].hard && !o.ending.Returned? ==> n == Child(o.ctx, r.statuses, true))
      && (!r.stopped && !(groups[k].hard && !o.ending.Returned?) ==>
            n == Child(o.ctx, r.statuses + [Reported(o.ending)], Refused(r.ctx, o.ctx, Reported(o.ending))))
  {
    assert groups[..k + 1][..k] == groups[..k] && groups[..k + 1][k] == groups[k];
  }

  /** A run that ended normally did so at every group, and its statuses are those of the parts. */
  lemma {:induction false} NormalUpTo(c: Ctx, groups: seq<Group>, k: nat)
    requires !RunChild(c, groups).stopped && k <= |groups|
    ensures !RunChild(c, groups[..k]).stopped && RunChild(c, groups[..k]).statuses == RunChild(c, groups).statuses[..k]
    decreases |groups| - k
  {
    if k == |groups| {
      assert groups[..k] == groups;
    } else {
      NormalUpTo(c, groups, k + 1);
      RunOneMore(c, groups, k);
    }
  }

  /** What a normal end says of group k. */
  lemma {:induction false} GroupEndedNormally(c: Ctx, groups: seq<Group>, k: nat, before: map<File, Text>)
    requires CtxOk(c, before) && !RunChild(c, groups).stopped && k < |groups|
    ensures
      var a, b, status := CtxAt(c, groups, k), CtxAt(c, groups, k + 1), RunChild(c, groups).statuses[k];
      var o := RunGroup(a, groups[k]);
      && CtxOk(a, before) && Sound(a, o, before) && b == o.ctx && a.dryRun == c.dryRun
      && status == Reported(o.ending) && !Refused(a, b, status)
  {
    NormalUpTo(c, groups, k);
    NormalUpTo(c, groups, k + 1);
    RunOneMore(c, groups, k);
    assert RunChild(c, groups[..k + 1]).statuses[k] == RunChild(c, groups).statuses[k];
    RunChildKeepsOk(c, groups[..k], before);
    MovesAreSound(CtxAt(c, groups, k), groups[k].act, [], groups[k].moves, before);
  }

  ghost predicate NoEffect(c: Ctx, r: Ctx) {
    Texts(r) == Texts(c) && r.disk == c.disk && r.dirty == c.dirty
  }

  /** What run_child() takes for "no file changed" is just that on disk, and in the cache of the tree. */
  lemma UnchangedOnDisk(c: Ctx, r: Ctx, before: map<File, Text>)
    requires CtxOk(c, before) && CtxOk(r, before) && Effect(c, r) && !Changed(c, r)
    ensures r.disk == c.disk && r.dirty == c.dirty
    ensures forall f :: c.dryRun || f in c.disk ==> Look(r, f) == Look(c, f)
  {
    forall f | f in r.dirty ensures f in c.dirty && Look(r, f) == Look(c, f) {
      assert Look(r, f).Some?;
    }
    forall f | f in c.disk ensures r.disk[f] == c.disk[f] {
      if f in r.dirty && !c.dryRun {
        assert Look(r, f) == Some(r.disk[f]) && Look(c, f) == Some(c.disk[f]);
      }
    }
  }

  lemma UnchangedIff(c: Ctx, o: Outcome, before: map<File, Text>)
    requires CtxOk(c, before) && Sound(c, o, before) && !Changed(c, o.ctx) && (c.dryRun || Clean(c))
    ensures NoEffect(c, o.ctx) <==> o.ending != NoSuchFile
  {
    UnchangedOnDisk(c, o.ctx, before);
    var r := o.ctx;
    if o.ending == NoSuchFile {
      var f :| f in r.texts && f !in r.disk;
      assert f in Texts(r) && f !in Texts(c);
    } else {
      forall f ensures Look(r, f) == Look(c, f) {
        if !c.dryRun && f !in c.disk {
          assert f !in r.texts && f !in c.texts;
        }
      }
      SameLooksSameTexts(c, r);
    }
  }

  lemma SameLooksSameTexts(c: Ctx, r: Ctx)
    requires forall f :: Look(r, f) == Look(c, f)
    ensures Texts(r) == Texts(c)
  {
    forall f ensures f in Texts(r) <==> f in Texts(c) {
      assert Look(r, f) == Look(c, f);
    }
    forall f | f in Texts(c) ensures Texts(r)[f] == Texts(c)[f] {
      assert Look(r, f) == Look(c, f);
    }
  }

  /** As long as no group wrote such a file, the cache holds the tree's files only. */
  lemma {:induction false} CleanUpTo(c: Ctx, groups: seq<Group>, k: nat, before: map<File, Text>)
    requires CtxOk(c, before) && Clean(c) && !c.dryRun && k <= |groups|
    requires forall j :: 0 <= j < k ==> !WritesNoSuchFile(c, groups, j)
    ensures Clean(CtxAt(c, groups, k))
  {
    if k > 0 {
      CleanUpTo(c, groups, k - 1, before);
      RunOneMore(c, groups, k - 1);
      RunChildKeepsOk(c, groups[..k - 1], before);
      MovesAreSound(CtxAt(c, groups, k - 1), groups[k - 1].act, [], groups[k - 1].moves, before);
      assert !WritesNoSuchFile(c, groups, k - 1);
    }
  }

  ghost predicate NoneUpTo(c: Ctx, groups: seq<Group>, k: nat) {
    forall j :: 0 <= j < k ==> !WritesNoSuchFile(c, groups, j)
  }

  lemma {:induction false} FirstSuch(c: Ctx, groups: seq<Group>, n: nat) returns (k: nat)
    requires !NoneUpTo(c, groups, n)
    ensures k < n && WritesNoSuchFile(c, groups, k) && NoneUpTo(c, groups, k)
  {
    if NoneUpTo(c, groups, n - 1) {
      k := n - 1;
    } else {
      k := FirstSuch(c, groups, n - 1);
    }
  }

  /** A group reported as an edit has made one; any other, unless already present, has made none. */
  lemma {:induction false} GroupIsHonest(c: Ctx, groups: seq<Group>, k: nat, before: map<File, Text>)
    requires CtxOk(c, before) && !RunChild(c, groups).stopped && k < |groups|
    ensures
      var a, b, status := CtxAt(c, groups, k), CtxAt(c, groups, k + 1), RunChild(c, groups).statuses[k];
      if status == GApplied || status == GPartial then
        exists f :: f in b.dirty && (f in a.dirty ==> Look(b, f) != Look(a, f))
      else status != GAlreadyPresent ==> b.disk == a.disk && b.dirty == a.dirty
  {
    GroupEndedNormally(c, groups, k, before);
    var a, b := CtxAt(c, groups, k), CtxAt(c, groups, k + 1);
    if Degraded(RunChild(c, groups).statuses[k]) {
      UnchangedOnDisk(a, b, before);
    } else if Edited(RunChild(c, groups).statuses[k]) {
      var f :| f in b.dirty && Look(b, f) != if f in a.dirty then Look(a, f) else None;
      assert f in b.dirty && (f in a.dirty ==> Look(b, f) != Look(a, f));
    }
  }

  /** A degraded group left disk and cache as they were. */
  ghost predicate HonestAt(c: Ctx, groups: seq<Group>, k: nat)
    requires !RunChild(c, groups).stopped && k < |groups|
  {
    Degraded(RunChild(c, groups).statuses[k]) ==> NoEffect(CtxAt(c, groups, k), CtxAt(c, groups, k + 1))
  }

  /**
   A child run that ends normally: edits are real and degraded groups have changed no file.  They
   have left the cache alone as well exactly when no group wrote a file that is not in the tree:
   such a write raises, but the text stays in the cache, where later groups will read it.
   */
  lemma {:induction false} NormalEndIsHonest(c: Ctx, groups: seq<Group>, before: map<File, Text>)
    requires CtxOk(c, before) && Clean(c) && !RunChild(c, groups).stopped
    ensures forall k :: 0 <= k < |groups| ==>
      var a, b, status := CtxAt(c, groups, k), CtxAt(c, groups, k + 1), RunChild(c, groups).statuses[k];
      && (Degraded(status) ==> b.disk == a.disk && b.dirty == a.dirty)
      && (Edited(status) ==> Changed(a, b))
    ensures (forall k :: 0 <= k < |groups| ==> HonestAt(c, groups, k)) <==> NoneUpTo(c, groups, |groups|)
  {
    forall k | 0 <= k < |groups|
      ensures
        var a, b, status := CtxAt(c, groups, k), CtxAt(c, groups, k + 1), RunChild(c, groups).statuses[k];
        && (Degraded(status) ==> b.disk == a.disk && b.dirty == a.dirty)
        && (Edited(status) ==> Changed(a, b))
    {
      GroupEndedNormally(c, groups, k, before);
      GroupIsHonest(c, groups, k, before);
    }
    if NoneUpTo(c, groups, |groups|) {
      forall k | 0 <= k < |groups| ensures HonestAt(c, groups, k) {
        HonestUnlessStray(c, groups, k, before);
      }
    } else {
      var k := FirstSuch(c, groups, |groups|);
      HonestUnlessStray(c, groups, k, before);
    }
  }

  lemma {:induction false} HonestUnlessStray(c: Ctx, groups: seq<Group>, k: nat, before: map<File, Text>)
    requires CtxOk(c, before) && Clean(c) && !RunChild(c, groups).stopped && k < |groups|
    requires NoneUpTo(c, groups, k)
    ensures !WritesNoSuchFile(c, groups, k) ==> HonestAt(c, groups, k)
    ensures WritesNoSuchFile(c, groups, k) ==> !HonestAt(c, groups, k)
  {
    var a := CtxAt(c, groups, k);
    GroupEndedNormally(c, groups, k, before);
    NormalUpTo(c, groups, k);
    if !c.dryRun {
      CleanUpTo(c, groups, k, before);
    }
    if Degraded(RunChild(c, groups).statuses[k]) {
      UnchangedIff(a, RunGroup(a, groups[k]), before);
    }
  }

  /** The one-group run that shows it: a write of a file the tree has not. */
  lemma StrayTextIsKept() returns (c: Ctx, g: Group)
    ensures Clean(c) && CtxOk(c, c.disk) && !c.dryRun && !RunChild(c, [g]).stopped
    ensures RunChild(c, [g]).statuses == [GBlockedByShape] && WritesNoSuchFile(c, [g], 0)
    ensures Look(c, "new") == None && Look(RunChild(c, [g]).ctx, "new") == Some("x") && "new" !in RunChild(c, [g]).ctx.disk
  {
    c := OneFile("a");
    g := Group((seen: seq<Answer>) => WriteFile("new", "x"), 1, false);
    assert Restored(c) == c.disk;
    assert [g][..0] == [] && RunChild(c, []) == Child(c, [], false);
    var o := RunGroup(c, g);
    assert o == Outcome(c.(texts := map["new" := "x"]), NoSuchFile);
    assert !Changed(c, o.ctx);
  }

  // ---- dry run against real run ----

  ghost predicate Twins(c: Ctx, d: Ctx) {
    && (forall f :: Look(c, f) == Look(d, f))
    && c.dirty == d.dirty && c.disk.Keys == d.disk.Keys
  }

  /** A real context and a dry one over files of the tree only, alike to every reader. */
  ghost predicate Matched(c: Ctx, d: Ctx, a: map<File, Text>, b: map<File, Text>) {
    && CtxOk(c, a) && CtxOk(d, b) && Clean(c) && Clean(d) && Twins(c, d) && !c.dryRun && d.dryRun
  }

  lemma MatchedSteps(c: Ctx, d: Ctx, edits: seq<Edit>, a: map<File, Text>, b: map<File, Text>)
    requires Matched(c, d, a, b)
    ensures Matched(ApplySteps(c, edits).ctx, ApplySteps(d, edits).ctx, a, b)
    ensures ApplySteps(c, edits).ending == ApplySteps(d, edits).ending != NoSuchFile
  {
    SameLooksSameTexts(d, c);
    Transaction(c, edits, a);
    Transaction(d, edits, b);
    CleanTransaction(c, edits, a);
    CleanTransaction(d, edits, b);
  }

  lemma MatchedWrite(c: Ctx, d: Ctx, f: File, text: Text, a: map<File, Text>, b: map<File, Text>)
    requires Matched(c, d, a, b) && f in c.disk
    ensures Matched(Write(c, f, text), Write(d, f, text), a, b)
  {
    assert f in d.disk.Keys;
    WriteKeepsOk(c, f, text, a);
    WriteKeepsOk(d, f, text, b);
  }

  lemma MatchedRead(c: Ctx, d: Ctx, f: File, a: map<File, Text>, b: map<File, Text>)
    requires Matched(c, d, a, b)
    ensures Matched(Read(c, f), Read(d, f), a, b) && Look(c, f) == Look(d, f)
  {
    ReadKeepsOk(c, f, a);
    ReadKeepsOk(d, f, b);
  }

  /** A dry write of a file that is not in the tree shows in the files it reports. */
  ghost predicate ShowsStray(d: Ctx) { !(d.dirty <= d.disk.Keys) }

  /** A group sees and does the same in both, up to the first write that only the real one refuses. */
  lemma {:induction false} TwinMoves(
    c: Ctx, d: Ctx, act: seq<Answer> -> Move, seen: seq<Answer>, left: nat, a: map<File, Text>, b: map<File, Text>)
    requires Matched(c, d, a, b)
    ensures
      var wet, dry := RunMoves(c, act, seen, left), RunMoves(d, act, seen, left);
      if wet.ending == NoSuchFile then ShowsStray(dry.ctx)
      else wet.ending == dry.ending && Matched(wet.ctx, dry.ctx, a, b)
    decreases left
  {
    if left > 0 {
      match act(seen)
      case Return(_) =>
      case Raise =>
      case ReadFile(f) =>
        MatchedRead(c, d, f, a, b);
        TwinMoves(Read(c, f), Read(d, f), act, seen + [WasRead(Look(c, f))], left - 1, a, b);
      case WriteFile(f, text) =>
        if f in c.disk {
          MatchedWrite(c, d, f, text, a, b);
          TwinMoves(Write(c, f, text), Write(d, f, text), act, seen + [WasWritten], left - 1, a, b);
        } else {
          DryGoesOn(d, act, seen, left, f, text, b);
        }
      case CallApplySteps(edits) =>
        MatchedSteps(c, d, edits, a, b);
        var o := ApplySteps(c, edits);
        TwinMoves(o.ctx, ApplySteps(d, edits).ctx, act, seen + [Stepped(StatusSeen(o.ending))], left - 1, a, b);
    }
  }

  lemma DryGoesOn(
    d: Ctx, act: seq<Answer> -> Move, seen: seq<Answer>, left: nat, f: File, text: Text, b: map<File, Text>)
    requires CtxOk(d, b) && d.dryRun && left > 0 && act(seen) == WriteFile(f, text) && f !in d.disk
    ensures ShowsStray(RunMoves(d, act, seen, left).ctx)
  {
    var m := Write(d, f, text);
    WriteEffect(d, f, text, b);
    MovesAreSound(m, act, seen + [WasWritten], left - 1, b);
    assert f in m.dirty;
  }

  lemma MatchedChanged(c: Ctx, d: Ctx, r: Ctx, t: Ctx)
    requires Twins(c, d) && Twins(r, t)
    ensures Changed(c, r) <==> Changed(d, t)
  {
    forall f ensures Look(c, f) == Look(d, f) && Look(r, f) == Look(t, f) {
    }
  }

  lemma {:induction false} TwinRuns(c: Ctx, d: Ctx, groups: seq<Group>, k: nat, a: map<File, Text>, b: map<File, Text>)
    requires Matched(c, d, a, b) && k <= |groups| && NoneUpTo(c, groups, k)
    ensures
      var wet, dry := RunChild(c, groups[..k]), RunChild(d, groups[..k]);
      wet.statuses == dry.statuses && wet.stopped == dry.stopped && Matched(wet.ctx, dry.ctx, a, b)
  {
    if k > 0 {
      var g := groups[k - 1];
      TwinRuns(c, d, groups, k - 1, a, b);
      var wet, dry := RunChild(c, groups[..k - 1]), RunChild(d, groups[..k - 1]);
      RunOneMore(c, groups, k - 1);
      RunOneMore(d, groups, k - 1);
      if !wet.stopped {
        assert !WritesNoSuchFile(c, groups, k - 1);
        TwinMoves(wet.ctx, dry.ctx, g.act, [], g.moves, a, b);
        MatchedChanged(wet.ctx, dry.ctx, RunGroup(wet.ctx, g).ctx, RunGroup(dry.ctx, g).ctx);
      }
    }
  }

  lemma {:induction false} StrayStays(d: Ctx, groups: seq<Group>, k: nat, b: map<File, Text>)
    requires CtxOk(d, b) && k <= |groups| && ShowsStray(CtxAt(d, groups, k))
    ensures ShowsStray(RunChild(d, groups).ctx)
    decreases |groups| - k
  {
    if k == |groups| {
      assert groups[..k] == groups;
    } else {
      RunOneMore(d, groups, k);
      RunChildKeepsOk(d, groups[..k], b);
      MovesAreSound(CtxAt(d, groups, k), groups[k].act, [], groups[k].moves, b);
      StrayStays(d, groups, k + 1, b);
    }
  }

  /** Every file that a dry run reports as pending is in the tree. */
  ghost predicate PendingInTree(d: Ctx, groups: seq<Group>) { RunChild(d, groups).ctx.dirty <= d.disk.Keys }

  /** A dry run shows beforehand whether the real run will write a file that is not in the tree. */
  lemma {:induction false} DryRunForetells(
    c: Ctx, d: Ctx, groups: seq<Group>, a: map<File, Text>, b: map<File, Text>)
    requires Matched(c, d, a, b)
    ensures PendingInTree(d, groups) <==> NoneUpTo(c, groups, |groups|)
  {
    RunChildKeepsOk(c, groups, a);
    RunChildKeepsOk(d, groups, b);
    if NoneUpTo(c, groups, |groups|) {
      assert groups[..|groups|] == groups;
      TwinRuns(c, d, groups, |groups|, a, b);
    } else {
      var k := FirstSuch(c, groups, |groups|);
      TwinRuns(c, d, groups, k, a, b);
      TwinMoves(CtxAt(c, groups, k), CtxAt(d, groups, k), groups[k].act, [], groups[k].moves, a, b);
      RunOneMore(d, groups, k);
      StrayStays(d, groups, k + 1, b);
    }
  }

  /**
   A dry run leaves the tree alone, and the real run then does what the dry run showed - the same
   statuses, the same end, the same texts and pending writes - exactly when every file that the
   dry run reports as pending is in the tree: a real write of any other raises, the dry one does
   not look.
   */
  lemma {:induction false} DryRunAgrees(c: Ctx, d: Ctx, groups: seq<Group>, a: map<File, Text>, b: map<File, Text>)
    requires Matched(c, d, a, b)
    ensures
      var wet, dry := RunChild(c, groups), RunChild(d, groups);
      && dry.ctx.disk == d.disk && dry.ctx.snapshots == d.snapshots
      && (wet.statuses == dry.statuses && wet.stopped == dry.stopped && Twins(wet.ctx, dry.ctx) <==>
          PendingInTree(d, groups))
  {
    RunChildKeepsOk(c, groups, a);
    RunChildKeepsOk(d, groups, b);
    DryRunForetells(c, d, groups, a, b);
    if NoneUpTo(c, groups, |groups|) {
      assert groups[..|groups|] == groups;
      TwinRuns(c, d, groups, |groups|, a, b);
    }
  }

  /** By the same sign a caller knows beforehand whether a normal end will be an honest one. */
  lemma {:induction false} HonestyIsForetold(
    c: Ctx, d: Ctx, groups: seq<Group>, a: map<File, Text>, b: map<File, Text>)
    requires Matched(c, d, a, b) && !RunChild(c, groups).stopped
    ensures (forall k :: 0 <= k < |groups| ==> HonestAt(c, groups, k)) <==> PendingInTree(d, groups)
  {
    NormalEndIsHonest(c, groups, a);
    DryRunForetells(c, d, groups, a, b);
  }

  // ---- snapshots ----

  /** A new process over the same tree: empty cache, nothing dirty. */
  function Restart(c: Ctx, dryRun: bool): Ctx {
    Ctx(c.disk, c.snapshots, map[], {}, dryRun)
  }

  ghost function RunAll(c: Ctx, children: seq<(bool, seq<Group>)>): Ctx {
    if children == [] then c
    else
      var last := children[|children| - 1];
      RunChild(Restart(RunAll(c, children[..|children| - 1]), last.0), last.1).ctx
  }

  lemma {:induction false} RunAllKeepsOk(c: Ctx, children: seq<(bool, seq<Group>)>, before: map<File, Text>)
    requires CtxOk(c, before)
    ensures CtxOk(RunAll(c, children), before) && RunAll(c, children).disk.Keys == c.disk.Keys
  {
    if children != [] {
      var last := children[|children| - 1];
      RunAllKeepsOk(c, children[..|children| - 1], before);
      var m := Restart(RunAll(c, children[..|children| - 1]), last.0);
      assert Restored(m) == before;
      RunChildKeepsOk(m, last.1, before);
    }
  }

  /** A dry run, whenever it comes, leaves tree and snapshots alone, whatever its groups do. */
  lemma DryRunLeavesTree(c: Ctx, children: seq<(bool, seq<Group>)>, groups: seq<Group>, before: map<File, Text>)
    requires CtxOk(c, before)
    ensures
      var a, b := RunAll(c, children), RunAll(c, children + [(true, groups)]);
      b.disk == a.disk && b.snapshots == a.snapshots
  {
    RunAllKeepsOk(c, children, before);
    var all := children + [(true, groups)];
    assert all[..|all| - 1] == children;
    var m := Restart(RunAll(c, children), true);
    assert Restored(m) == before;
    RunChildKeepsOk(m, groups, before);
  }

  /** The tree as first found, without snapshots. */
  ghost function Found(disk: map<File, Text>): (c: Ctx)
    ensures CtxOk(c, disk) && c.disk == disk && c.snapshots == map[]
  {
    var c := Ctx(disk, map[], map[], {}, false);
    assert Restored(c) == disk;
    c
  }

  /**
   After any number of runs of any groups, stopped or not, every file that has changed has a
   snapshot of what was first found, and copying the snapshots back gives the tree as first found.
   */
  lemma {:induction false} SnapshotsRestoreTheTree(disk: map<File, Text>, children: seq<(bool, seq<Group>)>)
    ensures
      var r := RunAll(Found(disk), children);
      && Restored(r) == disk
      && (forall f :: f in disk && r.disk[f] != disk[f] ==> f in r.snapshots && r.snapshots[f] == disk[f])
  {
    var r := RunAll(Found(disk), children);
    RunAllKeepsOk(Found(disk), children, disk);
    forall f | f in disk && r.disk[f] != disk[f] ensures f in r.snapshots && r.snapshots[f] == disk[f] {
      assert Restored(r)[f] == disk[f];
    }
  }
}
