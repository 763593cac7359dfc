/** The context object of a graft run, its caches updated in place. */
module GraftContext {
  import opened Wrappers
  import opened GraftText
  import opened GraftEngine
  import opened GraftRuns
  import opened GraftChild

  class Context {
    var disk: map<File, Text>
    var snapshots: map<File, Text>
    var texts: map<File, Text>
    var dirty: set<File>
    const dryRun: bool

    ghost function View(): Ctx
      reads this
    {
      Ctx(disk, snapshots, texts, dirty, dryRun)
    }

    constructor (disk: map<File, Text>, snapshots: map<File, Text>, dryRun: bool)
      ensures View() == Ctx(disk, snapshots, map[], {}, dryRun)
    {
      this.disk, this.snapshots, this.dryRun := disk, snapshots, dryRun;
      texts, dirty := map[], {};
    }

    /** read(); None is FileNotFoundError. */
    method Read(rel: File) returns (r: Option<Text>)
      modifies this`texts
      ensures View() == GraftEngine.Read(old(View()), rel)
      ensures r == Look(old(View()), rel)
    {
      if rel !in texts {
        if rel !in disk {
          return None;
        }
        texts := texts[rel := disk[rel]];
      }
      r := Some(texts[rel]);
    }

    /** write(); false is FileNotFoundError. */
    method Write(rel: File, text: Text) returns (ok: bool)
      modifies this`disk, this`snapshots, this`texts, this`dirty
      ensures View() == GraftEngine.Write(old(View()), rel, text)
      ensures ok <==> !Raises(old(View()), rel)
    {
      texts := texts[rel := text];
      if !dryRun {
        if rel !in disk {
          return false;
        }
        if rel !in snapshots {
          snapshots := snapshots[rel := disk[rel]];
        }
        disk := disk[rel := text];
      }
      dirty := dirty + {rel};
      return true;
    }

    /** apply_steps() */
    method Apply(edits: seq<Edit>) returns (ending: Ending)
      modifies this`disk, this`snapshots, this`texts, this`dirty
      ensures Outcome(View(), ending) == ApplySteps(old(View()), edits)
    {
      ghost var c := View();
      ScanFrame(c, edits);
      var pending: map<File, Text>, order: seq<File>, results: seq<Status> := map[], [], [];
      for k := 0 to |edits|
        invariant Scan(View(), pending, order, results, false) == ScanAll(c, edits[..k])
      {
        var e := edits[k];
        assert edits[..k + 1][..k] == edits[..k];
        var read := Read(e.file);
        var result := MissingAnchor;
        if read.Some? {
          var text := if e.file in pending then pending[e.file] else read.value;
          var q := ReplaceOnce(text, e.old_, e.new_);
          result := q.status;
          if result != MissingAnchor {
            order := if e.file in pending then order else order + [e.file];
            pending := pending[e.file := q.text];
          }
        }
        if result == MissingAnchor && e.required {
          FailedStays(c, edits, k + 1);
          return Missed;
        }
        results := results + [result];
      }
      assert edits[..|edits|] == edits;
      var ok := WriteOut(order, pending);
      ending := if ok then Returned(StatusOf(results)) else NoSuchFile;
    }

    /** if text != ctx.read(rel): ctx.write(rel, text) */
    method WriteOne(rel: File, text: Text) returns (ok: bool)
      requires Look(View(), rel).Some?
      modifies this`disk, this`snapshots, this`texts, this`dirty
      ensures Written(View(), !ok) == WriteIfChanged(old(View()), rel, text)
    {
      ReadThenWrite(View(), rel, text);
      ok := true;
      var read := Read(rel);
      if read != Some(text) {
        ok := Write(rel, text);
      }
    }

    /** The second loop of apply_steps(); false when a write raised. */
    method WriteOut(order: seq<File>, pending: map<File, Text>) returns (ok: bool)
      requires forall f :: f in order ==> f in pending && f in texts
      modifies this`disk, this`snapshots, this`texts, this`dirty
      ensures Written(View(), !ok) == WriteBack(old(View()), order, pending)
    {
      ghost var c := View();
      for k := 0 to |order|
        invariant c.texts.Keys <= texts.Keys
        invariant Written(View(), false) == WriteBack(c, order[..k], pending)
      {
        assert order[..k + 1][..k] == order[..k] && order[k] in order;
        ok := WriteOne(order[k], pending[order[k]]);
        if !ok {
          RaisedStays(c, order, pending, k + 1);
          return;
        }
      }
      assert order[..|order|] == order;
      ok := true;
    }

    /** A group's function, move by move. */
    method Run(g: Group) returns (ending: Ending)
      modifies this`disk, this`snapshots, this`texts, this`dirty
      ensures Outcome(View(), ending) == RunGroup(old(View()), g)
    {
      ghost var c := View();
      var seen: seq<Answer>, left := [], g.moves;
      while left > 0
        invariant RunMoves(View(), g.act, seen, left) == RunGroup(c, g)
      {
        match g.act(seen) {
          case Return(status) => return Returned(status);
          case Raise => return Failed;
          case ReadFile(f) =>
            var text := Read(f);
            seen := seen + [WasRead(text)];
          case WriteFile(f, text) =>
            var ok := Write(f, text);
            if !ok {
              return NoSuchFile;
            }
            seen := seen + [WasWritten];
          case CallApplySteps(edits) =>
            ending := Apply(edits);
            if ending == NoSuchFile {
              return;
            }
            seen := seen + [Stepped(StatusSeen(ending))];
        }
        left := left - 1;
      }
      ending := if g.act(seen).Return? then Returned(g.act(seen).status) else Failed;
    }

    /** changed in run_child(), from the texts of the files that were pending before the group. */
    method HasChanged(before: map<File, Text>, ghost c: Ctx) returns (r: bool)
      requires before.Keys == c.dirty && c.dirty <= c.texts.Keys && dirty <= texts.Keys
      requires forall f :: f in before ==> before[f] == c.texts[f]
      ensures r <==> Changed(c, View())
    {
      r := exists f :: f in dirty && (f !in before || texts[f] != before[f]);
      assert forall f :: f in dirty ==>
        ((f !in before || texts[f] != before[f]) <==> Look(View(), f) != if f in c.dirty then Look(c, f) else None);
    }

    /** The body of the loop of run_child(); None when a hard group raised. */
    method RunChecked(g: Group, ghost before: map<File, Text>) returns (status: Option<GroupStatus>, stops: bool)
      requires CtxOk(View(), before)
      modifies this`disk, this`snapshots, this`texts, this`dirty
      ensures
        var o := RunGroup(old(View()), g);
        && View() == o.ctx && CtxOk(View(), before)
        && (g.hard && !o.ending.Returned? ==> status == None && stops)
        && (!(g.hard && !o.ending.Returned?) ==>
              status == Some(Reported(o.ending)) && stops == Refused(old(View()), View(), Reported(o.ending)))
    {
      ghost var c := View();
      MovesAreSound(c, g.act, [], g.moves, before);
      var pending := map f | f in dirty :: texts[f];
      var ending := Run(g);
      if g.hard && !ending.Returned? {
        return None, true;
      }
      var changed := HasChanged(pending, c);
      status := Some(Reported(ending));
      stops := if Degraded(status.value) then changed else Edited(status.value) && !changed;
    }

    /** The loop of run_child(). */
    method RunChild(groups: seq<Group>, ghost before: map<File, Text>)
      returns (statuses: seq<GroupStatus>, stopped: bool)
      requires CtxOk(View(), before)
      modifies this`disk, this`snapshots, this`texts, this`dirty
      ensures Child(View(), statuses, stopped) == GraftChild.RunChild(old(View()), groups)
    {
      ghost var c := View();
      statuses, stopped := [], false;
      for k := 0 to |groups|
        invariant CtxOk(View(), before) && !stopped
        invariant Child(View(), statuses, false) == GraftChild.RunChild(c, groups[..k])
      {
        RunOneMore(c, groups, k);
        var status;
        status, stopped := RunChecked(groups[k], before);
        statuses := if status.Some? then statuses + [status.value] else statuses;
        if stopped {
          StoppedStays(c, groups, k + 1);
          return;
        }
      }
      assert groups[..|groups|] == groups;
    }
  }

  lemma {:induction false} StoppedStays(c: Ctx, groups: seq<Group>, k: nat)
    requires k <= |groups| && GraftChild.RunChild(c, groups[..k]).stopped
    ensures GraftChild.RunChild(c, groups) == GraftChild.RunChild(c, groups[..k])
  {
    if k < |groups| {
      assert groups[..|groups| - 1][..k] == groups[..k];
      StoppedStays(c, groups[..|groups| - 1], k);
    } else {
      assert groups[..k] == groups;
    }
  }

  /** The second loop ends where a write raises. */
  lemma {:induction false} RaisedStays(c: Ctx, order: seq<File>, pending: map<File, Text>, k: nat)
    requires k <= |order| && (forall f :: f in order ==> f in pending)
    requires WriteBack(c, order[..k], pending).raised
    ensures WriteBack(c, order, pending) == WriteBack(c, order[..k], pending)
  {
    if k < |order| {
      assert order[..|order| - 1][..k] == order[..k];
      RaisedStays(c, order[..|order| - 1], pending, k);
    } else {
      assert order[..k] == order;
    }
  }

  lemma ReadThenWrite(c: Ctx, f: File, text: Text)
    requires Look(c, f).Some?
    ensures GraftEngine.Write(GraftEngine.Read(c, f), f, text) == GraftEngine.Write(c, f, text)
  {
    assert c.texts[f := Look(c, f).value][f := text] == c.texts[f := text];
  }

  /** The scan returns where it fails. */
  lemma {:induction false} FailedStays(c: Ctx, edits: seq<Edit>, k: nat)
    requires k <= |edits| && ScanAll(c, edits[..k]).failed
    ensures ScanAll(c, edits) == ScanAll(c, edits[..k])
  {
    if k < |edits| {
      assert edits[..|edits| - 1][..k] == edits[..k];
      FailedStays(c, edits[..|edits| - 1], k);
    } else {
      assert edits[..k] == edits;
    }
  }
}
