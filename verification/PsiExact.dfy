/** Every group is exact after every switch, although the walks stop early. */
module PsiExact {
  import opened Wrappers
  import opened CgroupTree
  import opened Psi

  /**
   Going up from g, the first group marked for a task in p is the lowest common ancestor: the
   groups above it are the ancestors g and p share.
   */
  lemma {:induction false} FirstMarkedIsCommon(t: Tree, groups: seq<Groupc>, p: nat, g: nat, d: nat)
    requires |groups| == |t| && p < |t| && g < |t|
    requires forall e :: 0 <= e < |t| ==> (groups[e].oncpu <==> Below(t, e, p))
    ensures var c := FirstMarked(t, groups, g);
      && (c.Some? ==> Below(t, c.value, g) && Below(t, c.value, p))
      && (c.Some? && Below(t, d, c.value) <==> Below(t, d, g) && Below(t, d, p))
    decreases g
  {
    var c := FirstMarked(t, groups, g);
    if groups[g].oncpu {
      if Below(t, d, g) {
        BelowTransitive(t, d, g, p);
      }
    } else {
      if t[g].Some? {
        FirstMarkedIsCommon(t, groups, p, t[g].value, d);
        FirstMarkedIsOlder(t, groups, t[g].value);
        if c.Some? {
          YoungerIsNotAbove(t, g, c.value);
        }
      }
    }
  }

  lemma {:induction false} FirstMarkedIsOlder(t: Tree, groups: seq<Groupc>, g: nat)
    requires |groups| == |t| && g < |t|
    ensures FirstMarked(t, groups, g).Some? ==> FirstMarked(t, groups, g).value <= g
    decreases g
  {
    if !groups[g].oncpu && t[g].Some? {
      FirstMarkedIsOlder(t, groups, t[g].value);
    }
  }

  // ---- the counts ----

  lemma MembersAfterFlags(s: State, t: Tid, clear: Flags, add: Flags, f: int, d: nat)
    requires Shape(s) && t in s.tasks
    requires (f in clear ==> f in s.tasks[t].flags) && (f in add ==> f !in s.tasks[t].flags && f !in clear)
    ensures
      |Members(s.tree, WithFlags(s, t, clear, add).tasks, f, d)| ==
        |Members(s.tree, s.tasks, f, d)|
        + if Below(s.tree, d, s.tasks[t].group) then (if f in add then 1 else 0) - (if f in clear then 1 else 0) else 0
  {
    var before, after := Members(s.tree, s.tasks, f, d), Members(s.tree, WithFlags(s, t, clear, add).tasks, f, d);
    if Below(s.tree, d, s.tasks[t].group) && f in add {
      assert after == before + {t} && t !in before;
    } else if Below(s.tree, d, s.tasks[t].group) && f in clear {
      assert after == before - {t} && t in before;
    } else {
      assert after == before;
    }
  }

  /** A task may gain what it lacks and lose what it has. */
  predicate Fits(x: Task, clear: Flags, add: Flags) { clear <= x.flags && add !! x.flags && add !! clear }

  lemma CountedIsExact(s: State, t: Tid, clear: Flags, add: Flags, d: nat)
    requires Shape(s) && t in s.tasks && Fits(s.tasks[t], clear, add) && d < |s.tree| && CountsExact(s, d)
    ensures
      forall f :: 0 <= f < NR_PSI_TASK_COUNTS ==>
        |Members(s.tree, WithFlags(s, t, clear, add).tasks, f, d)| ==
          if Below(s.tree, d, s.tasks[t].group) then Counted(s.groups[d].tasks, clear, add)[f] else s.groups[d].tasks[f]
  {
    forall f | 0 <= f < NR_PSI_TASK_COUNTS
      ensures |Members(s.tree, WithFlags(s, t, clear, add).tasks, f, d)| ==
        if Below(s.tree, d, s.tasks[t].group) then Counted(s.groups[d].tasks, clear, add)[f] else s.groups[d].tasks[f]
    {
      MembersAfterFlags(s, t, clear, add, f, d);
      if Below(s.tree, d, s.tasks[t].group) && f in clear {
        assert t in Members(s.tree, s.tasks, f, d);
      }
    }
  }

  // ---- enqueue, dequeue, memstall: a walk to the root ----

  /** What the callers of psi_task_change() promise. */
  ghost predicate ChangeOk(s: State, t: Tid, clear: Flags, add: Flags, inMemstall: bool, inIowait: bool)
    requires Shape(s)
  {
    && t in s.tasks && Fits(s.tasks[t], clear, add) && ONCPU !in clear && ONCPU !in add
    && TaskOk(WithFlags(s.(tasks := s.tasks[t := s.tasks[t].(inMemstall := inMemstall, inIowait := inIowait)]),
        t, clear, add), t)
  }

  lemma ChangeKeepsExact(s: State, t: Tid, clear: Flags, add: Flags, inMemstall: bool, inIowait: bool)
    requires Exact(s) && ChangeOk(s, t, clear, add, inMemstall, inIowait)
    ensures Exact(Change(s, t, clear, add, inMemstall, inIowait))
  {
    var n := s.(tasks := s.tasks[t := s.tasks[t].(inMemstall := inMemstall, inIowait := inIowait)]);
    var r := Change(s, t, clear, add, inMemstall, inIowait);
    forall d | 0 <= d < |s.tree| ensures GroupExact(r, d) {
      assert GroupExact(s, d) && TaskOk(s, t);
      SameMembers(s, n, d);
      CountedIsExact(n, t, clear, add, d);
      assert r.tasks == WithFlags(n, t, clear, add).tasks;
    }
    forall q | q in r.tasks ensures TaskOk(r, q) {
      assert TaskOk(s, q);
    }
  }

  /** Only the flags and cgroups of tasks matter to the counts. */
  lemma SameMembers(s: State, n: State, d: nat)
    requires Shape(s) && Shape(n) && n.tree == s.tree && n.groups == s.groups && n.tasks.Keys == s.tasks.Keys
    requires forall q :: q in s.tasks ==> n.tasks[q].flags == s.tasks[q].flags && n.tasks[q].group == s.tasks[q].group
    requires d < |s.tree| && CountsExact(s, d)
    ensures CountsExact(n, d)
  {
    forall f ensures Members(n.tree, n.tasks, f, d) == Members(s.tree, s.tasks, f, d) {
    }
  }

  // ---- task switch ----

  /** The scheduler switches to another, runnable task; only a running task goes to sleep. */
  predicate SwitchOk(s: State, next: Option<Tid>)
    requires Shape(s)
  {
    next != s.curr && (next.Some? ==> next.value in s.tasks && NR_RUNNING in s.tasks[next.value].flags)
  }

  predicate OnNextChain(s: State, next: Option<Tid>, d: nat)
    requires Shape(s) && (next.Some? ==> next.value in s.tasks)
  {
    next.Some? && Below(s.tree, d, s.tasks[next.value].group)
  }

  lemma {:induction false} NoneMarked(t: Tree, groups: seq<Groupc>, g: nat)
    requires |groups| == |t| && g < |t| && forall e :: 0 <= e < |t| ==> !groups[e].oncpu
    ensures FirstMarked(t, groups, g) == None
    decreases g
  {
    if t[g].Some? {
      NoneMarked(t, groups, t[g].value);
    }
  }

  /** What lies above the stopping point is exactly what the two chains share. */
  lemma CommonIsShared(s: State, next: Option<Tid>, d: nat)
    requires Exact(s) && (next.Some? ==> next.value in s.tasks)
    ensures
      var c := Common(s, next);
      c.Some? && Below(s.tree, d, c.value) <==> OnNextChain(s, next, d) && OnCurrChain(s, d)
  {
    forall e | 0 <= e < |s.tree| ensures s.groups[e].oncpu <==> OnCurrChain(s, e) {
      assert GroupExact(s, e);
    }
    if next.Some? {
      var n := s.tasks[next.value].group;
      if s.curr.Some? {
        FirstMarkedIsCommon(s.tree, s.groups, s.tasks[s.curr.value].group, n, d);
      } else {
        NoneMarked(s.tree, s.groups, n);
      }
    }
  }

  lemma SwitchInGroup(s: State, next: Option<Tid>, d: nat)
    requires Exact(s) && (next.Some? ==> next.value in s.tasks) && d < |s.tree|
    ensures
      var m := SwitchIn(s, next);
      m.groups[d] ==
        if OnNextChain(s, next, d) && !OnCurrChain(s, d) then GroupChange(m, d, s.groups[d], {}, {ONCPU}) else s.groups[d]
  {
    CommonIsShared(s, next, d);
  }

  /** prev's flags and next's, once both are up to date, agree up to ONCPU. */
  predicate SameFlags(s: State, next: Option<Tid>, sleep: bool)
    requires Shape(s) && s.curr.Some? && (next.Some? ==> next.value in s.tasks)
  {
    var x := s.tasks[s.curr.value];
    next.Some? && !Differ(x.flags - ClearFor(x, sleep) + AddFor(x, sleep), s.tasks[next.value].flags + {ONCPU})
  }

  lemma SwitchOutAt(m: State, prev: Tid, sleep: bool, common: Option<nat>, d: nat)
    requires Shape(m) && prev in m.tasks && (common.Some? ==> common.value < |m.tree|) && d < |m.tree|
    ensures
      var x, r := m.tasks[prev], SwitchOut(m, prev, sleep, common);
      var clear, add := ClearFor(x, sleep), AddFor(x, sleep);
      var next := if m.curr.Some? then r.tasks[m.curr.value].flags else {};
      && r.tasks == WithFlags(m, prev, clear, add).tasks && r.curr == m.curr && r.tree == m.tree
      && r.enabled == m.enabled && r.rules == m.rules
      && r.groups[d] ==
         if OnPath(m.tree, x.group, common, d) then GroupChange(r, d, m.groups[d], clear, add)
         else if common.Some? && Below(m.tree, d, common.value) && Differ(r.tasks[prev].flags, next)
         then GroupChange(r, d, m.groups[d], clear - {ONCPU}, add)
         else m.groups[d]
  {
  }

  lemma SwitchInTasks(s: State, next: Option<Tid>)
    requires Shape(s) && (next.Some? ==> next.value in s.tasks)
    ensures
      var m := SwitchIn(s, next);
      && m.tasks == (if next.None? then s.tasks
        else s.tasks[next.value := s.tasks[next.value].(flags := s.tasks[next.value].flags - {} + {ONCPU})])
      && m.tree == s.tree && m.curr == next && m.enabled == s.enabled && m.rules == s.rules
  {
  }

  /** Below the common ancestor prev's whole change is applied, above it what is left, or nothing. */
  ghost predicate SwitchedOut(s: State, next: Option<Tid>, sleep: bool, d: nat)
    requires Shape(s) && s.curr.Some? && (next.Some? ==> next.value in s.tasks) && d < |s.tree|
  {
    var m, r := SwitchIn(s, next), Switch(s, next, sleep);
    var x := s.tasks[s.curr.value];
    var clear, add := ClearFor(x, sleep), AddFor(x, sleep);
    r.groups[d] ==
      if !OnCurrChain(s, d) then m.groups[d]
      else if !OnNextChain(s, next, d) then GroupChange(r, d, m.groups[d], clear, add)
      else if SameFlags(s, next, sleep) then m.groups[d]
      else GroupChange(r, d, m.groups[d], clear - {ONCPU}, add)
  }

  lemma SwitchOutGroupIn(s: State, next: Option<Tid>, sleep: bool, d: nat)
    requires Shape(s) && s.curr.Some? && SwitchOk(s, next) && d < |s.tree|
    requires
      var c := Common(s, next);
      c.Some? && Below(s.tree, d, c.value) <==> OnNextChain(s, next, d) && OnCurrChain(s, d)
    ensures SwitchedOut(s, next, sleep, d)
  {
    SwitchInTasks(s, next);
    SwitchOutAt(SwitchIn(s, next), s.curr.value, sleep, Common(s, next), d);
  }

  lemma SwitchOutGroup(s: State, next: Option<Tid>, sleep: bool, d: nat)
    requires Exact(s) && s.curr.Some? && SwitchOk(s, next) && d < |s.tree|
    ensures SwitchedOut(s, next, sleep, d)
  {
    CommonIsShared(s, next, d);
    SwitchOutGroupIn(s, next, sleep, d);
  }

  lemma UncountedFlags(tasks: seq<int>, clear: Flags, add: Flags)
    requires |tasks| == NR_PSI_TASK_COUNTS
    ensures Counted(tasks, {}, {ONCPU}) == tasks && Counted(tasks, {ONCPU}, {}) == tasks
    ensures Counted(tasks, {}, {}) == tasks
    ensures Counted(tasks, clear - {ONCPU}, add) == Counted(tasks, clear, add)
  {
  }

  lemma SwitchFits(s: State, sleep: bool)
    requires Exact(s) && s.curr.Some?
    ensures var x := s.tasks[s.curr.value]; Fits(x, ClearFor(x, sleep), AddFor(x, sleep))
  {
    assert TaskOk(s, s.curr.value);
  }

  /**
   When the flags agree the walk may stop: prev cannot have gone to sleep, so no count above the
   common ancestor changes, and both tasks are in a memstall or neither is.
   */
  lemma SameFlagsMeansNothingToDo(s: State, next: Option<Tid>, sleep: bool)
    requires Exact(s) && s.curr.Some? && SwitchOk(s, next) && SameFlags(s, next, sleep)
    ensures !sleep && s.tasks[s.curr.value].inMemstall == s.tasks[next.value].inMemstall
  {
    var x, y := s.tasks[s.curr.value], s.tasks[next.value];
    assert TaskOk(s, s.curr.value) && TaskOk(s, next.value);
    var a := x.flags - ClearFor(x, sleep) + AddFor(x, sleep);
    assert NR_RUNNING in y.flags + {ONCPU} - {ONCPU} && NR_RUNNING in a - {ONCPU};
    assert NR_MEMSTALL_RUNNING in a - {ONCPU} <==> NR_MEMSTALL_RUNNING in y.flags + {ONCPU} - {ONCPU};
  }

  lemma SwitchTasksAre(s: State, next: Option<Tid>, sleep: bool)
    requires Shape(s) && (next.Some? ==> next.value in s.tasks) && next != s.curr
    ensures
      var r := Switch(s, next, sleep);
      && r.curr == next && r.tasks.Keys == s.tasks.Keys
      && (forall t :: t in s.tasks ==> r.tasks[t] == s.tasks[t].(flags :=
            if s.curr == Some(t) then
              s.tasks[t].flags - ClearFor(s.tasks[t], sleep) + AddFor(s.tasks[t], sleep)
            else if next == Some(t) then s.tasks[t].flags + {ONCPU}
            else s.tasks[t].flags))
  {
    SwitchInTasks(s, next);
    if s.curr.Some? && |s.tree| > 0 {
      SwitchOutAt(SwitchIn(s, next), s.curr.value, sleep, Common(s, next), 0);
    }
  }

  lemma SwitchTasks(s: State, next: Option<Tid>, sleep: bool)
    requires Exact(s) && SwitchOk(s, next)
    ensures forall t :: t in s.tasks ==> TaskOk(Switch(s, next, sleep), t)
  {
    SwitchTasksAre(s, next, sleep);
    forall t | t in s.tasks ensures TaskOk(Switch(s, next, sleep), t) {
      assert TaskOk(s, t);
    }
  }

  /** The counts once next runs, before the old task leaves: only ONCPU has moved, which nobody counts. */
  lemma StartCounts(s: State, next: Option<Tid>, d: nat)
    requires Exact(s) && SwitchOk(s, next) && d < |s.tree|
    ensures CountsExact(if next.None? then s else WithFlags(s, next.value, {}, {ONCPU}), d)
  {
    assert GroupExact(s, d);
    if next.Some? {
      assert TaskOk(s, next.value);
      CountedIsExact(s, next.value, {}, {ONCPU}, d);
      UncountedFlags(s.groups[d].tasks, {}, {});
    }
  }

  lemma SwitchCounts(s: State, next: Option<Tid>, sleep: bool, d: nat)
    requires Exact(s) && SwitchOk(s, next) && d < |s.tree|
    ensures
      var r := Switch(s, next, sleep);
      forall f :: 0 <= f < NR_PSI_TASK_COUNTS ==>
        |Members(r.tree, r.tasks, f, d)| ==
          if OnCurrChain(s, d)
          then Counted(s.groups[d].tasks, ClearFor(s.tasks[s.curr.value], sleep), AddFor(s.tasks[s.curr.value], sleep))[f]
          else s.groups[d].tasks[f]
  {
    var n := if next.None? then s else WithFlags(s, next.value, {}, {ONCPU});
    StartCounts(s, next, d);
    if s.curr.Some? {
      var x := s.tasks[s.curr.value];
      SwitchFits(s, sleep);
      CountedIsExact(n, s.curr.value, ClearFor(x, sleep), AddFor(x, sleep), d);
    }
  }

  lemma SwitchInStalled(s: State, next: Option<Tid>, sleep: bool)
    requires Exact(s) && SwitchOk(s, next)
    ensures
      var m, r := SwitchIn(s, next), Switch(s, next, sleep);
      r.rules == m.rules && r.enabled == m.enabled && r.tree == m.tree && (Stalled(r) <==> Stalled(m))
  {
    SwitchTasksAre(s, next, sleep);
    SwitchInTasks(s, next);
  }

  /** What one switch does to one group, whichever walks met it. */
  lemma SwitchGroupIs(s: State, next: Option<Tid>, sleep: bool, d: nat)
    requires Exact(s) && SwitchOk(s, next) && d < |s.tree|
    ensures
      var r, g := Switch(s, next, sleep), s.groups[d];
      if OnCurrChain(s, d) then
        var x := s.tasks[s.curr.value];
        var clear, add := ClearFor(x, sleep), AddFor(x, sleep);
        r.groups[d] ==
          if !OnNextChain(s, next, d) then GroupChange(r, d, g, clear, add)
          else if SameFlags(s, next, sleep) then g
          else GroupChange(r, d, g, clear - {ONCPU}, add)
      else r.groups[d] == if OnNextChain(s, next, d) then GroupChange(r, d, g, {}, {ONCPU}) else g
  {
    SwitchInGroup(s, next, d);
    SwitchInStalled(s, next, sleep);
    if s.curr.Some? {
      SwitchOutGroup(s, next, sleep, d);
    }
  }

  lemma SwitchState(s: State, next: Option<Tid>, sleep: bool)
    requires Exact(s) && SwitchOk(s, next)
    ensures
      var r := Switch(s, next, sleep);
      && r.tree == s.tree && r.curr == next && r.enabled == s.enabled && r.rules == s.rules
      && (Stalled(r) <==> next.Some? && s.tasks[next.value].inMemstall)
      && (forall d :: 0 <= d < |s.tree| ==> (OnCurrChain(r, d) <==> OnNextChain(s, next, d)))
  {
  }

  lemma SwitchedCounts(s: State, next: Option<Tid>, sleep: bool, d: nat)
    requires Exact(s) && SwitchOk(s, next) && d < |s.tree|
    ensures CountsExact(Switch(s, next, sleep), d)
  {
    SwitchCounts(s, next, sleep, d);
    SwitchGroupIs(s, next, sleep, d);
    UncountedFlags(s.groups[d].tasks, {}, {});
    if s.curr.Some? {
      var x := s.tasks[s.curr.value];
      UncountedFlags(s.groups[d].tasks, ClearFor(x, sleep), AddFor(x, sleep));
      if SameFlags(s, next, sleep) {
        SameFlagsMeansNothingToDo(s, next, sleep);
      }
    }
  }

  lemma SwitchedBits(s: State, next: Option<Tid>, sleep: bool, d: nat)
    requires Exact(s) && SwitchOk(s, next) && d < |s.tree|
    ensures
      var r := Switch(s, next, sleep);
      && (r.groups[d].oncpu <==> OnCurrChain(r, d))
      && r.groups[d].states == States(r, d, r.groups[d].tasks, r.groups[d].oncpu)
  {
    assert GroupExact(s, d);
    SwitchState(s, next, sleep);
    SwitchGroupIs(s, next, sleep, d);
    if s.curr.Some? && SameFlags(s, next, sleep) {
      SameFlagsMeansNothingToDo(s, next, sleep);
    }
  }

  /** ONCPU and every level's counts and states are exact after every task switch. */
  lemma SwitchKeepsExact(s: State, next: Option<Tid>, sleep: bool)
    requires Exact(s) && SwitchOk(s, next)
    ensures Exact(Switch(s, next, sleep))
  {
    SwitchTasks(s, next, sleep);
    forall d | 0 <= d < |s.tree| ensures GroupExact(Switch(s, next, sleep), d) {
      SwitchedCounts(s, next, sleep, d);
      SwitchedBits(s, next, sleep, d);
    }
  }

  /**
   What a switch does to the tasks: the next one is on the cpu, the previous one is not and, if it
   goes to sleep, no longer runs either and may wait for I/O; nobody else is concerned.
   */
  lemma SwitchedTasks(s: State, next: Option<Tid>, sleep: bool, t: Tid)
    requires Exact(s) && SwitchOk(s, next) && t in s.tasks
    ensures
      var r, x := Switch(s, next, sleep), s.tasks[t];
      && r.curr == next && r.tasks.Keys == s.tasks.Keys && r.tasks[t] == x.(flags := r.tasks[t].flags)
      && (forall f :: f in r.tasks[t].flags <==>
            if f == ONCPU then next == Some(t)
            else if s.curr == Some(t) && sleep then
              (f in x.flags && f != NR_RUNNING && f != NR_MEMSTALL_RUNNING) || (f == NR_IOWAIT && x.inIowait)
            else f in x.flags)
  {
    SwitchTasksAre(s, next, sleep);
    assert TaskOk(s, t);
    LeavingFlags(s.tasks[t], sleep);
  }

  /**
   What a group shows after a switch, going by the tasks alone: the ONCPU bit is set where the next
   task runs below it, and the states are those of the counts, with a memstall of the running task
   noticed just there; a group that is switched off shows none.
   */
  lemma SwitchedGroup(s: State, next: Option<Tid>, sleep: bool, d: nat)
    requires Exact(s) && SwitchOk(s, next) && d < |s.tree|
    ensures
      var r := Switch(s, next, sleep);
      var runs := next.Some? && Below(s.tree, d, s.tasks[next.value].group);
      && (r.groups[d].oncpu <==> runs)
      && r.groups[d].states ==
           if !s.enabled[d] then 0
           else s.rules(r.groups[d].tasks, runs, runs && s.tasks[next.value].inMemstall)
  {
    SwitchKeepsExact(s, next, sleep);
    SwitchTasksAre(s, next, sleep);
    SwitchKeepsSetup(s, next, sleep);
    assert GroupExact(Switch(s, next, sleep), d);
  }

  lemma SwitchKeepsSetup(s: State, next: Option<Tid>, sleep: bool)
    requires Shape(s) && (next.Some? ==> next.value in s.tasks)
    ensures
      var r := Switch(s, next, sleep);
      r.tree == s.tree && r.enabled == s.enabled && r.rules == s.rules
  {
  }

  lemma LeavingFlags(x: Task, sleep: bool)
    requires NR_MEMSTALL_RUNNING in x.flags ==> x.inMemstall
    ensures forall f :: f in x.flags - ClearFor(x, sleep) + AddFor(x, sleep) <==>
      if f == ONCPU then false
      else if sleep then
        (f in x.flags && f != NR_RUNNING && f != NR_MEMSTALL_RUNNING) || (f == NR_IOWAIT && x.inIowait)
      else f in x.flags
  {
  }

  /** A change sets and clears just the flags it is called with, of just that task. */
  lemma ChangedTasks(s: State, t: Tid, clear: Flags, add: Flags, inMemstall: bool, inIowait: bool, u: Tid)
    requires Shape(s) && t in s.tasks && u in s.tasks
    ensures
      var r := Change(s, t, clear, add, inMemstall, inIowait);
      && r.curr == s.curr && r.tasks.Keys == s.tasks.Keys && r.tree == s.tree && r.enabled == s.enabled
      && (u != t ==> r.tasks[u] == s.tasks[u])
      && r.tasks[t].group == s.tasks[t].group
      && r.tasks[t].inMemstall == inMemstall && r.tasks[t].inIowait == inIowait
      && (forall f :: f in r.tasks[t].flags <==> (f in s.tasks[t].flags && f !in clear) || f in add)
  {
  }

  // ---- runs ----

  datatype Step =
    | Switched(next: Option<Tid>, sleep: bool)
    | Changed(t: Tid, clear: Flags, add: Flags, inMemstall: bool, inIowait: bool)

  ghost predicate StepOk(s: State, step: Step)
    requires Shape(s)
  {
    match step
    case Switched(next, sleep) => SwitchOk(s, next)
    case Changed(t, clear, add, inMemstall, inIowait) => ChangeOk(s, t, clear, add, inMemstall, inIowait)
  }

  ghost function Next(s: State, step: Step): State
    requires Shape(s) && StepOk(s, step)
  {
    match step
    case Switched(next, sleep) => Switch(s, next, sleep)
    case Changed(t, clear, add, inMemstall, inIowait) => Change(s, t, clear, add, inMemstall, inIowait)
  }

  ghost predicate IsRun(run: seq<State>, steps: seq<Step>) {
    && |run| == |steps| + 1
    && (forall k :: 0 <= k < |steps| ==>
          Shape(run[k]) && StepOk(run[k], steps[k]) && run[k + 1] == Next(run[k], steps[k]))
  }

  /** Over any run of switches and changes each group keeps telling the truth. */
  lemma {:induction false} RunKeepsExact(run: seq<State>, steps: seq<Step>, k: nat)
    requires IsRun(run, steps) && k <= |steps| && Exact(run[0])
    ensures Exact(run[k])
  {
    if k > 0 {
      RunKeepsExact(run, steps, k - 1);
      var s, step := run[k - 1], steps[k - 1];
      match step
      case Switched(next, sleep) => SwitchKeepsExact(s, next, sleep);
      case Changed(t, clear, add, inMemstall, inIowait) =>
        ChangeKeepsExact(s, t, clear, add, inMemstall, inIowait);
    }
  }
}
