/** The walks of psi.c over the groups of one cpu, in place. */
module PsiCpu {
  import opened Wrappers
  import opened CgroupTree
  import opened Psi
  import opened PsiExact

  class Cpu {
    const tree: Tree
    const rules: Rules
    const enabled: seq<bool>
    const groups: array<Groupc>
    var tasks: map<Tid, Task>
    var curr: Option<Tid>

    ghost function View(): State
      reads this, groups
    {
      State(tree, rules, enabled, groups[..], tasks, curr)
    }

    /** No task yet: every count zero, no group marked. */
    constructor (tree: Tree, rules: Rules, enabled: seq<bool>)
      requires |enabled| == |tree|
      ensures this.tree == tree && this.rules == rules && this.enabled == enabled
      ensures fresh(groups) && tasks == map[] && curr == None
      ensures Exact(View())
    {
      this.tree, this.rules, this.enabled := tree, rules, enabled;
      var zero := [0, 0, 0, 0];
      groups := new Groupc[|tree|](d requires 0 <= d < |tree| =>
        Groupc(zero, false, if enabled[d] then rules(zero, false, false) else 0));
      tasks, curr := map[], None;
      new;
      forall d | 0 <= d < |tree| ensures GroupExact(View(), d) {
        forall f ensures Members(tree, tasks, f, d) == {} {
        }
      }
    }

    /** psi_group_change() */
    method GroupChange(d: nat, clear: Flags, add: Flags)
      requires Shape(View()) && d < |tree|
      modifies groups
      ensures groups[..] == old(groups[..])[d := Psi.GroupChange(old(View()), d, old(groups[d]), clear, add)]
    {
      var oncpu := groups[d].oncpu;
      if ONCPU in clear {
        oncpu := false;
      } else if ONCPU in add {
        oncpu := true;
      }
      var counts := groups[d].tasks;
      for f := 0 to NR_PSI_TASK_COUNTS
        invariant |counts| == NR_PSI_TASK_COUNTS
        invariant forall e :: 0 <= e < NR_PSI_TASK_COUNTS ==>
          counts[e] == if e < f then Counted(old(groups[d]).tasks, clear, add)[e] else old(groups[d]).tasks[e]
      {
        if f in clear && counts[f] != 0 {
          counts := counts[f := counts[f] - 1];
        }
        if f in add {
          counts := counts[f := counts[f] + 1];
        }
      }
      assert counts == Counted(old(groups[d]).tasks, clear, add);
      var stalled := curr.Some? && tasks[curr.value].inMemstall;
      var states := if enabled[d] then rules(counts, oncpu, oncpu && stalled) else 0;
      groups[d] := Groupc(counts, oncpu, states);
    }

    /** The loop over iterate_groups(), from a group up to but not including the one to stop at. */
    method WalkUp(from: nat, stop: Option<nat>, clear: Flags, add: Flags)
      requires Shape(View()) && from < |tree|
      requires stop.Some? ==> stop.value < |tree| && Below(tree, stop.value, from)
      modifies groups
      ensures View() == Walk(old(View()), from, stop, clear, add)
    {
      ghost var s := View();
      var iter: Option<nat> := Some(from);
      while iter.Some? && iter != stop
        invariant iter.Some? ==> 
          && iter.value < |tree| && Below(tree, iter.value, from)
          && (stop.Some? ==> Below(tree, stop.value, iter.value))
        invariant stop.Some? ==> iter.Some?
        invariant Shape(View())
        invariant forall d :: 0 <= d < |tree| ==>
          groups[d] == if OnPath(tree, from, iter, d) then Psi.GroupChange(s, d, s.groups[d], clear, add) else s.groups[d]
        decreases if iter.Some? then iter.value + 1 else 0
      {
        var d := iter.value;
        OneUp(tree, from, d);
        OtherGroupsDoNotMatter(s, View(), d, groups[d], clear, add);
        GroupChange(d, clear, add);
        iter := tree[d];
      }
      assert groups[..] == Walk(s, from, stop, clear, add).groups;
    }

    /** The first loop of psi_task_switch(): marks next's groups until one is marked already. */
    method MarkNext(from: nat) returns (common: Option<nat>)
      requires Shape(View()) && from < |tree|
      modifies groups
      ensures common == FirstMarked(tree, old(groups[..]), from)
      ensures View() == Walk(old(View()), from, common, {}, {ONCPU})
    {
      ghost var s := View();
      var iter: Option<nat> := Some(from);
      common := None;
      while iter.Some?
        invariant iter.Some? ==> iter.value < |tree| && Below(tree, iter.value, from)
        invariant FirstMarked(tree, s.groups, from) == if iter.Some? then FirstMarked(tree, s.groups, iter.value) else None
        invariant Shape(View())
        invariant forall d :: 0 <= d < |tree| ==>
          groups[d] == if OnPath(tree, from, iter, d) then Psi.GroupChange(s, d, s.groups[d], {}, {ONCPU}) else s.groups[d]
        decreases if iter.Some? then iter.value + 1 else 0
      {
        var d := iter.value;
        if groups[d].oncpu {
          common := iter;
          break;
        }
        OneUp(tree, from, d);
        OtherGroupsDoNotMatter(s, View(), d, groups[d], {}, {ONCPU});
        GroupChange(d, {}, {ONCPU});
        iter := tree[d];
      }
      assert groups[..] == Walk(s, from, common, {}, {ONCPU}).groups;
    }

    /** psi_task_change(), with what the caller changed about the task. */
    method TaskChange(t: Tid, clear: Flags, add: Flags, inMemstall: bool, inIowait: bool)
      requires Exact(View()) && ChangeOk(View(), t, clear, add, inMemstall, inIowait)
      modifies groups, this`tasks
      ensures View() == Change(old(View()), t, clear, add, inMemstall, inIowait)
      ensures Exact(View())
    {
      ChangeKeepsExact(View(), t, clear, add, inMemstall, inIowait);
      tasks := tasks[t := tasks[t].(inMemstall := inMemstall, inIowait := inIowait)];
      tasks := tasks[t := tasks[t].(flags := tasks[t].flags - clear + add)];
      WalkUp(tasks[t].group, None, clear, add);
    }

    method In(next: Option<Tid>) returns (common: Option<nat>)
      requires Shape(View()) && (next.Some? ==> next.value in tasks)
      modifies groups, this`tasks, this`curr
      ensures common == Common(old(View()), next)
      ensures View() == SwitchIn(old(View()), next)
    {
      curr := next;
      common := None;
      if next.Some? {
        var n := next.value;
        tasks := tasks[n := tasks[n].(flags := tasks[n].flags - {} + {ONCPU})];
        common := MarkNext(tasks[n].group);
      }
    }

    method Out(prev: Tid, sleep: bool, common: Option<nat>)
      requires Shape(View()) && prev in tasks
      requires common.Some? ==> common.value < |tree| && Below(tree, common.value, tasks[prev].group)
      modifies groups, this`tasks
      ensures View() == SwitchOut(old(View()), prev, sleep, common)
    {
      var x := tasks[prev];
      var clear: Flags, add: Flags := {ONCPU}, {};
      if sleep {
        clear := clear + {NR_RUNNING};
        if x.inMemstall {
          clear := clear + {NR_MEMSTALL_RUNNING};
        }
        if x.inIowait {
          add := add + {NR_IOWAIT};
        }
      }
      assert clear == ClearFor(x, sleep) && add == AddFor(x, sleep);
      tasks := tasks[prev := x.(flags := x.flags - clear + add)];
      WalkUp(x.group, common, clear, add);
      var nextFlags := if curr.Some? then tasks[curr.value].flags else {};
      if common.Some? && tasks[prev].flags - {ONCPU} != nextFlags - {ONCPU} {
        WalkUp(common.value, None, clear - {ONCPU}, add);
      }
    }

    /** psi_task_switch() */
    method TaskSwitch(next: Option<Tid>, sleep: bool)
      requires Exact(View()) && SwitchOk(View(), next)
      modifies groups, this`tasks, this`curr
      ensures View() == Switch(old(View()), next, sleep)
      ensures Exact(View()) && curr == next
    {
      ghost var s := View();
      SwitchKeepsExact(s, next, sleep);
      var prev := curr;
      var common := In(next);
      if prev.Some? {
        if common.Some? {
          CommonIsShared(s, next, common.value);
        }
        SwitchInTasks(s, next);
        Out(prev.value, sleep, common);
      }
    }
  }

  /** A walk that has gone one group further has met that group and no other. */
  lemma OneUp(t: Tree, from: nat, g: nat)
    requires from < |t| && g < |t| && Below(t, g, from)
    ensures t[g].Some? ==> Below(t, t[g].value, from)
    ensures forall d :: OnPath(t, from, t[g], d) <==> OnPath(t, from, Some(g), d) || d == g
  {
    if t[g].Some? {
      YoungerIsNotAbove(t, g, t[g].value);
      assert Below(t, t[g].value, g);
      BelowTransitive(t, t[g].value, g, from);
    }
    forall d ensures OnPath(t, from, t[g], d) <==> OnPath(t, from, Some(g), d) || d == g {
      assert Below(t, d, g) <==> d == g || (t[g].Some? && Below(t, d, t[g].value));
    }
  }

  /** What a change makes of a group depends on the running task, not on the other groups. */
  lemma OtherGroupsDoNotMatter(s: State, m: State, d: nat, gc: Groupc, clear: Flags, add: Flags)
    requires Shape(s) && Shape(m) && d < |s.tree| && m == s.(groups := m.groups)
    ensures Psi.GroupChange(m, d, gc, clear, add) == Psi.GroupChange(s, d, gc, clear, add)
  {
  }
}
