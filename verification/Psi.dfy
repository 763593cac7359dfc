/**
 Pressure accounting on one cpu: a group per cgroup with task counts and an ONCPU bit, kept up to
 date by walks from a task's cgroup towards the root that stop as early as they can.
 */
module Psi {
  import opened Wrappers
  import opened CgroupTree

  // psi_task_count, and the flag that has no count
  const NR_IOWAIT := 0
  const NR_MEMSTALL := 1
  const NR_RUNNING := 2
  const NR_MEMSTALL_RUNNING := 3
  const NR_PSI_TASK_COUNTS := 4
  const ONCPU := 4

  type Tid = nat
  type Flags = set<int>

  datatype Task = Task(group: nat, flags: Flags, inMemstall: bool, inIowait: bool)

  /** psi_group_cpu: the counts, the PSI_ONCPU bit and the other bits of state_mask. */
  datatype Groupc = Groupc(tasks: seq<int>, oncpu: bool, states: int)

  /** Which states follow from counts, ONCPU and "the task on the cpu is in a memstall". */
  type Rules = (seq<int>, bool, bool) -> int

  datatype State = State(
    tree: Tree, rules: Rules, enabled: seq<bool>, groups: seq<Groupc>, tasks: map<Tid, Task>, curr: Option<Tid>)

  predicate Shape(s: State) {
    && |s.groups| == |s.enabled| == |s.tree|
    && (forall d :: 0 <= d < |s.groups| ==> |s.groups[d].tasks| == NR_PSI_TASK_COUNTS)
    && (forall t :: t in s.tasks ==> s.tasks[t].group < |s.tree|)
    && (s.curr.Some? ==> s.curr.value in s.tasks)
  }

  // ---- what the groups should say ----

  ghost function Members(tree: Tree, tasks: map<Tid, Task>, f: int, d: nat): set<Tid>
    requires forall t :: t in tasks ==> tasks[t].group < |tree|
  {
    set t | t in tasks && f in tasks[t].flags && Below(tree, d, tasks[t].group)
  }

  /** The running task's ancestors and its own cgroup. */
  predicate OnCurrChain(s: State, d: nat)
    requires Shape(s)
  {
    s.curr.Some? && Below(s.tree, d, s.tasks[s.curr.value].group)
  }

  predicate Stalled(s: State)
    requires Shape(s)
  {
    s.curr.Some? && s.tasks[s.curr.value].inMemstall
  }

  function States(s: State, d: nat, tasks: seq<int>, oncpu: bool): int
    requires Shape(s) && d < |s.tree|
  {
    if s.enabled[d] then s.rules(tasks, oncpu, oncpu && Stalled(s)) else 0
  }

  ghost predicate CountsExact(s: State, d: nat)
    requires Shape(s) && d < |s.tree|
  {
    forall f :: 0 <= f < NR_PSI_TASK_COUNTS ==> s.groups[d].tasks[f] == |Members(s.tree, s.tasks, f, d)|
  }

  /** The group says what the tasks below it and the running task make true. */
  ghost predicate GroupExact(s: State, d: nat)
    requires Shape(s) && d < |s.tree|
  {
    && CountsExact(s, d)
    && (s.groups[d].oncpu <==> OnCurrChain(s, d))
    && s.groups[d].states == States(s, d, s.groups[d].tasks, s.groups[d].oncpu)
  }

  /** How the scheduler keeps a task's flags. */
  predicate TaskOk(s: State, t: Tid)
    requires Shape(s) && t in s.tasks
  {
    var x := s.tasks[t];
    && (ONCPU in x.flags <==> s.curr == Some(t))
    && (NR_MEMSTALL_RUNNING in x.flags <==> NR_RUNNING in x.flags && x.inMemstall)
    && (NR_IOWAIT in x.flags ==> NR_RUNNING !in x.flags)
    && (s.curr == Some(t) ==> NR_RUNNING in x.flags)
  }

  ghost predicate Exact(s: State) {
    && Shape(s)
    && (forall t :: t in s.tasks ==> TaskOk(s, t))
    && (forall d :: 0 <= d < |s.tree| ==> GroupExact(s, d))
  }

  // ---- the code ----

  function Decremented(n: int): int { if n != 0 then n - 1 else n }

  /** psi_group_change() on the counts. */
  function Counted(tasks: seq<int>, clear: Flags, add: Flags): (r: seq<int>)
    ensures |r| == |tasks|
  {
    seq(|tasks|, f requires 0 <= f < |tasks| =>
      (if f in clear then Decremented(tasks[f]) else tasks[f]) + if f in add then 1 else 0)
  }

  function OnCpuAfter(oncpu: bool, clear: Flags, add: Flags): bool {
    if ONCPU in clear then false else if ONCPU in add then true else oncpu
  }

  /** psi_group_change(); s.curr is the task that now has the cpu. */
  function GroupChange(s: State, d: nat, gc: Groupc, clear: Flags, add: Flags): (r: Groupc)
    requires Shape(s) && d < |s.tree|
    ensures |r.tasks| == |gc.tasks|
  {
    var tasks := Counted(gc.tasks, clear, add);
    var oncpu := OnCpuAfter(gc.oncpu, clear, add);
    Groupc(tasks, oncpu, States(s, d, tasks, oncpu))
  }

  /** d is met walking up from one group, before the group to stop at. */
  predicate OnPath(tree: Tree, from: nat, stop: Option<nat>, d: nat)
    requires from < |tree| && (stop.Some? ==> stop.value < |tree|)
  {
    Below(tree, d, from) && !(stop.Some? && Below(tree, d, stop.value))
  }

  /** while ((group = iterate_groups(...)) && group != stop) psi_group_change(group, ...) */
  function Walk(s: State, from: nat, stop: Option<nat>, clear: Flags, add: Flags): (r: State)
    requires Shape(s) && from < |s.tree| && (stop.Some? ==> stop.value < |s.tree|)
    ensures Shape(r)
  {
    s.(groups := seq(|s.groups|, d requires 0 <= d < |s.groups| =>
      if OnPath(s.tree, from, stop, d) then GroupChange(s, d, s.groups[d], clear, add) else s.groups[d]))
  }

  /** The first group with PSI_ONCPU set, going up. */
  function FirstMarked(tree: Tree, groups: seq<Groupc>, g: nat): (r: Option<nat>)
    requires |groups| == |tree| && g < |tree|
    ensures r.Some? ==> r.value < |tree|
    decreases g
  {
    if groups[g].oncpu then Some(g)
    else if tree[g].None? then None
    else FirstMarked(tree, groups, tree[g].value)
  }

  /** psi_flags_change() */
  function WithFlags(s: State, t: Tid, clear: Flags, add: Flags): (r: State)
    requires Shape(s) && t in s.tasks
    ensures Shape(r)
  {
    s.(tasks := s.tasks[t := s.tasks[t].(flags := s.tasks[t].flags - clear + add)])
  }

  function ClearFor(x: Task, sleep: bool): Flags {
    if sleep then {ONCPU, NR_RUNNING} + if x.inMemstall then {NR_MEMSTALL_RUNNING} else {} else {ONCPU}
  }

  function AddFor(x: Task, sleep: bool): Flags {
    if sleep && x.inIowait then {NR_IOWAIT} else {}
  }

  /** The common ancestor the two walks of a switch stop at. */
  function Common(s: State, next: Option<Tid>): (r: Option<nat>)
    requires Shape(s) && (next.Some? ==> next.value in s.tasks)
    ensures r.Some? ==> r.value < |s.tree|
  {
    if next.None? then None else FirstMarked(s.tree, s.groups, s.tasks[next.value].group)
  }

  function SwitchIn(s: State, next: Option<Tid>): (r: State)
    requires Shape(s) && (next.Some? ==> next.value in s.tasks)
    ensures Shape(r) && r.tasks.Keys == s.tasks.Keys && r.tree == s.tree && r.curr == next
  {
    var n := s.(curr := next);
    if next.None? then n
    else Walk(WithFlags(n, next.value, {}, {ONCPU}), s.tasks[next.value].group, Common(s, next), {}, {ONCPU})
  }

  /** (prev->psi_flags ^ next->psi_flags) & ~TSK_ONCPU */
  predicate Differ(a: Flags, b: Flags) { a - {ONCPU} != b - {ONCPU} }

  function SwitchOut(s: State, prev: Tid, sleep: bool, common: Option<nat>): (r: State)
    requires Shape(s) && prev in s.tasks && (common.Some? ==> common.value < |s.tree|)
    ensures Shape(r)
  {
    var x := s.tasks[prev];
    var clear, add := ClearFor(x, sleep), AddFor(x, sleep);
    var a := Walk(WithFlags(s, prev, clear, add), x.group, common, clear, add);
    var nextFlags := if s.curr.Some? then a.tasks[s.curr.value].flags else {};
    if common.Some? && Differ(a.tasks[prev].flags, nextFlags)
    then Walk(a, common.value, None, clear - {ONCPU}, add) else a
  }

  /** psi_task_switch(); None is the idle task. */
  function Switch(s: State, next: Option<Tid>, sleep: bool): (r: State)
    requires Shape(s) && (next.Some? ==> next.value in s.tasks)
    ensures Shape(r)
  {
    var m := SwitchIn(s, next);
    if s.curr.None? then m else SwitchOut(m, s.curr.value, sleep, Common(s, next))
  }

  /** psi_task_change(): every ancestor, no ONCPU involved. */
  function Change(s: State, t: Tid, clear: Flags, add: Flags, inMemstall: bool, inIowait: bool): (r: State)
    requires Shape(s) && t in s.tasks
    ensures Shape(r)
  {
    var n := s.(tasks := s.tasks[t := s.tasks[t].(inMemstall := inMemstall, inIowait := inIowait)]);
    Walk(WithFlags(n, t, clear, add), s.tasks[t].group, None, clear, add)
  }
}
