/** The cgroup hierarchy, which memory statistics and pressure accounting share. */
module CgroupTree {
  import opened Wrappers

  /** t[m] is the parent of cgroup m; a parent is older than its children. */
  type Tree = t: seq<Option<nat>> | forall m :: 0 <= m < |t| && t[m].Some? ==> t[m].value < m witness []

  /** d is m or one of its descendants. */
  predicate Below(t: Tree, m: nat, d: nat)
    requires d < |t|
    decreases d
  {
    d == m || (t[d].Some? && Below(t, m, t[d].value))
  }

  lemma {:induction false} BelowIsYounger(t: Tree, m: nat, d: nat)
    requires d < |t| && Below(t, m, d)
    ensures m <= d
    decreases d
  {
    if d != m {
      BelowIsYounger(t, m, t[d].value);
    }
  }

  lemma {:induction false} BelowTransitive(t: Tree, a: nat, b: nat, c: nat)
    requires b < |t| && c < |t| && Below(t, a, b) && Below(t, b, c)
    ensures Below(t, a, c)
    decreases c
  {
    if c != b {
      BelowTransitive(t, a, b, t[c].value);
    }
  }

  lemma YoungerIsNotAbove(t: Tree, a: nat, d: nat)
    requires d < |t| && d < a
    ensures !Below(t, a, d)
  {
    if Below(t, a, d) {
      BelowIsYounger(t, a, d);
    }
  }
}
