/** The same steps without the writeback pin, and the run in which a deferred write goes astray. */
module KcompressdPin {
  import opened Wrappers
  import opened Kcompressd

  /**
   The offload before the pin: the queuer unlocks the page without putting it under writeback,
   and neither the drain nor the drop ends a writeback.
   */
  function ApplyWithoutPin(s: State, step: Step): State
    requires Enabled(s, step)
  {
    match step
    case PinAndUnlock(t) =>
      var p := s.holding[t].page;
      SetPage(s, p, s.pages[p].(locked := None)).(holding := s.holding - {t})
    case EndPin(t) => s.(work := s.work[t := Writing(s.work[t].page)])
    case Check(t) =>
      var p := s.work[t].page;
      var r := Apply(s, step);
      SetPage(r, p, r.pages[p].(wb := s.pages[p].wb))
    case _ => Apply(s, step)
  }

  ghost predicate IsRunWithoutPin(states: seq<State>, steps: seq<Step>) {
    && |states| == |steps| + 1
    && Init(states[0])
    && forall i :: 0 <= i < |steps| ==>
         Enabled(states[i], steps[i]) && states[i + 1] == ApplyWithoutPin(states[i], steps[i])
  }

  ghost predicate ReachedWithoutPin(s: State) {
    exists states: seq<State>, steps: seq<Step> :: IsRunWithoutPin(states, steps) && states[|steps|] == s
  }

  lemma Step1(s: State, step: Step) returns (r: State)
    requires ReachedWithoutPin(s) && Enabled(s, step)
    ensures r == ApplyWithoutPin(s, step) && ReachedWithoutPin(r)
  {
    var states: seq<State>, steps: seq<Step> :| IsRunWithoutPin(states, steps) && states[|steps|] == s;
    r := ApplyWithoutPin(s, step);
    assert IsRunWithoutPin(states + [r], steps + [step]);
    assert (states + [r])[|steps + [step]|] == r;
  }

  lemma Start(s: State)
    requires Init(s)
    ensures ReachedWithoutPin(s)
  {
    var steps: seq<Step> := [];
    assert IsRunWithoutPin([s], steps) && [s][|steps|] == s;
  }

  /** Nobody owns the page t is about to write, and it is not under writeback. */
  ghost predicate Unpinned(s: State, t: Tid) {
    && t in s.work && s.work[t].Checked?
    && var p := s.work[t].page;
       Unlocked(s, p) && !s.pages[p].wb && p in s.queuedSlot && s.pages[p].slot == Some(s.queuedSlot[p])
  }

  /** A node that is up, with one page. */
  lemma NodeIsUp() returns (s: State)
    ensures ReachedWithoutPin(s)
    ensures s == State(map[0 := Page(None, false, None, 0)], {}, [], Up, FIFO_SIZE, map[], map[],
                       0, 0, 0, [], [], map[], [])
  {
    var init := State(map[0 := Page(None, false, None, 0)], {}, [], Down, FIFO_SIZE, map[], map[],
                      0, 0, 0, [], [], map[], []);
    Start(init);
    s := Step1(init, AddNode);
  }

  /** A reclaimer locks the page, */
  lemma PageIsLocked() returns (s: State)
    ensures ReachedWithoutPin(s)
    ensures s == State(map[0 := Page(Some(2), false, None, 0)], {}, [], Up, FIFO_SIZE, map[],
                       map[2 := Hold(0, false)], 0, 0, 0, [], [], map[], [])
  {
    var up := NodeIsUp();
    s := Step1(up, LockPage(2, 0));
    assert s.pages == map[0 := Page(Some(2), false, None, 0)];
  }

  /** gives it swap slot 7, */
  lemma PageIsOwned() returns (s: State)
    ensures ReachedWithoutPin(s)
    ensures s == State(map[0 := Page(Some(2), false, Some(7), 0)], {}, [], Up, FIFO_SIZE, map[],
                       map[2 := Hold(0, false)], 0, 0, 0, [], [], map[], [])
  {
    var locked := PageIsLocked();
    s := Step1(locked, AddToSwap(2, 7));
    assert s.pages == map[0 := Page(Some(2), false, Some(7), 0)];
  }

  /** queues it */
  lemma PageIsQueued() returns (s: State)
    ensures ReachedWithoutPin(s)
    ensures s == State(map[0 := Page(Some(2), false, Some(7), 1)], {}, [0], Up, FIFO_SIZE, map[],
                       map[2 := Hold(0, true)], 1, 0, 0, [0], [], map[0 := 7], [])
  {
    var owned := PageIsOwned();
    assert EnqueueStep(owned, 2) == PushTail(owned, 2, 0);
    s := Step1(owned, Enqueue(2));
    assert s.pages == map[0 := Page(Some(2), false, Some(7), 1)];
    assert s.holding == map[2 := Hold(0, true)] && s.ring == [0] && s.queuedSlot == map[0 := 7];
  }

  /** and unlocks it. */
  lemma PageIsUnlocked() returns (s: State)
    ensures ReachedWithoutPin(s)
    ensures s == State(map[0 := Page(None, false, Some(7), 1)], {}, [0], Up, FIFO_SIZE, map[], map[],
                       1, 0, 0, [0], [], map[0 := 7], [])
  {
    var queued := PageIsQueued();
    s := Step1(queued, PinAndUnlock(2));
    assert s.pages == map[0 := Page(None, false, Some(7), 1)] && s.holding == map[];
  }

  /** The drain takes it */
  lemma PageIsPopped() returns (s: State)
    ensures ReachedWithoutPin(s)
    ensures s == State(map[0 := Page(None, false, Some(7), 1)], {}, [], Up, FIFO_SIZE, map[DRAIN := Popped(0)], map[],
                       1, 0, 0, [0], [0], map[0 := 7], [])
  {
    var q := PageIsUnlocked();
    s := Step1(q, Pop(DRAIN));
    assert s.work == map[DRAIN := Popped(0)] && s.ring == [] && s.popped == [0];
  }

  /** and finds it in the swap cache: it is about to take its lock. */
  lemma UnpinnedIsReached() returns (s: State)
    ensures ReachedWithoutPin(s) && Unpinned(s, DRAIN) && s.work == map[DRAIN := Checked(0)]
    ensures s.holding == map[] && s.queuedSlot == map[0 := 7] && s.writes == []
  {
    var popped := PageIsPopped();
    s := Step1(popped, Check(DRAIN));
    assert s.work == map[DRAIN := Checked(0)];
  }

  /** Any other thread can now free the slot. */
  lemma FreeBehind(s: State, t: Tid, u: Tid) returns (r: State)
    requires ReachedWithoutPin(s) && Unpinned(s, t) && u > HOTPLUG && u !in s.work && u !in s.holding
    ensures ReachedWithoutPin(r)
    ensures r.work == s.work && r.writes == s.writes && r.queuedSlot == s.queuedSlot
    ensures Unlocked(r, s.work[t].page) && r.pages[s.work[t].page].slot == None
  {
    var a := Step1(s, LockPage(u, s.work[t].page));
    var b := Step1(a, FreeSlot(u));
    r := Step1(b, UnlockPage(u));
  }

  /**
   Why the pin is needed.  Whenever the drain has checked an unpinned page, some run goes on so
   that its write does not go where the page was queued to go; and such a state is reached.
   */
  lemma WithoutPinTheWriteGoesAstray(s: State, t: Tid, u: Tid) returns (r: State)
    requires ReachedWithoutPin(s) && Unpinned(s, t) && u > HOTPLUG && u !in s.work && u !in s.holding
    ensures ReachedWithoutPin(r)
    ensures r.writes == s.writes + [Write(s.work[t].page, None, s.queuedSlot[s.work[t].page])]
  {
    var freed := FreeBehind(s, t, u);
    var a := Step1(freed, LockForWrite(t));
    var b := Step1(a, EndPin(t));
    r := Step1(b, IssueWrite(t, false));
  }

  lemma StrayWriteIsReached() returns (r: State)
    ensures ReachedWithoutPin(r)
    ensures r.writes == [Write(0, None, 7)] && r.writes[0].slot != Some(r.writes[0].queuedSlot)
  {
    var s := UnpinnedIsReached();
    r := WithoutPinTheWriteGoesAstray(s, DRAIN, 2);
    assert [] + [Write(0, None, 7)] == [Write(0, None, 7)];
  }
}
