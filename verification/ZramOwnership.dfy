/** Who owns each block of the backing device while a writeback sweep runs. */
module ZramOwnership {
  import opened ZramWriteback

  /** The sweep's own reservation, one request, or one written-back slot. */
  datatype Owner = Reservation | Request(r: ReqId) | Entry(i: nat)

  ghost predicate Owns(s: State, o: Owner, b: nat) {
    match o
    case Reservation => s.sw.blk == b && b != 0
    case Request(r) => r in s.ctl.reqs && Outstanding(s.ctl.reqs[r]) && s.ctl.reqs[r].blk == b
    case Entry(i) => i < |s.dev.table| && s.dev.table[i].wb && s.dev.table[i].element == b
  }

  /** Each busy block has exactly one owner, and only busy blocks are owned. */
  ghost predicate OwnedOnce(s: State) {
    && (forall o, b :: Owns(s, o, b) ==> b in s.dev.busy && b != 0)
    && (forall o, p, b :: Owns(s, o, b) && Owns(s, p, b) ==> o == p)
    && (forall b :: b in s.dev.busy ==> exists o :: Owns(s, o, b))
  }

  ghost predicate SoleOwner(s: State, o: Owner, b: nat) {
    forall p :: Owns(s, p, b) ==> p == o
  }

  ghost predicate SameOwners(s: State, r: State) {
    && (forall o, b :: Owns(r, o, b) <==> Owns(s, o, b))
    && r.dev.busy == s.dev.busy
  }

  /** The block b passes from one owner to another. */
  ghost predicate Passes(s: State, r: State, from: Owner, to: Owner, b: nat) {
    && Owns(s, from, b) && from != to && Owns(r, to, b)
    && (forall o, c :: Owns(r, o, c) <==> (Owns(s, o, c) && o != from) || (o == to && c == b))
    && r.dev.busy == s.dev.busy
  }

  ghost predicate Gains(s: State, r: State, to: Owner, b: nat) {
    && b !in s.dev.busy && b != 0
    && (forall o, c :: Owns(r, o, c) <==> Owns(s, o, c) || (o == to && c == b))
    && r.dev.busy == s.dev.busy + {b}
  }

  ghost predicate Drops(s: State, r: State, from: Owner, b: nat) {
    && Owns(s, from, b)
    && (forall o, c :: Owns(r, o, c) <==> Owns(s, o, c) && o != from)
    && r.dev.busy == s.dev.busy - {b}
  }

  lemma OwnedAfterSame(s: State, r: State)
    requires OwnedOnce(s) && SameOwners(s, r)
    ensures OwnedOnce(r)
  {
    forall b | b in r.dev.busy ensures exists o :: Owns(r, o, b) {
      var o :| Owns(s, o, b);
      assert Owns(r, o, b);
    }
  }

  /** An owner owns one block. */
  lemma OneBlockEach(s: State, o: Owner, b: nat, c: nat)
    requires Owns(s, o, b) && Owns(s, o, c)
    ensures b == c
  {
  }

  lemma OwnedAfterPass(s: State, r: State, from: Owner, to: Owner, b: nat)
    requires OwnedOnce(s) && Passes(s, r, from, to, b)
    ensures OwnedOnce(r)
  {
    forall c | c in r.dev.busy ensures exists o :: Owns(r, o, c) {
      var o :| Owns(s, o, c);
      if o == from {
        OneBlockEach(s, from, b, c);
        assert Owns(r, to, c);
      } else {
        assert Owns(r, o, c);
      }
    }
  }

  lemma OwnedAfterGain(s: State, r: State, to: Owner, b: nat)
    requires OwnedOnce(s) && Gains(s, r, to, b)
    ensures OwnedOnce(r)
  {
    forall c | c in r.dev.busy ensures exists o :: Owns(r, o, c) {
      if c == b {
        assert Owns(r, to, c);
      } else {
        var o :| Owns(s, o, c);
        assert Owns(r, o, c);
      }
    }
  }

  lemma OwnedAfterDrop(s: State, r: State, from: Owner, b: nat)
    requires OwnedOnce(s) && Drops(s, r, from, b)
    ensures OwnedOnce(r)
  {
    forall c | c in r.dev.busy ensures exists o :: Owns(r, o, c) {
      var o :| Owns(s, o, c);
      if o == from {
        OneBlockEach(s, from, b, c);
      }
      assert Owns(r, o, c);
    }
  }
}
