/** close_range(): probing every descriptor against walking the bitmap of open ones. */
module RangeClose {
  import opened Wrappers

  type File = nat

  /** The fd table and the files closed so far, in order. */
  datatype Table = Table(open: seq<bool>, files: seq<Option<File>>, closed: seq<File>)

  predicate Shape(t: Table) { |t.open| == |t.files| > 0 }

  /** What __clear_open_fd() and fd_install() keep: a file sits only under a set bit. */
  predicate FilesAreMarked(t: Table, from: nat, to: nat)
    requires Shape(t)
  {
    forall k :: from <= k < to && k < |t.files| && t.files[k].Some? ==> t.open[k]
  }

  /** One descriptor picked and closed, if it has a file; checkBit is the bitmap early-out. */
  function CloseOne(t: Table, k: nat, checkBit: bool): (r: Table)
    requires Shape(t) && k < |t.files|
    ensures Shape(r) && |r.files| == |t.files|
  {
    if t.files[k].None? || (checkBit && !t.open[k]) then t
    else Table(t.open[k := false], t.files[k := None], t.closed + [t.files[k].value])
  }

  /** All of [from, to) in ascending order. */
  function CloseAll(t: Table, from: nat, to: nat, checkBit: bool): (r: Table)
    requires Shape(t) && to <= |t.files|
    ensures Shape(r) && |r.files| == |t.files|
    decreases if from < to then to - from else 0
  {
    if from >= to then t else CloseAll(CloseOne(t, from, checkBit), from + 1, to, checkBit)
  }

  /** Where the range [fd, maxFd] ends in this table. */
  function End(t: Table, maxFd: nat): nat { if maxFd < |t.files| then maxFd + 1 else |t.files| }

  /** The files of [from, to), in descriptor order. */
  function FilesIn(t: Table, from: nat, to: nat): seq<File>
    requires to <= |t.files|
    decreases if from < to then to - from else 0
  {
    if from >= to then [] else (if t.files[from].Some? then [t.files[from].value] else []) + FilesIn(t, from + 1, to)
  }

  lemma {:induction false} FilesAfter(t: Table, r: Table, from: nat, to: nat)
    requires to <= |t.files| == |r.files| && forall k :: from <= k < to ==> r.files[k] == t.files[k]
    ensures FilesIn(r, from, to) == FilesIn(t, from, to)
    decreases if from < to then to - from else 0
  {
    if from < to {
      FilesAfter(t, r, from + 1, to);
    }
  }

  /** What the range close means: the files of the range are closed in order, the rest stays. */
  lemma {:induction false} CloseAllIs(t: Table, from: nat, to: nat)
    requires Shape(t) && to <= |t.files|
    ensures
      var r := CloseAll(t, from, to, false);
      && r.closed == t.closed + FilesIn(t, from, to)
      && (forall k :: 0 <= k < |t.files| ==> r.files[k] == (if from <= k < to then None else t.files[k]))
      && (forall k :: 0 <= k < |t.files| ==>
            (r.open[k] <==> t.open[k] && !(from <= k < to && t.files[k].Some?)))
    decreases if from < to then to - from else 0
  {
    if from < to {
      var m := CloseOne(t, from, false);
      CloseAllIs(m, from + 1, to);
      FilesAfter(t, m, from + 1, to);
    }
  }

  /**
   In a table where every file is marked, as the kernel keeps it, close_range(first, maxFd) by
   bitmap closes every file of the range, in descriptor order, and touches nothing else.
   */
  lemma BitmapClosesRange(t: Table, first: nat, maxFd: nat)
    requires Shape(t) && FilesAreMarked(t, 0, |t.files|)
    ensures
      var to := if maxFd < |t.files| then maxFd + 1 else |t.files|;
      var r := CloseAll(t, first, to, true);
      && r.closed == t.closed + FilesIn(t, first, to)
      && (forall k :: 0 <= k < |t.files| ==> r.files[k] == if first <= k <= maxFd then None else t.files[k])
      && (forall k :: 0 <= k < |t.files| ==> (r.open[k] <==> t.open[k] && !(first <= k <= maxFd && t.files[k].Some?)))
      && FilesAreMarked(r, 0, |t.files|)
  {
    var to := if maxFd < |t.files| then maxFd + 1 else |t.files|;
    BitmapAgreesIff(t, first, to);
    CloseAllIs(t, first, to);
  }

  /** The files of a range are listed in descriptor order: the last one, if any, comes last. */
  lemma {:induction false} LastOfRange(t: Table, from: nat, to: nat)
    requires from < to <= |t.files|
    ensures FilesIn(t, from, to) ==
      FilesIn(t, from, to - 1) + (if t.files[to - 1].Some? then [t.files[to - 1].value] else [])
    decreases if from < to then to - from else 0
  {
    if from < to - 1 {
      LastOfRange(t, from + 1, to);
    }
  }

  /** Asking the bitmap first makes no difference exactly when no file of the range is unmarked. */
  lemma {:induction false} BitmapAgreesIff(t: Table, from: nat, to: nat)
    requires Shape(t) && to <= |t.files|
    ensures CloseAll(t, from, to, true) == CloseAll(t, from, to, false) <==> FilesAreMarked(t, from, to)
    decreases if from < to then to - from else 0
  {
    CloseAllIs(t, from, to);
    if from < to {
      if t.files[from].Some? && !t.open[from] {
        UnmarkedStays(t, from + 1, to, from);
        assert t.files[from].Some? && CloseAll(t, from, to, true).files[from] == t.files[from];
      } else {
        var m := CloseOne(t, from, true);
        BitmapAgreesIff(m, from + 1, to);
        assert forall k :: from < k < |t.files| ==> m.files[k] == t.files[k] && m.open[k] == t.open[k];
      }
    }
  }

  lemma {:induction false} UnmarkedStays(t: Table, from: nat, to: nat, k: nat)
    requires Shape(t) && to <= |t.files| && k < |t.files| && k < from
    ensures CloseAll(t, from, to, true).files[k] == t.files[k]
    decreases if from < to then to - from else 0
  {
    if from < to {
      UnmarkedStays(CloseOne(t, from, true), from + 1, to, k);
    }
  }

  /** Descriptors without an open bit are nothing to stop at. */
  lemma {:induction false} SkipUnmarked(t: Table, from: nat, via: nat, to: nat)
    requires Shape(t) && from <= via <= to <= |t.files| && forall k :: from <= k < via ==> !t.open[k]
    ensures CloseAll(t, from, to, true) == CloseAll(t, via, to, true)
    decreases via - from
  {
    if from < via {
      SkipUnmarked(t, from + 1, via, to);
    }
  }

  datatype Pick = Picked(file: File) | Einval | Ebadf

  class Files {
    const open: array<bool>
    const fd: array<Option<File>>
    var closed: seq<File>

    ghost function View(): Table
      reads this, open, fd
    {
      Table(open[..], fd[..], closed)
    }

    constructor (maxFds: nat)
      requires maxFds > 0
      ensures Shape(View()) && fd.Length == maxFds && fresh(open) && fresh(fd)
      ensures FilesAreMarked(View(), 0, maxFds) && closed == []
    {
      open := new bool[maxFds](_ => false);
      fd := new Option<File>[maxFds](_ => None);
      closed := [];
    }

    /** pick_file(), with or without the bitmap early-out. */
    method PickFile(n: nat, checkBit: bool) returns (r: Pick)
      requires Shape(View())
      modifies open, fd
      ensures r == Einval <==> n >= fd.Length
      ensures n >= fd.Length ==> View() == old(View())
      ensures n < fd.Length ==>
        View().(closed := if r.Picked? then closed + [r.file] else closed) == CloseOne(old(View()), n, checkBit)
    {
      if n >= fd.Length {
        return Einval;
      }
      if checkBit && !open[n] {
        return Ebadf;
      }
      if fd[n].None? {
        return Ebadf;
      }
      r := Picked(fd[n].value);
      fd[n] := None;
      open[n] := false;
    }

    /** __range_close() as it was: every descriptor of the range is probed. */
    method RangeCloseProbing(first: nat, maxFd: nat, checkBit: bool)
      requires Shape(View())
      modifies this`closed, open, fd
      ensures View() == CloseAll(old(View()), first, if maxFd < fd.Length then maxFd + 1 else fd.Length, checkBit)
    {
      ghost var t, to := View(), End(View(), maxFd);
      var n := first;
      while n <= maxFd
        invariant Shape(View())
        invariant CloseAll(View(), n, to, checkBit) == CloseAll(t, first, to, checkBit)
        decreases maxFd + 1 - n
      {
        var file := PickFile(n, checkBit);
        n := n + 1;
        if file.Picked? {
          closed := closed + [file.file];
          continue;
        }
        if file == Einval {
          return;
        }
      }
    }

    /** find_next_bit(open_fds, size, offset) */
    method FindNextBit(size: nat, offset: nat) returns (r: nat)
      requires size <= open.Length
      ensures r <= size && (offset < size ==> offset <= r) && (offset >= size ==> r == size)
      ensures r < size ==> open[r]
      ensures forall k :: offset <= k < r ==> !open[k]
    {
      if offset >= size {
        return size;
      }
      r := offset;
      while r < size && !open[r]
        invariant offset <= r <= size
        invariant forall k :: offset <= k < r ==> !open[k]
      {
        r := r + 1;
      }
    }

    /** __range_close(): from set bit to set bit. */
    method RangeClose(first: nat, maxFd: nat)
      requires Shape(View())
      modifies this`closed, open, fd
      ensures View() == CloseAll(old(View()), first, if maxFd < fd.Length then maxFd + 1 else fd.Length, true)
    {
      ghost var t, to := View(), End(View(), maxFd);
      var last := fd.Length - 1;
      var max := if maxFd < last then maxFd else last;
      var n := FindNextBit(max + 1, first);
      if first <= n {
        SkipUnmarked(t, first, n, to);
      }
      while n <= max
        invariant Shape(View()) && n <= max + 1 == to
        invariant CloseAll(View(), n, to, true) == CloseAll(t, first, to, true)
        decreases max + 1 - n
      {
        var file := PickFile(n, true);
        if file.Picked? {
          closed := closed + [file.file];
        } else if file == Einval {
          return;
        }
        assert CloseAll(View(), n + 1, to, true) == CloseAll(t, first, to, true);
        var next := FindNextBit(max + 1, n + 1);
        SkipUnmarked(View(), n + 1, next, to);
        n := next;
      }
    }
  }
}
