/** The compressors of a zram device from zram_add() on, and the count the device keeps of them. */
module ZramCompressors {
  import opened ZramSlots
  import opened ZramRecompress

  lemma {:induction false} CountUpdate(present: seq<bool>, k: nat, b: bool)
    requires k < |present|
    ensures
      CountPresent(present[k := b]) - (if b then 1 else 0) == CountPresent(present) - (if present[k] then 1 else 0)
  {
    var n := |present| - 1;
    if k < n {
      assert present[k := b][..n] == present[..n][k := b];
      CountUpdate(present[..n], k, b);
    } else {
      assert present[k := b][..n] == present[..n];
    }
  }

  class Compressors {
    var algs: seq<bool>      // comp_algs[], as far as set
    var comps: seq<bool>     // comps[], as far as created
    var active: int          // num_active_comps
    var initDone: bool

    /** The count is one ahead of the compressors, in every state the device can be in. */
    ghost predicate Valid()
      reads this
    {
      && |algs| == |comps| == ZRAM_MAX_COMPS && algs[0]
      && active == 1 + CountPresent(comps)
      && (if initDone then comps == algs else true !in comps)
    }

    /** zram_add() */
    constructor ()
      ensures Valid() && !initDone && algs == [true, false, false, false]
    {
      algs, comps := [true, false, false, false], [false, false, false, false];
      active, initDone := 1, false;
    }

    /** __comp_algorithm_store() of an algorithm that exists. */
    method SetAlgorithm(prio: nat) returns (ok: bool)
      requires Valid() && prio < ZRAM_MAX_COMPS
      modifies this`algs
      ensures Valid() && (ok <==> !initDone)
      ensures algs == if ok then old(algs)[prio := true] else old(algs)
    {
      if initDone {
        return false;
      }
      algs := algs[prio := true];
      return true;
    }

    /** zram_destroy_comps() */
    method DestroyComps()
      requires |comps| == ZRAM_MAX_COMPS && active == 1 + CountPresent(comps)
      modifies this`comps, this`active
      ensures |comps| == ZRAM_MAX_COMPS && true !in comps && active == 1
    {
      for prio := 0 to ZRAM_MAX_COMPS
        invariant |comps| == ZRAM_MAX_COMPS && active == 1 + CountPresent(comps)
        invariant forall q :: 0 <= q < prio ==> !comps[q]
      {
        var comp := comps[prio];
        CountUpdate(comps, prio, false);
        comps := comps[prio := false];
        if comp {
          active := active - 1;
        }
      }
    }

    /** disksize_store(): a compressor for every algorithm set, or none if one cannot be created. */
    method DisksizeStore(created: seq<bool>) returns (ok: bool)
      requires Valid() && |created| == ZRAM_MAX_COMPS
      modifies this`comps, this`active, this`initDone
      ensures Valid()
      ensures ok <==> !old(initDone) && forall q :: 0 <= q < ZRAM_MAX_COMPS && algs[q] ==> created[q]
      ensures initDone == (old(initDone) || ok)
    {
      if initDone {
        return false;
      }
      for prio := 0 to ZRAM_MAX_COMPS
        invariant |comps| == ZRAM_MAX_COMPS && active == 1 + CountPresent(comps) && !initDone
        invariant forall q :: 0 <= q < ZRAM_MAX_COMPS ==> comps[q] == (q < prio && algs[q])
        invariant forall q :: 0 <= q < prio && algs[q] ==> created[q]
      {
        if algs[prio] {
          if !created[prio] {
            DestroyComps();
            return false;
          }
          CountUpdate(comps, prio, true);
          comps := comps[prio := true];
          active := active + 1;
        }
      }
      assert comps == algs;
      initDone := true;
      return true;
    }

    /** zram_reset_device() */
    method ResetDevice()
      requires Valid()
      modifies this`comps, this`active, this`initDone
      ensures Valid() && !initDone && (old(initDone) ==> active == 1)
    {
      if initDone {
        initDone := false;
        DestroyComps();
      }
    }

    /** So on any initialized device a recompression finds the count it cannot reach. */
    lemma RecompressionNeverMarks(d: Dev, i: nat, e: Env, a: Args)
      requires Valid() && initDone && i < |d.table| && a.prioMax <= ZRAM_MAX_COMPS
      requires e.present == comps && e.active == active
      ensures ZramRecompress.Valid(e, a)
      ensures
        var r := Recompressed(d, i, e, a).dev;
        forall j :: 0 <= j < |d.table| && r.table[j].incompressible ==> d.table[j].incompressible
    {
      NeverIncompressible(d, i, e, a);
    }
  }
}
