/** Deciding whether an update was underway (lines 276-341): a TP commit is past
    the point of no return once some region's sgm_info says the commit started, or
    the process holds that region's crit with its commit-in-progress flag set; a
    non-TP commit once the current region's crit is held and either the
    commit-in-progress flag is set or update_trans says the commit started. */
module Classify {

  import opened Arena
  import opened CwSets
  import opened SharedMemory

  /** The sgm_info reached from `si` after `k` next_sgm_info links, each sgm_info
      probed before its link is read; None once a probe fails. */
  function SiAfter(h: Heap, si: Ref, k: nat): Option<Ref>
    reads h.sis
  {
    if k == 0 then Some(si)
    else match SiAfter(h, si, k - 1)
      case None => None
      case Some(s) => if Probe(h.sis.Length, h.mapped.sis, s) then Some(h.sis[s.i].nextSgmInfo) else None
  }

  /** The walk stops at `s` with the verdict "underway". */
  predicate TpHit(h: Heap, s: Ref)
    reads h.sis, h.regions, h.segs, h.fcs, h.csas
  {
    Probe(h.sis.Length, h.mapped.sis, s) &&
    var si := h.sis[s.i];
    (si.commitStarted ||
     (Probe(h.tpCw.Length, h.mapped.tpCw, si.firstCwSet) &&
      match ProbeRegion(h, si.gvCurRegion)
      case None => false
      case Some(a) => h.csas[a].nowCrit && h.csas[a].tCommitCrit))
  }

  /** The TP walk from `si`. It ends without a verdict at NULL or at an sgm_info
      that fails its probe, and moves on past one whose region fails
      SECSHR_PROBE_REGION. At most `fuel` links are followed (the C loop has no
      bound; a list in an arena of n sgm_infos that does not cycle has fewer). */
  function TpUnderway(h: Heap, si: Ref, fuel: nat): bool
    reads h.sis, h.regions, h.segs, h.fcs, h.csas
    decreases fuel
  {
    if fuel == 0 || !Probe(h.sis.Length, h.mapped.sis, si) then false
    else if TpHit(h, si) then true
    else TpUnderway(h, h.sis[si.i].nextSgmInfo, fuel - 1)
  }

  /** The walk's k-th sgm_info is the first one that is a hit. */
  ghost predicate FirstHitAt(h: Heap, si: Ref, k: nat)
    reads h.sis, h.regions, h.segs, h.fcs, h.csas
  {
    SiAfter(h, si, k).Some? && TpHit(h, SiAfter(h, si, k).value) &&
    forall j :: 0 <= j < k ==> SiAfter(h, si, j).Some? && !TpHit(h, SiAfter(h, si, j).value)
  }

  /** Some sgm_info of the walk from `si` is its first hit. */
  ghost predicate SomeFirstHit(h: Heap, si: Ref)
    reads h.sis, h.regions, h.segs, h.fcs, h.csas
  {
    exists k :: 0 <= k < h.sis.Length && FirstHitAt(h, si, k)
  }

  lemma {:induction false} SiAfterShift(h: Heap, si: Ref, k: nat)
    requires Probe(h.sis.Length, h.mapped.sis, si)
    ensures SiAfter(h, si, k + 1) == SiAfter(h, h.sis[si.i].nextSgmInfo, k)
  {
    if k > 0 {
      SiAfterShift(h, si, k - 1);
    }
  }

  /** The walk answers "underway" exactly when, within its bound, it reaches a hit
      with no hit before it. */
  lemma {:induction false} TpUnderwayIffFirstHit(h: Heap, si: Ref, fuel: nat)
    ensures TpUnderway(h, si, fuel) <==> exists k :: 0 <= k < fuel && FirstHitAt(h, si, k)
    decreases fuel
  {
    if fuel == 0 {
    } else if !Probe(h.sis.Length, h.mapped.sis, si) {
      if exists k :: 0 <= k < fuel && FirstHitAt(h, si, k) {
        var k :| 0 <= k < fuel && FirstHitAt(h, si, k);
        assert SiAfter(h, si, 0) == Some(si);
        if k > 0 {
          assert !TpHit(h, si);
          NoProbeNoSuccessor(h, si, k);
        }
      }
    } else if TpHit(h, si) {
      assert FirstHitAt(h, si, 0);
    } else {
      var nx := h.sis[si.i].nextSgmInfo;
      TpUnderwayIffFirstHit(h, nx, fuel - 1);
      if TpUnderway(h, nx, fuel - 1) {
        var k :| 0 <= k < fuel - 1 && FirstHitAt(h, nx, k);
        SiAfterShift(h, si, k);
        forall j | 0 <= j < k + 1
          ensures SiAfter(h, si, j).Some? && !TpHit(h, SiAfter(h, si, j).value)
        {
          if j > 0 {
            SiAfterShift(h, si, j - 1);
          }
        }
        assert FirstHitAt(h, si, k + 1);
      } else if exists k :: 0 <= k < fuel && FirstHitAt(h, si, k) {
        var k :| 0 <= k < fuel && FirstHitAt(h, si, k);
        assert k != 0;
        SiAfterShift(h, si, k - 1);
        forall j | 0 <= j < k - 1
          ensures SiAfter(h, nx, j).Some? && !TpHit(h, SiAfter(h, nx, j).value)
        {
          SiAfterShift(h, si, j);
        }
        assert FirstHitAt(h, nx, k - 1);
      }
    }
  }

  lemma NoProbeNoSuccessor(h: Heap, si: Ref, k: nat)
    requires !Probe(h.sis.Length, h.mapped.sis, si) && k > 0
    ensures SiAfter(h, si, k).Some? ==> !TpHit(h, SiAfter(h, si, k).value)
  {
    NoProbeStaysFailed(h, si, k);
  }

  lemma {:induction false} NoProbeStaysFailed(h: Heap, si: Ref, k: nat)
    requires !Probe(h.sis.Length, h.mapped.sis, si) && 0 < k
    ensures SiAfter(h, si, k).None?
  {
    if k > 1 {
      NoProbeStaysFailed(h, si, k - 1);
    }
  }

  /** The non-TP test (lines 321-337). */
  predicate NonTpUnderway(g: Globals, h: Heap)
    reads h.csas
  {
    g.csAddrs.Some? && Probe(h.csas.Length, h.mapped.csas, g.csAddrs.value) &&
    var c := h.csas[g.csAddrs.value.i];
    c.nowCrit && (c.tCommitCrit || g.updateTransStarted == Some(true))
  }

  /** `dlr_tlevel`: $TLEVEL when its address can be read, else 0. */
  predicate DlrTlevel(g: Globals)
  {
    g.dollarTlevel.Some? && g.dollarTlevel.value != 0
  }

  datatype Verdict = Verdict(dlrTlevel: bool, tp: bool, nonTp: bool)
  {
    predicate Underway() { tp || nonTp }
  }

  /** The TP walk as the loop it is. */
  method ClassifyTp(h: Heap, first: Ref) returns (underway: bool)
    ensures underway == TpUnderway(h, first, h.sis.Length)
  {
    var si := first;
    var fuel: nat := h.sis.Length;
    while fuel > 0 && Probe(h.sis.Length, h.mapped.sis, si)
      invariant TpUnderway(h, si, fuel) == TpUnderway(h, first, h.sis.Length)
      decreases fuel
    {
      var s := h.sis[si.i];
      if s.commitStarted {
        return true;
      }
      if Probe(h.tpCw.Length, h.mapped.tpCw, s.firstCwSet) {
        var a := ProbeRegion(h, s.gvCurRegion);
        if a.Some? && h.csas[a.value].nowCrit && h.csas[a.value].tCommitCrit {
          return true;
        }
      }
      si, fuel := s.nextSgmInfo, fuel - 1;
    }
    return false;
  }

  /** The classification: TP when $TLEVEL is non-zero, non-TP otherwise; the two
      verdicts never both hold. */
  method ClassifyUpdate(g: Globals, h: Heap) returns (v: Verdict)
    ensures v.dlrTlevel == DlrTlevel(g)
    ensures v.tp <==> DlrTlevel(g) && g.firstTpSiByFtok.Some? &&
                      exists k :: 0 <= k < h.sis.Length && FirstHitAt(h, g.firstTpSiByFtok.value, k)
    ensures v.nonTp <==> !DlrTlevel(g) && NonTpUnderway(g, h)
    ensures !(v.tp && v.nonTp)
  {
    var dlr := DlrTlevel(g);
    var tp := false;
    if dlr && g.firstTpSiByFtok.Some? {
      tp := ClassifyTp(h, g.firstTpSiByFtok.value);
      TpUnderwayIffFirstHit(h, g.firstTpSiByFtok.value, h.sis.Length);
    }
    var nonTp := !dlr && NonTpUnderway(g, h);
    v := Verdict(dlr, tp, nonTp);
  }
}
