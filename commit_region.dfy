/** One region's roll-forward as a whole (lines 574-1084): free_blocks is first put
    back to its value before the commit when the process was inside the commit
    proper (t_commit_crit), the elements are rolled forward, and the file header's
    kill-in-progress count is raised when the commit had freed blocks and the raise
    had not been made yet. */
module CommitRegion {

  import opened Arena
  import opened CwSets
  import opened SharedMemory
  import opened RollForward

  // ---------------------------------------------------------------------------
  // The kill-in-progress decision. CAREFUL_INCR_KIP (gdsfhead.h, not part of this
  // model) is taken to raise csd->kill_in_prog by one and set the flag it is given.

  /** TP (lines 1034-1056): the file header's count and si->kip_incremented after the
      decision, for a region whose commit type is `ct`, whose kill set is non-empty
      or not, and whose sgm_info is writable or not. */
  function TpKip(ct: CommitType, hasKillSet: bool, writable: bool, killInProg: nat, kipIncremented: bool)
    : (r: (nat, bool))
  {
    if ct != Complete && hasKillSet && writable && !kipIncremented then (killInProg + 1, true)
    else (killInProg, kipIncremented)
  }

  /** The count goes up by one exactly when the flag goes from clear to set, and that
      happens only for a commit GT.M had not completed, with a kill set, when the
      flag can be written. */
  lemma TpKipRaisesWithFlag(ct: CommitType, hasKillSet: bool, writable: bool, killInProg: nat, kipIncremented: bool)
    ensures var (k, f) := TpKip(ct, hasKillSet, writable, killInProg, kipIncremented);
            (k == killInProg + 1 && f && !kipIncremented) || (k == killInProg && f == kipIncremented)
    ensures var (k, f) := TpKip(ct, hasKillSet, writable, killInProg, kipIncremented);
            k == killInProg + 1 <==> ct != Complete && hasKillSet && writable && !kipIncremented
  {
  }

  /** Afterwards a region with a kill set that GT.M had not finished has its flag set
      (the assertion after line 1055), and running the decision again raises nothing. */
  lemma TpKipSettles(ct: CommitType, hasKillSet: bool, writable: bool, killInProg: nat, kipIncremented: bool)
    ensures var (k, f) := TpKip(ct, hasKillSet, writable, killInProg, kipIncremented);
            (ct != Complete && hasKillSet && writable ==> f) &&
            TpKip(ct, hasKillSet, writable, k, f) == (k, f)
  {
  }

  /** Non-TP (lines 1057-1083): kip_incremented and need_kip_incr (None: the address
      fails its write probe) and the file header's count after the decision. */
  function NonTpKip(kipIncremented: Option<bool>, needKipIncr: Option<bool>, killInProg: nat)
    : (r: (Option<bool>, Option<bool>, nat))
  {
    if needKipIncr == Some(true) && kipIncremented == Some(false) then (Some(true), Some(false), killInProg + 1)
    else (kipIncremented, needKipIncr, killInProg)
  }

  /** The count is raised exactly when the second phase of an M kill was pending
      (need_kip_incr set, kip_incremented clear), and then both flags flip. Afterwards
      no raise is pending, so a second cleanup raises nothing. */
  lemma NonTpKipRaisesOnce(kipIncremented: Option<bool>, needKipIncr: Option<bool>, killInProg: nat)
    ensures var (kip, need, k) := NonTpKip(kipIncremented, needKipIncr, killInProg);
            (k == killInProg + 1 <==> needKipIncr == Some(true) && kipIncremented == Some(false)) &&
            (k == killInProg + 1 ==> kip == Some(true) && need == Some(false)) &&
            (k == killInProg ==> kip == kipIncremented && need == needKipIncr) &&
            !(need == Some(true) && kip == Some(false)) &&
            NonTpKip(kip, need, k) == (kip, need, k)
  {
  }

  /** The TP decision on the region's sgm_info (slot `si`) and file header. */
  method ApplyTpKip(h: Heap, si: nat, d: nat, ct: CommitType)
    requires si < h.sis.Length && d < h.csds.Length
    modifies h.sis, h.csds
    ensures var (k, f) := TpKip(ct, old(h.sis[si].hasKillSet), si in h.mapped.sisWritable,
                                 old(h.csds[d].killInProg), old(h.sis[si].kipIncremented));
            h.csds[..] == old(h.csds[..])[d := old(h.csds[d]).(killInProg := k)] &&
            h.sis[..] == old(h.sis[..])[si := old(h.sis[si]).(kipIncremented := f)]
  {
    var writable := si in h.mapped.sisWritable;
    var s := h.sis[si];
    if ct != Complete && s.hasKillSet && writable && !s.kipIncremented {
      h.csds[d] := h.csds[d].(killInProg := h.csds[d].killInProg + 1);
      h.sis[si] := s.(kipIncremented := true);
    }
  }

  /** The non-TP decision on the two process flags and the file header. */
  method ApplyNonTpKip(flags: KipFlags, h: Heap, d: nat)
    requires d < h.csds.Length
    modifies flags, h.csds
    ensures var (kip, need, k) := NonTpKip(old(flags.kipIncremented), old(flags.needKipIncr), old(h.csds[d].killInProg));
            flags.kipIncremented == kip && flags.needKipIncr == need &&
            h.csds[..] == old(h.csds[..])[d := old(h.csds[d]).(killInProg := k)]
  {
    var usable := flags.kipIncremented.Some?;
    var need := flags.needKipIncr.GetOr(false);
    if need && usable && !flags.kipIncremented.value {
      h.csds[d] := h.csds[d].(killInProg := h.csds[d].killInProg + 1);
      flags.kipIncremented := Some(true);
      flags.needKipIncr := Some(false);
    }
  }

  // ---------------------------------------------------------------------------
  // The region

  /** free_blocks when the loop starts (lines 583-588). */
  function StartingFreeBlocks(tCommitCrit: bool, freeBlocks: int, prevFreeBlks: int): int
  {
    if tCommitCrit then prevFreeBlks else freeBlocks
  }

  /** The file headers differ from `before` at most in the region's free_blocks,
      blks_to_upgrd and kill_in_prog. */
  ghost predicate CountersOnly(before: seq<Csd>, after: seq<Csd>, d: nat)
  {
    d < |before| == |after| &&
    after == before[d := before[d].(freeBlocks := after[d].freeBlocks, blksToUpgrd := after[d].blksToUpgrd,
                                    killInProg := after[d].killInProg)]
  }

  /** Lines 603-1056 for a TP region: the elements, then the TP decision, taken on
      the commit type the elements' outcomes give. */
  method CommitTpRegion(h: Heap, ctx: Ctx, si: nat, clru0: nat)
      returns (ghost os: seq<Outcome>, ghost visited: seq<nat>, ghost lcnt: nat)
    requires CtxOk(h, ctx) && ctx.tp && NewBuffsValid(h) && si < h.sis.Length
    requires ctx.isBg ==> ctx.start <= clru0
    modifies h.tpCw, h.crs, h.pages, h.csds, h.sis
    ensures NewBuffsValid(h)
    ensures TpVisited(old(h.tpCw[..]), TpWalk(old(h.tpCw[..]), h.mapped.tpCw, ctx.firstCw, h.tpCw.Length),
                      h.tpCw[..], os, visited, [])
    ensures TpSkipsExplained(ctx, old(h.tpCw[..]), os, visited, old(h.csds[ctx.csd].currTn), h.pages.Length,
                             h.mapped.pages, lcnt)
    ensures CountersOnly(old(h.csds[..]), h.csds[..], ctx.csd)
    ensures h.csds[ctx.csd].freeBlocks == old(h.csds[ctx.csd].freeBlocks) - TotalConsumed(os, ctx.tCommitCrit)
    ensures var (k, f) := TpKip(CommitTypeAfter(os), old(h.sis[si].hasKillSet), si in h.mapped.sisWritable,
                                 old(h.csds[ctx.csd].killInProg), old(h.sis[si].kipIncremented));
            h.csds[ctx.csd].killInProg == k && h.sis[si].kipIncremented == f
  {
    var ct;
    ct, lcnt, os, visited := RollTp(h, ctx, clru0);
    ApplyTpKip(h, si, ctx.csd, ct);
  }

  /** Lines 603-1083 for a non-TP region: the elements, then the non-TP decision. */
  method CommitNonTpRegion(h: Heap, ctx: Ctx, flags: KipFlags, clru0: nat) returns (ghost os: seq<Outcome>, ghost lcnt: nat)
    requires CtxOk(h, ctx) && !ctx.tp
    requires ctx.isBg ==> ctx.start <= clru0
    modifies h.ntpCw, h.crs, h.pages, h.csds, flags
    ensures |os| <= ctx.csTop
    ensures forall k :: 0 <= k < |os| ==> Probe(h.ntpCw.Length, h.mapped.ntpCw, At(k))
    ensures |os| < ctx.csTop ==> !Probe(h.ntpCw.Length, h.mapped.ntpCw, At(|os|))
    ensures NonTpVisited(old(h.ntpCw[..]), h.ntpCw[..], os)
    ensures NonTpSkipsExplained(ctx, old(h.ntpCw[..]), os, old(h.csds[ctx.csd].currTn), h.pages.Length,
                                h.mapped.pages, lcnt)
    ensures CountersOnly(old(h.csds[..]), h.csds[..], ctx.csd)
    ensures h.csds[ctx.csd].freeBlocks == old(h.csds[ctx.csd].freeBlocks) - TotalConsumed(os, ctx.tCommitCrit)
    ensures var (kip, need, k) := NonTpKip(old(flags.kipIncremented), old(flags.needKipIncr),
                                           old(h.csds[ctx.csd].killInProg));
            h.csds[ctx.csd].killInProg == k && flags.kipIncremented == kip && flags.needKipIncr == need
  {
    lcnt, os := RollNonTp(h, ctx, clru0);
    ApplyNonTpKip(flags, h, ctx.csd);
  }

  /** The commit elements of a region after its roll-forward, from `tp0` and `ntp0`
      before it, with outcomes `os` and `lcnt` the cache-record search budget
      spent: for TP the elements the walk from the list head reaches are visited,
      each committed unless skipped; for non-TP the elements up to cs_top are
      processed in order, stopping early only at one that fails its probe, each
      going as its outcome says; in both every skipped element failed for the
      reason its outcome gives; and the other kind's elements are untouched. */
  ghost predicate ElementsRolled(h: Heap, ctx: Ctx, tp0: seq<CwSet>, ntp0: seq<CwSet>, tp: seq<CwSet>,
                                 ntp: seq<CwSet>, currTn: int, os: seq<Outcome>, visited: seq<nat>, lcnt: nat)
  {
    (ctx.tp ==>
       ntp == ntp0 &&
       TpVisited(tp0, TpWalk(tp0, h.mapped.tpCw, ctx.firstCw, |tp0|), tp, os, visited, []) &&
       TpSkipsExplained(ctx, tp0, os, visited, currTn, h.pages.Length, h.mapped.pages, lcnt)) &&
    (!ctx.tp ==>
       tp == tp0 && |os| <= ctx.csTop &&
       (forall k :: 0 <= k < |os| ==> Probe(h.ntpCw.Length, h.mapped.ntpCw, At(k))) &&
       (|os| < ctx.csTop ==> !Probe(h.ntpCw.Length, h.mapped.ntpCw, At(|os|))) &&
       NonTpVisited(ntp0, ntp, os) &&
       NonTpSkipsExplained(ctx, ntp0, os, currTn, h.pages.Length, h.mapped.pages, lcnt))
  }

  /** The file header's counters after a region's roll-forward, from `sd0` before
      it: free_blocks at its starting value less what the outcomes `os` consumed,
      and kill_in_prog raised as the kill-in-progress decision says, the TP decision
      taken on the sgm_info in slot `si` (`sis0` before, `sis` after) and the non-TP
      one on the flags (`kip0` and `need0` before, `kip` and `need` after). */
  ghost predicate Counted(ctx: Ctx, prevFreeBlks: int, sd0: Csd, sd: Csd, writable: bool, sis0: seq<SgmInfo>,
                          sis: seq<SgmInfo>, si: nat, kip0: Option<bool>, need0: Option<bool>, kip: Option<bool>,
                          need: Option<bool>, os: seq<Outcome>)
  {
    sd.freeBlocks == StartingFreeBlocks(ctx.tCommitCrit, sd0.freeBlocks, prevFreeBlks) - TotalConsumed(os, ctx.tCommitCrit) &&
    (ctx.tp ==>
       si < |sis0| && si < |sis| &&
       var (k, f) := TpKip(CommitTypeAfter(os), sis0[si].hasKillSet, writable, sd0.killInProg, sis0[si].kipIncremented);
       sd.killInProg == k && sis[si].kipIncremented == f) &&
    (!ctx.tp ==>
       var (kip', need', k) := NonTpKip(kip0, need0, sd0.killInProg);
       sd.killInProg == k && kip == kip' && need == need')
  }

  /** Lines 574-1084 for a region held in crit with elements to commit. `si` is the
      region's sgm_info (TP) and `prevFreeBlks` csa->prev_free_blks. The outcomes
      `os` are those of the elements reached, in order; free_blocks ends at its
      starting value less what they consumed, kill_in_prog is raised as the
      kill-in-progress decision says, and nothing else of the file header changes.
      The elements end as the TP walk or the non-TP loop leaves them, every skipped
      one for the reason its outcome gives. */
  method RollRegion(h: Heap, ctx: Ctx, si: nat, flags: KipFlags, prevFreeBlks: int, clru0: nat)
      returns (ghost os: seq<Outcome>, ghost visited: seq<nat>, ghost lcnt: nat)
    requires CtxOk(h, ctx) && Wf(h) && NewBuffsValid(h) && (ctx.tp ==> si < h.sis.Length)
    requires ctx.isBg ==> ctx.start <= clru0
    modifies h.tpCw, h.ntpCw, h.crs, h.pages, h.csds, h.sis, flags
    ensures NewBuffsValid(h)
    ensures CountersOnly(old(h.csds[..]), h.csds[..], ctx.csd)
    ensures Counted(ctx, prevFreeBlks, old(h.csds[ctx.csd]), h.csds[ctx.csd], si in h.mapped.sisWritable,
                    old(h.sis[..]), h.sis[..], si, old(flags.kipIncremented), old(flags.needKipIncr),
                    flags.kipIncremented, flags.needKipIncr, os)
    ensures ElementsRolled(h, ctx, old(h.tpCw[..]), old(h.ntpCw[..]), h.tpCw[..], h.ntpCw[..],
                           old(h.csds[ctx.csd].currTn), os, visited, lcnt)
  {
    var d := ctx.csd;
    ghost var csds0 := h.csds[..];
    if ctx.tCommitCrit {
      h.csds[d] := h.csds[d].(freeBlocks := prevFreeBlks);
    }
    ghost var csds1 := h.csds[..];
    assert CountersOnly(csds0, csds1, d);
    if ctx.tp {
      os, visited, lcnt := CommitTpRegion(h, ctx, si, clru0);
    } else {
      visited := [];
      os, lcnt := CommitNonTpRegion(h, ctx, flags, clru0);
    }
    CountersOnlyTrans(csds0, csds1, h.csds[..], d);
  }

  /** Two changes to the counters only are one. */
  lemma CountersOnlyTrans(a: seq<Csd>, b: seq<Csd>, c: seq<Csd>, d: nat)
    requires CountersOnly(a, b, d) && CountersOnly(b, c, d)
    ensures CountersOnly(a, c, d)
  {
  }
}
