/** The per-region roll-forward of an interrupted commit (lines 574-1085): every
    commit element of the region the routine can reach is brought to
    gds_t_committed, its block built into a cache record (BG) or the mapped file
    (MM), free_blocks settled, and the kill-in-progress count raised when the
    commit had not finished. */
module RollForward {

  import opened Arena
  import opened CwSets
  import opened Lru
  import opened Blocks
  import opened SharedMemory

  /** sec_shr_blk_build and sec_shr_map_build, which are not part of this model:
      from the element, the buffer and the current transaction number, whether the
      build succeeded and the buffer it leaves behind (and, for a bitmap, the
      element's new reference count). */
  datatype Builders = Builders(
    blkBuild: (CwSet, Page, int) -> (bool, Page),
    mapBuild: (CwSet, Page, int) -> (bool, Page, Int32))

  /** What one region's loop reads from structures it does not change: whether the
      commit is TP, csa->t_commit_crit, the file header's slot, the region's cache
      records [start, top) (BG) or the buffer slot of block 0 (MM), whether an
      online backup is running, the TP list head and sgm_info depth, the non-TP
      element count, and whether the inctn opcode and detail name a bitmap free
      (lines 1018-1024). */
  datatype Ctx = Ctx(
    tp: bool, tCommitCrit: bool, csd: nat,
    isBg: bool, start: nat, top: nat, mmBase: int, backup: bool,
    firstCw: Ref, depth: nat, csTop: nat, freeing: bool, b: Builders)

  /** The commit elements of the region: a TP region's linked list or the non-TP
      array cw_set_addrs. */
  function Cw(h: Heap, tp: bool): array<CwSet>
  {
    if tp then h.tpCw else h.ntpCw
  }

  function CwMapped(h: Heap, tp: bool): set<nat>
  {
    if tp then h.mapped.tpCw else h.mapped.ntpCw
  }

  predicate CtxOk(h: Heap, ctx: Ctx)
  {
    ctx.csd < h.csds.Length &&
    (ctx.isBg ==> ctx.start <= ctx.top <= h.crs.Length) &&
    (!ctx.tp ==> ctx.csTop <= h.ntpCw.Length)
  }

  /** The C code copies from a finished TP element's new_buff without a probe: the
      model takes every such buffer to be a page. */
  predicate NewBuffsValid(h: Heap)
    reads h.tpCw
  {
    forall j :: 0 <= j < h.tpCw.Length && h.tpCw[j].done ==>
      h.tpCw[j].newBuff.At? && h.tpCw[j].newBuff.i < h.pages.Length
  }

  /** `after` differs from `before` at most in the fields the loop writes. */
  predicate OnlyCommitFields(before: CwSet, after: CwSet)
  {
    after == before.(mode := after.mode, oldMode := after.oldMode, referenceCnt := after.referenceCnt,
                     insOff := after.insOff, nextOff := after.nextOff, firstOff := after.firstOff)
  }

  // ---------------------------------------------------------------------------
  // What happens to one element

  /** Why an element was skipped: no buffer could be had for its block, or its
      block could not be built in the buffer, which held `page`. */
  datatype Skip = NoBuffer | NotBuilt(page: Page)

  /** The fate of one element the loop reaches: relabelled (write_root, busy2free),
      found committed already, rolled forward now, or skipped after a contained
      failure. */
  datatype Outcome =
    | Relabelled(prior: Mode)
    | SeenCommitted(refCnt: Int32)
    | Rolled(prior: Mode, refCnt: Int32)
    | Skipped(why: Skip)

  /** How `before` became `after` under outcome `o`. */
  predicate Effect(before: CwSet, after: CwSet, o: Outcome)
  {
    match o
    case Relabelled(m) =>
      NonTpOnly(m) && m == before.mode && after == before.(oldMode := m, mode := Committed)
    case SeenCommitted(rc) =>
      before.mode == Committed && after == before && rc == before.referenceCnt
    case Rolled(m, rc) =>
      m == before.mode && !NonTpOnly(m) && m != Committed &&
      OnlyCommitFields(before, after) && after.mode == Committed && after.oldMode == m &&
      rc == after.referenceCnt
    case Skipped(_) =>
      !NonTpOnly(before.mode) && before.mode != Committed && after == before
  }

  /** An element the loop changed is committed and remembers the mode it had. */
  predicate Committing(before: CwSet, after: CwSet)
  {
    before.mode != Committed && after.mode == Committed && after.oldMode == before.mode &&
    OnlyCommitFields(before, after) &&
    (NonTpOnly(before.mode) ==> after == before.(oldMode := before.mode, mode := Committed))
  }

  /** The fields the loop walks and copies from are the same in both. */
  predicate SameLinks(a: CwSet, b: CwSet)
  {
    a.highTlevel == b.highTlevel && a.nextCwSet == b.nextCwSet && a.done == b.done &&
    a.newBuff == b.newBuff && a.blk == b.blk
  }

  lemma EffectCommits(before: CwSet, after: CwSet, o: Outcome)
    requires Effect(before, after, o)
    ensures after == before || Committing(before, after)
    ensures !o.Skipped? ==> after.mode == Committed
    ensures before.mode == Committed ==> after == before
    ensures SameLinks(before, after)
  {
  }

  /** What an outcome takes off free_blocks: a newly committed element its reference
      count, an already committed one its count only when t_commit_crit reset the
      counter first (lines 583-588, 650-651, 1029). */
  function Consumed(o: Outcome, tCommitCrit: bool): int
  {
    match o
    case SeenCommitted(rc) => if tCommitCrit then rc else 0
    case Rolled(_, rc) => rc
    case _ => 0
  }

  function TotalConsumed(os: seq<Outcome>, tCommitCrit: bool): int
  {
    if os == [] then 0 else TotalConsumed(os[..|os| - 1], tCommitCrit) + Consumed(os[|os| - 1], tCommitCrit)
  }

  /** The reference counts of every committed element, old or new. */
  function CommittedRefs(os: seq<Outcome>): int
  {
    if os == [] then 0
    else
      var o := os[0];
      (match o
       case SeenCommitted(rc) => rc
       case Rolled(_, rc) => rc
       case _ => 0) + CommittedRefs(os[1..])
  }

  /** The newly committed elements' reference counts. */
  function RolledRefs(os: seq<Outcome>): int
  {
    if os == [] then 0 else (if os[0].Rolled? then os[0].refCnt else 0) + RolledRefs(os[1..])
  }

  lemma {:induction false} CommittedRefsSnoc(os: seq<Outcome>, o: Outcome)
    ensures CommittedRefs(os + [o]) == CommittedRefs(os) + CommittedRefs([o])
    ensures RolledRefs(os + [o]) == RolledRefs(os) + RolledRefs([o])
  {
    if os != [] {
      assert (os + [o])[1..] == os[1..] + [o];
      CommittedRefsSnoc(os[1..], o);
    }
  }

  /** With t_commit_crit set, the counter ends at its value before the commit
      (prev_free_blks) less the reference counts of every element of the commit, so
      elements the process committed itself are neither lost nor counted twice;
      without it, only the elements rolled forward now are taken off. */
  lemma {:induction false} FreeBlocksSettled(os: seq<Outcome>, tCommitCrit: bool)
    ensures tCommitCrit ==> TotalConsumed(os, tCommitCrit) == CommittedRefs(os)
    ensures !tCommitCrit ==> TotalConsumed(os, tCommitCrit) == RolledRefs(os)
  {
    if os != [] {
      var init := os[..|os| - 1];
      FreeBlocksSettled(init, tCommitCrit);
      CommittedRefsSnoc(init, os[|os| - 1]);
      assert init + [os[|os| - 1]] == os;
    }
  }

  // ---------------------------------------------------------------------------
  // The region's commit type (TP only)

  datatype CommitType = Unstarted | Partial | Complete

  /** Line 601 starts at UNSTARTED; line 658 sets COMPLETE on an element found
      committed; line 699 turns COMPLETE into PARTIAL on an element not committed. */
  function NextCommitType(t: CommitType, o: Outcome): CommitType
  {
    match o
    case SeenCommitted(_) => Complete
    case Relabelled(_) => t
    case _ => if t == Complete then Partial else t
  }

  function CommitTypeAfter(os: seq<Outcome>): CommitType
  {
    if os == [] then Unstarted else NextCommitType(CommitTypeAfter(os[..|os| - 1]), os[|os| - 1])
  }

  predicate Uncommitted(o: Outcome)
  {
    o.Rolled? || o.Skipped?
  }

  /** The type is UNSTARTED exactly when no element was found committed. */
  lemma {:induction false} UnstartedIffNoneCommitted(os: seq<Outcome>)
    ensures CommitTypeAfter(os) == Unstarted <==> forall k :: 0 <= k < |os| ==> !os[k].SeenCommitted?
  {
    if os != [] {
      UnstartedIffNoneCommitted(os[..|os| - 1]);
      assert forall k :: 0 <= k < |os| - 1 ==> os[..|os| - 1][k] == os[k];
    }
  }

  /** The type is COMPLETE exactly when some element was found committed and no
      uncommitted one came after the last such element. */
  lemma {:induction false} CompleteIffCommittedLast(os: seq<Outcome>)
    ensures CommitTypeAfter(os) == Complete <==>
              exists i :: 0 <= i < |os| && os[i].SeenCommitted? &&
                forall j :: i < j < |os| ==> !Uncommitted(os[j])
  {
    if os != [] {
      var n := |os| - 1;
      var init := os[..n];
      CompleteIffCommittedLast(init);
      assert forall k :: 0 <= k < n ==> init[k] == os[k];
      if CommitTypeAfter(os) == Complete {
        if !os[n].SeenCommitted? {
          var i :| 0 <= i < n && init[i].SeenCommitted? && forall j :: i < j < n ==> !Uncommitted(init[j]);
          assert forall j :: i < j < |os| ==> !Uncommitted(os[j]);
        }
      }
      if exists i :: 0 <= i < |os| && os[i].SeenCommitted? && forall j :: i < j < |os| ==> !Uncommitted(os[j]) {
        var i :| 0 <= i < |os| && os[i].SeenCommitted? && forall j :: i < j < |os| ==> !Uncommitted(os[j]);
        if i < n {
          assert forall j :: i < j < n ==> !Uncommitted(init[j]);
          assert !Uncommitted(os[n]);
        }
      }
    }
  }

  /** When GT.M committed the region's elements in list order (a run of elements
      found committed, then the rest), the three types say exactly: none committed,
      all committed, or some of each. */
  lemma CommitTypeOfOrderedCommit(os: seq<Outcome>)
    requires forall i, j :: 0 <= i < j < |os| && Uncommitted(os[i]) ==> !os[j].SeenCommitted?
    ensures CommitTypeAfter(os) == Partial <==>
              (exists i :: 0 <= i < |os| && os[i].SeenCommitted?) &&
              (exists j :: 0 <= j < |os| && Uncommitted(os[j]))
  {
    UnstartedIffNoneCommitted(os);
    CompleteIffCommittedLast(os);
  }

  // ---------------------------------------------------------------------------
  // Claiming a cache record (BG)

  /** INCR_BLKS_TO_UPGRD / DECR_BLKS_TO_UPGRD for a claimed record (lines 767-790). */
  function UpgrdDelta(mode: Mode, csOndsk: BlkVer, desired: BlkVer): int
  {
    if mode == Acquired then (if desired == V4 then 1 else 0)
    else if csOndsk == desired || mode == WriteRecycled then 0
    else if desired == V4 then 1 else -1
  }

  function V4Count(v: BlkVer): int
  {
    if v == V4 then 1 else 0
  }

  /** blks_to_upgrd counts blocks in the old format: a newly acquired block adds
      itself when written in V4; any other block, except a recycled one, moves the
      count by its change of format. */
  lemma UpgrdDeltaTracksFormat(mode: Mode, csOndsk: BlkVer, desired: BlkVer)
    ensures mode == Acquired ==> UpgrdDelta(mode, csOndsk, desired) == V4Count(desired)
    ensures mode != Acquired && mode != WriteRecycled ==>
              UpgrdDelta(mode, csOndsk, desired) == V4Count(desired) - V4Count(csOndsk)
    ensures mode == WriteRecycled ==> UpgrdDelta(mode, csOndsk, desired) == 0
  {
  }

  /** The record claimed for element `cs` (lines 728-790). */
  function Claimed(cr: CacheRec, cs: CwSet, backup: bool, desired: BlkVer): CacheRec
  {
    cr.(cycle := Incr32(cr.cycle), blk := cs.blk, jnlAddr := cs.jnlFreeaddr, stopped := true,
        twin := if backup && cs.oldBlock.At? then BeforeImage(cs.oldBlock.i) else cr.twin,
        ondskBlkver := desired)
  }

  /** A claimed record holds the element's block in the desired format under a new
      cycle, keeps its buffer, and being stopped can never be claimed again. */
  lemma ClaimedHoldsBlock(cr: CacheRec, cs: CwSet, backup: bool, desired: BlkVer, pagesLen: nat, pagesMapped: set<nat>)
    ensures var r := Claimed(cr, cs, backup, desired);
            r.blk == cs.blk && r.cycle != cr.cycle && r.stopped && r.buffer == cr.buffer &&
            r.ondskBlkver == desired && !Eligible(r, pagesLen, pagesMapped)
  {
  }

  /** Lines 701-790: find a free record of the region and claim it for `cs`. */
  method ClaimRecord(h: Heap, ctx: Ctx, cs: CwSet, clru0: nat, lcnt0: nat)
      returns (found: bool, clru: nat, lcnt: nat)
    requires CtxOk(h, ctx) && ctx.isBg && ctx.start <= clru0
    modifies h.crs, h.csds
    ensures lcnt0 <= lcnt && ctx.start <= clru && clru == Iter(clru0, lcnt - lcnt0, ctx.start, ctx.top)
    ensures lcnt0 <= ctx.top - ctx.start ==> lcnt <= ctx.top - ctx.start
    ensures !found ==> lcnt >= ctx.top - ctx.start && h.crs[..] == old(h.crs[..]) && h.csds[..] == old(h.csds[..])
    ensures forall k :: 1 <= k <= lcnt - lcnt0 && (found ==> k < lcnt - lcnt0) ==>
              ctx.start <= Iter(clru0, k, ctx.start, ctx.top) < ctx.top &&
              !Eligible(old(h.crs[Iter(clru0, k, ctx.start, ctx.top)]), h.pages.Length, h.mapped.pages)
    ensures found ==>
              ctx.start <= clru < ctx.top && Eligible(old(h.crs[clru]), h.pages.Length, h.mapped.pages) &&
              h.crs[..] == old(h.crs[..])[clru := Claimed(old(h.crs[clru]), cs, ctx.backup, old(h.csds[ctx.csd].desiredDbFormat))] &&
              h.csds[..] == old(h.csds[..])[ctx.csd := old(h.csds[ctx.csd]).(blksToUpgrd :=
                old(h.csds[ctx.csd].blksToUpgrd) + UpgrdDelta(cs.mode, cs.ondskBlkver, old(h.csds[ctx.csd].desiredDbFormat)))]
  {
    found, clru, lcnt := FindFreeSlot(h.crs, h.pages.Length, h.mapped.pages, ctx.start, ctx.top, ctx.top - ctx.start, clru0, lcnt0);
    if !found {
      return;
    }
    var csd := h.csds[ctx.csd];
    h.crs[clru] := Claimed(h.crs[clru], cs, ctx.backup, csd.desiredDbFormat);
    h.csds[ctx.csd] := csd.(blksToUpgrd := csd.blksToUpgrd + UpgrdDelta(cs.mode, cs.ondskBlkver, csd.desiredDbFormat));
  }

  // ---------------------------------------------------------------------------
  // Building the block

  /** Lines 808-845: a bitmap is copied from the element's old block and rebuilt by
      sec_shr_map_build, whose failure is only logged; the rebuild fixes the
      element's reference count. Fails only when old_block is not mapped. */
  method BuildMap(h: Heap, ctx: Ctx, c: nat, p: nat) returns (ok: bool)
    requires CtxOk(h, ctx) && c < Cw(h, ctx.tp).Length && p < h.pages.Length
    modifies h.pages, Cw(h, ctx.tp)
    ensures var cs := old(Cw(h, ctx.tp)[c]);
            ok <==> Probe(h.pages.Length, h.mapped.pages, cs.oldBlock)
    ensures !ok ==> h.pages[..] == old(h.pages[..]) && Cw(h, ctx.tp)[..] == old(Cw(h, ctx.tp)[..])
    ensures ok ==>
              var cs := old(Cw(h, ctx.tp)[c]);
              var copied := CopyPrefix(old(h.pages[p]), old(h.pages[cs.oldBlock.i]), old(h.csds[ctx.csd].blkSize));
              var (_, built, rc) := ctx.b.mapBuild(cs, copied, old(h.csds[ctx.csd].currTn));
              h.pages[..] == old(h.pages[..])[p := built] &&
              Cw(h, ctx.tp)[..] == old(Cw(h, ctx.tp)[..])[c := cs.(referenceCnt := rc)]
  {
    var cw := Cw(h, ctx.tp);
    var cs := cw[c];
    if !Probe(h.pages.Length, h.mapped.pages, cs.oldBlock) {
      return false;
    }
    var csd := h.csds[ctx.csd];
    var copied := CopyPrefix(h.pages[p], h.pages[cs.oldBlock.i], csd.blkSize);
    var (_, built, rc) := ctx.b.mapBuild(cs, copied, csd.currTn);
    h.pages[p] := built;
    cw[c] := cs.(referenceCnt := rc);
    ok := true;
  }

  /** The following element of a non-TP commit is a write_root whose pointer goes
      into this block too (lines 886-887). */
  predicate NextIsRoot(ntp: seq<CwSet>, c: nat, csTop: nat)
  {
    c + 1 < csTop && c + 1 < |ntp| && ntp[c + 1].mode == WriteRoot
  }

  /** The following element when it is such a write_root. */
  function RootAfter(ntp: seq<CwSet>, c: nat, csTop: nat): (r: Option<CwSet>)
    ensures r.Some? <==> NextIsRoot(ntp, c, csTop)
    ensures r.Some? ==> r.value == ntp[c + 1]
  {
    if NextIsRoot(ntp, c, csTop) then Some(ntp[c + 1]) else None
  }

  /** Whether the block build for `cs`, the element at position `c`, succeeds in a
      buffer holding `pg` (lines 808-1003): a bitmap needs its old block mapped; a
      non-TP block needs sec_shr_blk_build to succeed and, with an ins_off, its own
      bounds check and that of a following write_root (`root`) to pass; a TP block
      copied from a finished element always succeeds, and one still to be built
      needs the build and, with an ins_off, its bounds check to pass. */
  predicate BuildSucceeds(ctx: Ctx, cs: CwSet, root: Option<CwSet>, c: nat, pg: Page, currTn: int,
                          pagesLen: nat, pagesMapped: set<nat>)
  {
    if cs.mode == WriteMap then Probe(pagesLen, pagesMapped, cs.oldBlock)
    else
      var (built, b) := ctx.b.blkBuild(cs, pg, currTn);
      if !ctx.tp then
        built && (cs.insOff != 0 ==>
                    NonTpInsOffOk(cs.insOff, b.bsiz, cs.index, c) &&
                    (root.Some? ==> NonTpInsOffOk(root.value.insOff, b.bsiz, root.value.index, c)))
      else cs.done || (built && (cs.insOff != 0 ==> InsOffInBlock(cs.insOff, b.bsiz)))
  }

  /** Lines 848-911: a non-TP block is built by sec_shr_blk_build; then the pointer
      to the element at `index` goes in at `ins_off`, and that of a following
      write_root element at its `ins_off`, each only after its bounds check (the
      write_root's index is checked against this element's position). Any failure
      skips the element, leaving the page as far as it got. */
  method BuildNonTp(h: Heap, ctx: Ctx, c: nat, p: nat) returns (ok: bool)
    requires CtxOk(h, ctx) && !ctx.tp && c < ctx.csTop && p < h.pages.Length
    requires h.ntpCw[c].mode != WriteMap
    modifies h.pages
    ensures ok <==> BuildSucceeds(ctx, h.ntpCw[c], RootAfter(h.ntpCw[..], c, ctx.csTop), c, old(h.pages[p]),
                                  h.csds[ctx.csd].currTn, h.pages.Length, h.mapped.pages)
    ensures forall j :: 0 <= j < h.pages.Length && j != p ==> h.pages[j] == old(h.pages[j])
    ensures var cs := h.ntpCw[c];
            var nxt := if c + 1 < h.ntpCw.Length then h.ntpCw[c + 1] else cs;
            var (built, pg) := ctx.b.blkBuild(cs, old(h.pages[p]), h.csds[ctx.csd].currTn);
            var ownOk := NonTpInsOffOk(cs.insOff, pg.bsiz, cs.index, c);
            var rootOk := NonTpInsOffOk(nxt.insOff, pg.bsiz, nxt.index, c);
            h.pages[p].bsiz == pg.bsiz && h.pages[p].tn == pg.tn &&
            (forall k :: ReadLong(h.pages[p], k) != ReadLong(pg, k) ==>
               built && cs.insOff != 0 && ownOk &&
               (k == cs.insOff || (k == nxt.insOff && NextIsRoot(h.ntpCw[..], c, ctx.csTop) && rootOk))) &&
            (ok && cs.insOff != 0 && !(NextIsRoot(h.ntpCw[..], c, ctx.csTop) && nxt.insOff == cs.insOff) ==>
               ReadLong(h.pages[p], cs.insOff) == h.ntpCw[cs.index].blk) &&
            (ok && cs.insOff != 0 && NextIsRoot(h.ntpCw[..], c, ctx.csTop) ==>
               ReadLong(h.pages[p], nxt.insOff) == h.ntpCw[nxt.index].blk)
  {
    var cs := h.ntpCw[c];
    var (built, pg) := ctx.b.blkBuild(cs, h.pages[p], h.csds[ctx.csd].currTn);
    h.pages[p] := pg;
    if !built {
      return false;
    }
    if cs.insOff != 0 {
      if !NonTpInsOffOk(cs.insOff, pg.bsiz, cs.index, c) {
        return false;
      }
      h.pages[p] := PutLong(h.pages[p], cs.insOff, h.ntpCw[cs.index].blk);
      if c + 1 < ctx.csTop && h.ntpCw[c + 1].mode == WriteRoot {
        var nxt := h.ntpCw[c + 1];
        if !NonTpInsOffOk(nxt.insOff, h.pages[p].bsiz, nxt.index, c) {
          return false;
        }
        h.pages[p] := PutLong(h.pages[p], nxt.insOff, h.ntpCw[nxt.index].blk);
      }
    }
    ok := true;
  }

  /** The page a TP element starts from before its chain is walked (lines 914-966):
      a finished element's new_buff copied in with the current transaction number;
      otherwise the built block, with the element's own chain record planted at
      ins_off. */
  function TpBase(cs: CwSet, old_: Page, newBuff: Page, built: Page, currTn: int): Page
  {
    if cs.done then CopyPrefix(old_, newBuff, newBuff.bsiz).(tn := currTn)
    else if cs.insOff != 0 then PlantChainRecord(built, cs.insOff, cs.index, cs.nextOff)
    else built
  }

  /** The element after lines 951-959: an unfinished element with an ins_off takes it
      as its first_off when it had none and clears ins_off and next_off. */
  function TpPlanted(cs: CwSet): CwSet
  {
    if !cs.done && cs.insOff != 0 then
      cs.(firstOff := if cs.firstOff == 0 then cs.insOff else cs.firstOff, insOff := 0, nextOff := 0)
    else cs
  }

  /** Lines 912-1002: a TP block is built (or copied from new_buff), its chain record
      planted after the bounds check, and the chain walked from first_off. A failed
      build or bounds check skips the element. */
  method BuildTp(h: Heap, ctx: Ctx, c: nat, p: nat) returns (ok: bool, ghost written: set<int>)
    requires CtxOk(h, ctx) && ctx.tp && c < h.tpCw.Length && p < h.pages.Length
    requires NewBuffsValid(h) && h.tpCw[c].mode != WriteMap
    modifies h.pages, h.tpCw
    ensures forall j :: 0 <= j < h.pages.Length && j != p ==> h.pages[j] == old(h.pages[j])
    ensures forall j :: 0 <= j < h.tpCw.Length && j != c ==> h.tpCw[j] == old(h.tpCw[j])
    ensures ok <==> BuildSucceeds(ctx, old(h.tpCw[c]), None, c, old(h.pages[p]), h.csds[ctx.csd].currTn,
                                  h.pages.Length, h.mapped.pages)
    ensures !ok ==> h.tpCw[c] == old(h.tpCw[c])
    ensures ok ==>
              var cs := old(h.tpCw[c]);
              var nb := if cs.done then old(h.pages[cs.newBuff.i]) else old(h.pages[p]);
              var pg := ctx.b.blkBuild(cs, old(h.pages[p]), h.csds[ctx.csd].currTn).1;
              var base := TpBase(cs, old(h.pages[p]), nb, pg, h.csds[ctx.csd].currTn);
              h.tpCw[c] == TpPlanted(cs) &&
              h.pages[p].bsiz == base.bsiz && h.pages[p].tn == base.tn &&
              (TpPlanted(cs).firstOff == 0 ==> written == {}) &&
              (TpPlanted(cs).firstOff != 0 ==>
                 forall k :: k in written <==>
                   k in ChainFrom(base, h.tpCw[..], h.mapped.tpCw, ctx.firstCw, ctx.depth, TpPlanted(cs).firstOff)) &&
              (forall k :: k !in written ==> ReadLong(h.pages[p], k) == ReadLong(base, k)) &&
              (forall k :: k in written ==>
                 Rewrites(base, k, h.tpCw[..], h.mapped.tpCw, ctx.firstCw, ctx.depth, ReadLong(h.pages[p], k)))
  {
    written := {};
    ok := LayTpBase(h, ctx, c, p);
    if !ok {
      return;
    }
    var planted := h.tpCw[c];
    if planted.firstOff != 0 {
      var q;
      q, written := WalkChain(h.pages[p], h.tpCw, h.mapped.tpCw, ctx.firstCw, ctx.depth, planted.firstOff);
      h.pages[p] := q;
    }
  }

  /** Lines 912-966: the page a TP element's chain is walked on, as TpBase says, and
      the element as TpPlanted says; a failed build or bounds check skips the
      element, leaving it as it was. */
  method LayTpBase(h: Heap, ctx: Ctx, c: nat, p: nat) returns (ok: bool)
    requires CtxOk(h, ctx) && ctx.tp && c < h.tpCw.Length && p < h.pages.Length
    requires NewBuffsValid(h) && h.tpCw[c].mode != WriteMap
    modifies h.pages, h.tpCw
    ensures h.pages[..] == old(h.pages[..])[p := h.pages[p]]
    ensures h.tpCw[..] == old(h.tpCw[..])[c := h.tpCw[c]]
    ensures ok <==> BuildSucceeds(ctx, old(h.tpCw[c]), None, c, old(h.pages[p]), h.csds[ctx.csd].currTn,
                                  h.pages.Length, h.mapped.pages)
    ensures !ok ==> h.tpCw[c] == old(h.tpCw[c])
    ensures ok ==>
              var cs := old(h.tpCw[c]);
              var nb := if cs.done then old(h.pages[cs.newBuff.i]) else old(h.pages[p]);
              var pg := ctx.b.blkBuild(cs, old(h.pages[p]), h.csds[ctx.csd].currTn).1;
              h.tpCw[c] == TpPlanted(cs) && h.pages[p] == TpBase(cs, old(h.pages[p]), nb, pg, h.csds[ctx.csd].currTn)
  {
    var cs := h.tpCw[c];
    var currTn := h.csds[ctx.csd].currTn;
    if !cs.done {
      var (built, pg) := ctx.b.blkBuild(cs, h.pages[p], currTn);
      h.pages[p] := pg;
      if !built {
        return false;
      }
      if cs.insOff != 0 {
        if !InsOffInBlock(cs.insOff, pg.bsiz) {
          return false;
        }
        h.pages[p] := PlantChainRecord(pg, cs.insOff, cs.index, cs.nextOff);
        h.tpCw[c] := TpPlanted(cs);
      }
    } else {
      var nb := h.pages[cs.newBuff.i];
      h.pages[p] := CopyPrefix(h.pages[p], nb, nb.bsiz).(tn := currTn);
    }
    ok := true;
  }

  // ---------------------------------------------------------------------------
  // One element

  /** Of the file headers only the region's changed, and in it only free_blocks and
      blks_to_upgrd. */
  ghost predicate CountsOnly(before: seq<Csd>, after: seq<Csd>, d: nat)
  {
    d < |before| == |after| &&
    after == before[d := before[d].(freeBlocks := after[d].freeBlocks, blksToUpgrd := after[d].blksToUpgrd)]
  }

  /** MM (lines 793-806): the block's place in the mapped file, when it can be
      read. */
  function MmPage(ctx: Ctx, blk: int, pagesLen: nat, pagesMapped: set<nat>): (p: Option<nat>)
    ensures p.Some? <==> 0 <= ctx.mmBase + blk && Probe(pagesLen, pagesMapped, At(ctx.mmBase + blk))
    ensures p.Some? ==> p.value == ctx.mmBase + blk < pagesLen
  {
    var ptr := ctx.mmBase + blk;
    if 0 <= ptr && Probe(pagesLen, pagesMapped, At(ptr)) then Some(ptr) else None
  }

  /** What finding a buffer for an element whose block is `blk` left: `p` is the
      buffer, None when there is none, and `crs` the cache records, `crs0` before.
      In MM the buffer is the block's place in the mapped file and the records stay.
      In BG the search went `lcnt - lcnt0` steps from `clru0` to `clru`, every record
      it passed being ineligible; it found none only when the region's budget is
      spent, and otherwise claimed the eligible record at `clru`, whose buffer `p`
      is. */
  ghost predicate Located(ctx: Ctx, cs: CwSet, crs0: seq<CacheRec>, crs: seq<CacheRec>, desired: BlkVer,
                          pagesLen: nat, pagesMapped: set<nat>, clru0: nat, lcnt0: nat,
                          p: Option<nat>, clru: nat, lcnt: nat)
  {
    lcnt0 <= lcnt && (p.Some? ==> p.value < pagesLen) &&
    (!ctx.isBg ==> crs == crs0 && p == MmPage(ctx, cs.blk, pagesLen, pagesMapped)) &&
    (ctx.isBg ==>
       ctx.start <= clru && ctx.top <= |crs0| &&
       clru == Iter(clru0, lcnt - lcnt0, ctx.start, ctx.top) &&
       (forall k :: 1 <= k <= lcnt - lcnt0 && (p.Some? ==> k < lcnt - lcnt0) ==>
          ctx.start <= Iter(clru0, k, ctx.start, ctx.top) < ctx.top &&
          !Eligible(crs0[Iter(clru0, k, ctx.start, ctx.top)], pagesLen, pagesMapped)) &&
       (p.None? ==> lcnt >= ctx.top - ctx.start && crs == crs0) &&
       (p.Some? ==>
          clru < ctx.top && Eligible(crs0[clru], pagesLen, pagesMapped) && p.value == crs0[clru].buffer.i &&
          crs == crs0[clru := Claimed(crs0[clru], cs, ctx.backup, desired)]))
  }

  /** Lines 701-807: the buffer the element's block is built in, a claimed cache
      record's (BG) or the block's place in the mapped file (MM), as Located says;
      None skips the element. Only a claim changes anything (the record, and
      blks_to_upgrd). */
  method LocatePage(h: Heap, ctx: Ctx, cs: CwSet, clru0: nat, lcnt0: nat)
      returns (p: Option<nat>, clru: nat, lcnt: nat)
    requires CtxOk(h, ctx) && (ctx.isBg ==> ctx.start <= clru0)
    modifies h.crs, h.csds
    ensures Located(ctx, cs, old(h.crs[..]), h.crs[..], old(h.csds[ctx.csd].desiredDbFormat), h.pages.Length,
                    h.mapped.pages, clru0, lcnt0, p, clru, lcnt)
    ensures !ctx.isBg || p.None? ==> h.csds[..] == old(h.csds[..])
    ensures CountsOnly(old(h.csds[..]), h.csds[..], ctx.csd)
    ensures h.csds[ctx.csd].freeBlocks == old(h.csds[ctx.csd].freeBlocks)
  {
    clru, lcnt := clru0, lcnt0;
    if ctx.isBg {
      var found;
      found, clru, lcnt := ClaimRecord(h, ctx, cs, clru, lcnt);
      p := if found then Some(h.crs[clru].buffer.i) else None;
    } else {
      p := MmPage(ctx, cs.blk, h.pages.Length, h.mapped.pages);
    }
  }

  /** Lines 808-1003: the block build for the element's mode and kind of commit. It
      succeeds exactly as BuildSucceeds says of the buffer's page before the build,
      and leaves the page (and the element's chain and count fields) as BuildMap,
      BuildNonTp and BuildTp say; on failure the element is unchanged. */
  method BuildPage(h: Heap, ctx: Ctx, cw: array<CwSet>, c: nat, p: nat) returns (ok: bool, ghost written: set<int>)
    requires cw == Cw(h, ctx.tp)
    requires CtxOk(h, ctx) && c < cw.Length && (!ctx.tp ==> c < ctx.csTop) && p < h.pages.Length
    requires ctx.tp ==> NewBuffsValid(h)
    modifies h.pages, cw
    ensures ok <==> BuildSucceeds(ctx, old(cw[c]), RootAfter(old(h.ntpCw[..]), c, ctx.csTop), c, old(h.pages[p]),
                                  h.csds[ctx.csd].currTn, h.pages.Length, h.mapped.pages)
    ensures cw[..] == old(cw[..])[c := cw[c]]
    ensures !ok ==> cw[c] == old(cw[c])
    ensures OnlyCommitFields(old(cw[c]), cw[c])
    ensures cw[c].mode == old(cw[c].mode) && cw[c].oldMode == old(cw[c].oldMode)
    ensures ctx.tp ==> NewBuffsValid(h)
    ensures old(cw[c]).mode == WriteMap ==>
              (!ok ==> h.pages[..] == old(h.pages[..])) &&
              (ok ==>
                 var cs := old(cw[c]);
                 var copied := CopyPrefix(old(h.pages[p]), old(h.pages[cs.oldBlock.i]), h.csds[ctx.csd].blkSize);
                 var (_, built, rc) := ctx.b.mapBuild(cs, copied, h.csds[ctx.csd].currTn);
                 h.pages[..] == old(h.pages[..])[p := built] && cw[c] == cs.(referenceCnt := rc))
    ensures old(cw[c]).mode != WriteMap ==>
              forall j :: 0 <= j < h.pages.Length && j != p ==> h.pages[j] == old(h.pages[j])
    ensures old(cw[c]).mode != WriteMap && !ctx.tp ==>
              var cs := h.ntpCw[c];
              var nxt := if c + 1 < h.ntpCw.Length then h.ntpCw[c + 1] else cs;
              var (built, pg) := ctx.b.blkBuild(cs, old(h.pages[p]), h.csds[ctx.csd].currTn);
              var ownOk := NonTpInsOffOk(cs.insOff, pg.bsiz, cs.index, c);
              var rootOk := NonTpInsOffOk(nxt.insOff, pg.bsiz, nxt.index, c);
              cw[c] == old(cw[c]) &&
              h.pages[p].bsiz == pg.bsiz && h.pages[p].tn == pg.tn &&
              (forall k :: ReadLong(h.pages[p], k) != ReadLong(pg, k) ==>
                 built && cs.insOff != 0 && ownOk &&
                 (k == cs.insOff || (k == nxt.insOff && NextIsRoot(h.ntpCw[..], c, ctx.csTop) && rootOk))) &&
              (ok && cs.insOff != 0 && !(NextIsRoot(h.ntpCw[..], c, ctx.csTop) && nxt.insOff == cs.insOff) ==>
                 ReadLong(h.pages[p], cs.insOff) == h.ntpCw[cs.index].blk) &&
              (ok && cs.insOff != 0 && NextIsRoot(h.ntpCw[..], c, ctx.csTop) ==>
                 ReadLong(h.pages[p], nxt.insOff) == h.ntpCw[nxt.index].blk)
    ensures old(cw[c]).mode != WriteMap && ctx.tp && ok ==>
              var cs := old(h.tpCw[c]);
              var nb := if cs.done then old(h.pages[cs.newBuff.i]) else old(h.pages[p]);
              var pg := ctx.b.blkBuild(cs, old(h.pages[p]), h.csds[ctx.csd].currTn).1;
              var base := TpBase(cs, old(h.pages[p]), nb, pg, h.csds[ctx.csd].currTn);
              h.tpCw[c] == TpPlanted(cs) &&
              h.pages[p].bsiz == base.bsiz && h.pages[p].tn == base.tn &&
              (TpPlanted(cs).firstOff == 0 ==> written == {}) &&
              (TpPlanted(cs).firstOff != 0 ==>
                 forall k :: k in written <==>
                   k in ChainFrom(base, h.tpCw[..], h.mapped.tpCw, ctx.firstCw, ctx.depth, TpPlanted(cs).firstOff)) &&
              (forall k :: k !in written ==> ReadLong(h.pages[p], k) == ReadLong(base, k)) &&
              (forall k :: k in written ==>
                 Rewrites(base, k, h.tpCw[..], h.mapped.tpCw, ctx.firstCw, ctx.depth, ReadLong(h.pages[p], k)))
  {
    written := {};
    if cw[c].mode == WriteMap {
      ok := BuildMap(h, ctx, c, p);
    } else if !ctx.tp {
      ok := BuildNonTp(h, ctx, c, p);
    } else {
      ok, written := BuildTp(h, ctx, c, p);
    }
  }

  /** Lines 648-691: an element GT.M had already committed. Its reference count
      comes off free_blocks only when t_commit_crit reset the counter; a cache
      record left marked in_tend by a process shot just after the commit is
      unmarked. */
  method SeeCommitted(h: Heap, ctx: Ctx, cs: CwSet)
    requires CtxOk(h, ctx)
    modifies h.crs, h.csds
    ensures CountsOnly(old(h.csds[..]), h.csds[..], ctx.csd)
    ensures h.csds[ctx.csd].freeBlocks == old(h.csds[ctx.csd].freeBlocks) - (if ctx.tCommitCrit then cs.referenceCnt else 0)
    ensures h.csds[ctx.csd].blksToUpgrd == old(h.csds[ctx.csd].blksToUpgrd)
    ensures Building(cs.oldMode) && Probe(h.crs.Length, h.mapped.crs, cs.cr) ==>
              h.crs[..] == old(h.crs[..])[cs.cr.i := old(h.crs[cs.cr.i]).(inTend := false)]
    ensures !(Building(cs.oldMode) && Probe(h.crs.Length, h.mapped.crs, cs.cr)) ==> h.crs[..] == old(h.crs[..])
  {
    var csd := h.csds[ctx.csd];
    if ctx.tCommitCrit {
      h.csds[ctx.csd] := csd.(freeBlocks := csd.freeBlocks - cs.referenceCnt);
    }
    if Building(cs.oldMode) && Probe(h.crs.Length, h.mapped.crs, cs.cr) && h.crs[cs.cr.i].inTend {
      h.crs[cs.cr.i] := h.crs[cs.cr.i].(inTend := false);
    }
  }

  /** Lines 1004-1031: a built element is committed; its reference count comes off
      free_blocks, and one comes off blks_to_upgrd when a freeing bitmap update
      (`freeing`) frees blocks. */
  method Commit(h: Heap, ctx: Ctx, cw: array<CwSet>, c: nat) returns (o: Outcome)
    requires CtxOk(h, ctx) && c < cw.Length
    modifies cw, h.csds
    ensures o == Rolled(old(cw[c].mode), old(cw[c].referenceCnt))
    ensures cw[..] == old(cw[..])[c := old(cw[c]).(oldMode := old(cw[c].mode), mode := Committed)]
    ensures CountsOnly(old(h.csds[..]), h.csds[..], ctx.csd)
    ensures h.csds[ctx.csd].freeBlocks == old(h.csds[ctx.csd].freeBlocks) - old(cw[c].referenceCnt)
    ensures h.csds[ctx.csd].blksToUpgrd ==
              old(h.csds[ctx.csd].blksToUpgrd) - (if old(cw[c].referenceCnt) < 0 && ctx.freeing then 1 else 0)
  {
    var cs := cw[c];
    var csd := h.csds[ctx.csd];
    var upgrd := if cs.referenceCnt < 0 && ctx.freeing then csd.blksToUpgrd - 1 else csd.blksToUpgrd;
    h.csds[ctx.csd] := csd.(freeBlocks := csd.freeBlocks - cs.referenceCnt, blksToUpgrd := upgrd);
    cw[c] := cs.(oldMode := cs.mode, mode := Committed);
    o := Rolled(cs.mode, cs.referenceCnt);
  }

  /** Why a skipped element (`cs`, at position `c`) failed: with no buffer, the
      block's place in the mapped file could not be read (MM) or the region's
      search budget is spent, `lcnt` having reached n_bts (BG); with its build
      failed, the build does fail on the page the buffer held. */
  predicate SkipExplained(ctx: Ctx, cs: CwSet, root: Option<CwSet>, c: nat, why: Skip, currTn: int,
                          pagesLen: nat, pagesMapped: set<nat>, lcnt: nat)
  {
    match why
    case NoBuffer =>
      if ctx.isBg then lcnt >= ctx.top - ctx.start else MmPage(ctx, cs.blk, pagesLen, pagesMapped).None?
    case NotBuilt(pg) => !BuildSucceeds(ctx, cs, root, c, pg, currTn, pagesLen, pagesMapped)
  }

  /** The budget is only ever spent further, so an explanation stays true. */
  lemma SkipExplainedLater(ctx: Ctx, cs: CwSet, root: Option<CwSet>, c: nat, why: Skip, currTn: int,
                           pagesLen: nat, pagesMapped: set<nat>, lcnt: nat, lcnt': nat)
    requires SkipExplained(ctx, cs, root, c, why, currTn, pagesLen, pagesMapped, lcnt) && lcnt <= lcnt'
    ensures SkipExplained(ctx, cs, root, c, why, currTn, pagesLen, pagesMapped, lcnt')
  {
  }

  /** Lines 808-1028 for an element given the buffer `p`: the block is built, and
      when that succeeds the element is committed; otherwise it is skipped, the
      build having failed on the page the buffer held. */
  method BuildAndCommit(h: Heap, ctx: Ctx, cw: array<CwSet>, c: nat, p: nat) returns (o: Outcome)
    requires cw == Cw(h, ctx.tp)
    requires CtxOk(h, ctx) && c < cw.Length && (!ctx.tp ==> c < ctx.csTop) && p < h.pages.Length
    requires !NonTpOnly(cw[c].mode) && cw[c].mode != Committed
    requires ctx.tp ==> NewBuffsValid(h)
    modifies cw, h.pages, h.csds
    ensures cw[..] == old(cw[..])[c := cw[c]]
    ensures Effect(old(cw[c]), cw[c], o)
    ensures h.csds[ctx.csd].freeBlocks == old(h.csds[ctx.csd].freeBlocks) - Consumed(o, ctx.tCommitCrit)
    ensures CountsOnly(old(h.csds[..]), h.csds[..], ctx.csd)
    ensures ctx.tp ==> NewBuffsValid(h)
    ensures o.Rolled? <==> BuildSucceeds(ctx, old(cw[c]), RootAfter(old(h.ntpCw[..]), c, ctx.csTop), c,
                                         old(h.pages[p]), old(h.csds[ctx.csd].currTn), h.pages.Length, h.mapped.pages)
    ensures !o.Rolled? ==> o == Skipped(NotBuilt(old(h.pages[p])))
  {
    var page := h.pages[p];
    var ok;
    ghost var written;
    ok, written := BuildPage(h, ctx, cw, c, p);
    if !ok {
      return Skipped(NotBuilt(page));
    }
    o := Commit(h, ctx, cw, c);
  }

  /** Lines 701-1028 for an element that is neither relabelled nor already
      committed: a buffer is found as Located says; without one the element is
      skipped, and with one it is built and committed as BuildAndCommit says. */
  method RollElement(h: Heap, ctx: Ctx, cw: array<CwSet>, c: nat, clru0: nat, lcnt0: nat)
      returns (o: Outcome, p: Option<nat>, clru: nat, lcnt: nat)
    requires cw == Cw(h, ctx.tp)
    requires CtxOk(h, ctx) && c < cw.Length && (!ctx.tp ==> c < ctx.csTop)
    requires !NonTpOnly(cw[c].mode) && cw[c].mode != Committed
    requires ctx.isBg ==> ctx.start <= clru0
    requires ctx.tp ==> NewBuffsValid(h)
    modifies cw, h.crs, h.pages, h.csds
    ensures cw[..] == old(cw[..])[c := cw[c]]
    ensures Effect(old(cw[c]), cw[c], o)
    ensures h.csds[ctx.csd].freeBlocks == old(h.csds[ctx.csd].freeBlocks) - Consumed(o, ctx.tCommitCrit)
    ensures CountsOnly(old(h.csds[..]), h.csds[..], ctx.csd)
    ensures ctx.tp ==> NewBuffsValid(h)
    ensures Located(ctx, old(cw[c]), old(h.crs[..]), h.crs[..], old(h.csds[ctx.csd].desiredDbFormat), h.pages.Length,
                    h.mapped.pages, clru0, lcnt0, p, clru, lcnt)
    ensures p.None? <==> o == Skipped(NoBuffer)
    ensures p.Some? ==>
              (o.Rolled? <==> BuildSucceeds(ctx, old(cw[c]), RootAfter(old(h.ntpCw[..]), c, ctx.csTop), c,
                                            old(h.pages[p.value]), old(h.csds[ctx.csd].currTn),
                                            h.pages.Length, h.mapped.pages)) &&
              (!o.Rolled? ==> o == Skipped(NotBuilt(old(h.pages[p.value]))))
  {
    clru, lcnt := clru0, lcnt0;
    p, clru, lcnt := LocatePage(h, ctx, cw[c], clru, lcnt);
    if p.None? {
      return Skipped(NoBuffer), p, clru, lcnt;
    }
    ghost var crs1 := h.crs[..];
    o := BuildAndCommit(h, ctx, cw, c, p.value);
    assert h.crs[..] == crs1;
  }

  /** The body of the loop (lines 630-1031) for the element in slot `c` of `cw`: a
      non-TP only mode is relabelled; an element already committed is counted; any
      other element gets a buffer, has its block built, and is committed. A failure
      on the way skips the element and leaves it as it was. */
  method ProcessElement(h: Heap, ctx: Ctx, cw: array<CwSet>, c: nat, clru0: nat, lcnt0: nat)
      returns (o: Outcome, clru: nat, lcnt: nat)
    requires cw == Cw(h, ctx.tp)
    requires CtxOk(h, ctx) && c < cw.Length && (!ctx.tp ==> c < ctx.csTop)
    requires ctx.isBg ==> ctx.start <= clru0
    requires ctx.tp ==> NewBuffsValid(h)
    modifies cw, h.crs, h.pages, h.csds
    ensures ctx.isBg ==> ctx.start <= clru
    ensures lcnt0 <= lcnt
    ensures cw[..] == old(cw[..])[c := cw[c]]
    ensures Effect(old(cw[c]), cw[c], o)
    ensures h.csds[ctx.csd].freeBlocks == old(h.csds[ctx.csd].freeBlocks) - Consumed(o, ctx.tCommitCrit)
    ensures CountsOnly(old(h.csds[..]), h.csds[..], ctx.csd)
    ensures ctx.tp ==> NewBuffsValid(h)
    ensures o.Skipped? ==>
              SkipExplained(ctx, old(cw[c]), if ctx.tp then None else RootAfter(old(h.ntpCw[..]), c, ctx.csTop), c,
                            o.why, old(h.csds[ctx.csd].currTn), h.pages.Length, h.mapped.pages, lcnt)
  {
    var cs := cw[c];
    clru, lcnt := clru0, lcnt0;
    if NonTpOnly(cs.mode) {
      cw[c] := cs.(oldMode := cs.mode, mode := Committed);
      return Relabelled(cs.mode), clru, lcnt;
    }
    if cs.mode == Committed {
      SeeCommitted(h, ctx, cs);
      return SeenCommitted(cs.referenceCnt), clru, lcnt;
    }
    var p;
    o, p, clru, lcnt := RollElement(h, ctx, cw, c, clru, lcnt);
  }

  // ---------------------------------------------------------------------------
  // The loops over a region's elements

  /** The elements the TP loop visits (lines 603-625): from the list head, the newest
      version of each element, then the next_cw_set of the element the step started
      from; the walk ends at NULL or where an element or a newer version fails its
      probe. At most `fuel` elements are visited: a list longer than its arena is a
      cycle, on which the C loop does not end. */
  function TpWalk(cw: seq<CwSet>, mapped: set<nat>, r: Ref, fuel: nat): seq<nat>
    decreases fuel
  {
    if r == Null || fuel == 0 || !Probe(|cw|, mapped, r) then []
    else match TopOf(cw, mapped, r, |cw|)
      case None => []
      case Some(t) => [t.i] + TpWalk(cw, mapped, cw[r.i].nextCwSet, fuel - 1)
  }

  ghost predicate SameAllLinks(a: seq<CwSet>, b: seq<CwSet>)
  {
    |a| == |b| && forall j :: 0 <= j < |a| ==> SameLinks(a[j], b[j])
  }

  /** The newest version of an element depends only on the high_tlevel links. */
  lemma {:induction false} TopOfSameLinks(a: seq<CwSet>, b: seq<CwSet>, mapped: set<nat>, r: Ref, fuel: nat)
    requires SameAllLinks(a, b) && Probe(|a|, mapped, r)
    ensures TopOf(a, mapped, r, fuel) == TopOf(b, mapped, r, fuel)
    decreases fuel
  {
    var h := a[r.i].highTlevel;
    assert SameLinks(a[r.i], b[r.i]);
    if h != Null && fuel > 0 && Probe(|a|, mapped, h) {
      TopOfSameLinks(a, b, mapped, h, fuel - 1);
    }
  }

  /** Every element of `cur` is as in `cw0` or committed from it, with the links
      untouched. */
  ghost predicate CommittedFrom(cw0: seq<CwSet>, cur: seq<CwSet>)
  {
    SameAllLinks(cw0, cur) &&
    forall j :: 0 <= j < |cur| ==> cur[j] == cw0[j] || Committing(cw0[j], cur[j])
  }

  /** An element committed in `before` is still committed in `after`. */
  ghost predicate CommittedStay(before: seq<CwSet>, after: seq<CwSet>)
  {
    |before| == |after| && forall j :: 0 <= j < |before| && before[j].mode == Committed ==> after[j].mode == Committed
  }

  /** Processing one element keeps CommittedFrom, and committed elements stay so. */
  lemma StepKeepsCommittedFrom(cw0: seq<CwSet>, before: seq<CwSet>, after: seq<CwSet>, t: nat, o: Outcome)
    requires CommittedFrom(cw0, before) && t < |before| == |after|
    requires after == before[t := after[t]] && Effect(before[t], after[t], o)
    ensures CommittedFrom(cw0, after)
    ensures !o.Skipped? ==> after[t].mode == Committed
    ensures CommittedStay(before, after)
  {
    EffectCommits(before[t], after[t], o);
    assert SameLinks(cw0[t], before[t]);
  }

  /** One turn of the TP loop (lines 605-625 and the body): from the list element
      `orig`, its newest version is found and processed, and the walk goes on from
      `orig`'s next_cw_set; `stop` when a probe fails on the way, with nothing
      changed. */
  method VisitTp(h: Heap, ctx: Ctx, orig: Ref, fuel: nat, clru0: nat, lcnt0: nat,
                 ghost cw0: seq<CwSet>, ghost rest: seq<nat>)
      returns (stop: bool, t: nat, o: Outcome, next: Ref, clru: nat, lcnt: nat, ghost rest': seq<nat>)
    requires CtxOk(h, ctx) && ctx.tp && NewBuffsValid(h) && CommittedFrom(cw0, h.tpCw[..])
    requires ctx.isBg ==> ctx.start <= clru0
    requires orig != Null && 0 < fuel && rest == TpWalk(cw0, h.mapped.tpCw, orig, fuel)
    modifies h.tpCw, h.crs, h.pages, h.csds
    ensures ctx.isBg ==> ctx.start <= clru
    ensures lcnt0 <= lcnt
    ensures stop ==> rest == [] && h.tpCw[..] == old(h.tpCw[..]) && h.csds[..] == old(h.csds[..])
    ensures !stop ==> rest == [t] + rest' && rest' == TpWalk(cw0, h.mapped.tpCw, next, fuel - 1)
    ensures !stop ==> t < |cw0| && (!o.Skipped? ==> h.tpCw[t].mode == Committed)
    ensures !stop && o.Skipped? ==>
              SkipExplained(ctx, cw0[t], None, t, o.why, old(h.csds[ctx.csd].currTn), h.pages.Length, h.mapped.pages, lcnt)
    ensures CommittedStay(old(h.tpCw[..]), h.tpCw[..])
    ensures NewBuffsValid(h) && CommittedFrom(cw0, h.tpCw[..])
    ensures CountsOnly(old(h.csds[..]), h.csds[..], ctx.csd)
    ensures h.csds[ctx.csd].freeBlocks == old(h.csds[ctx.csd].freeBlocks) - (if stop then 0 else Consumed(o, ctx.tCommitCrit))
  {
    clru, lcnt, o, next, rest' := clru0, lcnt0, Skipped(NoBuffer), Null, [];
    stop, t := FindTop(h, orig, fuel, cw0, rest);
    if stop {
      return;
    }
    ghost var before := h.tpCw[..];
    o, clru, lcnt := ProcessElement(h, ctx, h.tpCw, t, clru, lcnt);
    StepKeepsCommittedFrom(cw0, before, h.tpCw[..], t, o);
    assert SameLinks(cw0[orig.i], h.tpCw[orig.i]);
    next := h.tpCw[orig.i].nextCwSet;
    rest' := TpWalk(cw0, h.mapped.tpCw, next, fuel - 1);
  }

  /** Lines 605-625: the newest version `t` of the list element `orig`, which the
      walk visits next; `stop` when `orig` or a newer version fails its probe. */
  method FindTop(h: Heap, orig: Ref, fuel: nat, ghost cw0: seq<CwSet>, ghost rest: seq<nat>)
      returns (stop: bool, t: nat)
    requires CommittedFrom(cw0, h.tpCw[..])
    requires orig != Null && 0 < fuel && rest == TpWalk(cw0, h.mapped.tpCw, orig, fuel)
    ensures stop ==> rest == []
    ensures !stop ==> Probe(|cw0|, h.mapped.tpCw, orig) && t < |cw0| &&
                      rest == [t] + TpWalk(cw0, h.mapped.tpCw, cw0[orig.i].nextCwSet, fuel - 1)
  {
    if Probe(h.tpCw.Length, h.mapped.tpCw, orig) {
      TopOfSameLinks(cw0, h.tpCw[..], h.mapped.tpCw, orig, |cw0|);
    }
    var cs := FollowHighTlevel(h.tpCw, h.mapped.tpCw, orig);
    if !Probe(h.tpCw.Length, h.mapped.tpCw, cs) {
      return true, 0;
    }
    return false, cs.i;
  }

  /** The elements of a TP region after the loop has visited `visited` with
      outcomes `os`: they are committed from their first state, the visited
      elements and the rest of the walk make up the whole walk, and every element
      visited without a failure is committed. */
  ghost predicate TpVisited(cw0: seq<CwSet>, walk: seq<nat>, cur: seq<CwSet>, os: seq<Outcome>,
                            visited: seq<nat>, rest: seq<nat>)
  {
    CommittedFrom(cw0, cur) && walk == visited + rest && |os| == |visited| &&
    forall k :: 0 <= k < |os| ==> visited[k] < |cw0| && (!os[k].Skipped? ==> cur[visited[k]].mode == Committed)
  }

  /** What the TP loop keeps: the elements as TpVisited says, and the commit type
      and free_blocks following the outcomes. */
  ghost predicate TpProgress(d: nat, tCommitCrit: bool, cw0: seq<CwSet>, csds0: seq<Csd>, walk: seq<nat>,
                             cur: seq<CwSet>, csds: seq<Csd>, ct: CommitType, os: seq<Outcome>,
                             visited: seq<nat>, rest: seq<nat>)
  {
    TpVisited(cw0, walk, cur, os, visited, rest) && ct == CommitTypeAfter(os) &&
    CountsOnly(csds0, csds, d) && csds[d].freeBlocks == csds0[d].freeBlocks - TotalConsumed(os, tCommitCrit)
  }

  lemma TpProgressStep(d: nat, tCommitCrit: bool, cw0: seq<CwSet>, csds0: seq<Csd>, walk: seq<nat>,
                       cur: seq<CwSet>, csds: seq<Csd>, ct: CommitType, os: seq<Outcome>,
                       visited: seq<nat>, rest: seq<nat>,
                       cur': seq<CwSet>, csds': seq<Csd>, t: nat, o: Outcome, rest': seq<nat>)
    requires TpProgress(d, tCommitCrit, cw0, csds0, walk, cur, csds, ct, os, visited, rest)
    requires CommittedFrom(cw0, cur') && t < |cw0| && (!o.Skipped? ==> cur'[t].mode == Committed)
    requires CommittedStay(cur, cur')
    requires CountsOnly(csds, csds', d) && csds'[d].freeBlocks == csds[d].freeBlocks - Consumed(o, tCommitCrit)
    requires rest == [t] + rest'
    ensures TpProgress(d, tCommitCrit, cw0, csds0, walk, cur', csds', NextCommitType(ct, o), os + [o], visited + [t], rest')
  {
    assert (os + [o])[..|os|] == os;
  }

  /** Every element the TP loop skipped failed for the reason its outcome gives,
      judged on the element as it was before the loop; `lcnt` is the search
      budget spent so far. */
  ghost predicate TpSkipsExplained(ctx: Ctx, cw0: seq<CwSet>, os: seq<Outcome>, visited: seq<nat>, currTn: int,
                                   pagesLen: nat, pagesMapped: set<nat>, lcnt: nat)
  {
    |os| == |visited| &&
    forall k :: 0 <= k < |os| && os[k].Skipped? ==>
      visited[k] < |cw0| &&
      SkipExplained(ctx, cw0[visited[k]], None, visited[k], os[k].why, currTn, pagesLen, pagesMapped, lcnt)
  }

  lemma TpSkipsExplainedStep(ctx: Ctx, cw0: seq<CwSet>, os: seq<Outcome>, visited: seq<nat>, currTn: int,
                             pagesLen: nat, pagesMapped: set<nat>, lcnt: nat, lcnt': nat, t: nat, o: Outcome)
    requires TpSkipsExplained(ctx, cw0, os, visited, currTn, pagesLen, pagesMapped, lcnt) && lcnt <= lcnt'
    requires t < |cw0| && (o.Skipped? ==> SkipExplained(ctx, cw0[t], None, t, o.why, currTn, pagesLen, pagesMapped, lcnt'))
    ensures TpSkipsExplained(ctx, cw0, os + [o], visited + [t], currTn, pagesLen, pagesMapped, lcnt')
  {
    forall k | 0 <= k < |os| && os[k].Skipped?
      ensures SkipExplained(ctx, cw0[visited[k]], None, visited[k], os[k].why, currTn, pagesLen, pagesMapped, lcnt')
    {
      SkipExplainedLater(ctx, cw0[visited[k]], None, visited[k], os[k].why, currTn, pagesLen, pagesMapped, lcnt, lcnt');
    }
  }

  /** What the TP loop keeps, with the walk position (`cs`, `fuel`) and `stop` for
      a probe that failed on the way: `rest` is what remains of the walk, and the
      elements, commit type, free_blocks and skips are as TpProgress and
      TpSkipsExplained say. */
  ghost predicate TpLoop(ctx: Ctx, cw0: seq<CwSet>, csds0: seq<Csd>, walk: seq<nat>, tpMapped: set<nat>,
                         pagesLen: nat, pagesMapped: set<nat>, cur: seq<CwSet>, csds: seq<Csd>,
                         stop: bool, cs: Ref, fuel: nat, ct: CommitType, os: seq<Outcome>,
                         visited: seq<nat>, rest: seq<nat>, lcnt: nat)
    requires ctx.csd < |csds0|
  {
    (stop ==> rest == []) && (!stop ==> rest == TpWalk(cw0, tpMapped, cs, fuel)) &&
    TpProgress(ctx.csd, ctx.tCommitCrit, cw0, csds0, walk, cur, csds, ct, os, visited, rest) &&
    TpSkipsExplained(ctx, cw0, os, visited, csds0[ctx.csd].currTn, pagesLen, pagesMapped, lcnt)
  }

  /** When the loop ends, nothing of the walk remains. */
  lemma TpLoopEnd(ctx: Ctx, cw0: seq<CwSet>, csds0: seq<Csd>, walk: seq<nat>, tpMapped: set<nat>,
                  pagesLen: nat, pagesMapped: set<nat>, cur: seq<CwSet>, csds: seq<Csd>,
                  stop: bool, cs: Ref, fuel: nat, ct: CommitType, os: seq<Outcome>,
                  visited: seq<nat>, rest: seq<nat>, lcnt: nat)
    requires ctx.csd < |csds0|
    requires TpLoop(ctx, cw0, csds0, walk, tpMapped, pagesLen, pagesMapped, cur, csds, stop, cs, fuel, ct, os, visited, rest, lcnt)
    requires stop || cs == Null || fuel == 0
    ensures TpProgress(ctx.csd, ctx.tCommitCrit, cw0, csds0, walk, cur, csds, ct, os, visited, [])
    ensures TpSkipsExplained(ctx, cw0, os, visited, csds0[ctx.csd].currTn, pagesLen, pagesMapped, lcnt)
  {
  }

  /** One turn of the TP loop with its bookkeeping: what the loop keeps holds after
      the turn, the commit type having moved by the element's outcome. */
  method TurnTp(h: Heap, ctx: Ctx, cs0: Ref, fuel0: nat, clru0: nat, lcnt0: nat,
                ghost cw0: seq<CwSet>, ghost csds0: seq<Csd>, ghost walk: seq<nat>,
                ct0: CommitType, ghost os0: seq<Outcome>, ghost visited0: seq<nat>, ghost rest0: seq<nat>)
      returns (stop: bool, cs: Ref, fuel: nat, ct: CommitType, clru: nat, lcnt: nat,
               ghost os: seq<Outcome>, ghost visited: seq<nat>, ghost rest: seq<nat>)
    requires CtxOk(h, ctx) && ctx.tp && NewBuffsValid(h) && ctx.csd < |csds0|
    requires ctx.isBg ==> ctx.start <= clru0
    requires cs0 != Null && 0 < fuel0
    requires TpLoop(ctx, cw0, csds0, walk, h.mapped.tpCw, h.pages.Length, h.mapped.pages, h.tpCw[..], h.csds[..],
                    false, cs0, fuel0, ct0, os0, visited0, rest0, lcnt0)
    modifies h.tpCw, h.crs, h.pages, h.csds
    ensures ctx.isBg ==> ctx.start <= clru
    ensures NewBuffsValid(h)
    ensures stop ==> fuel == fuel0
    ensures !stop ==> fuel == fuel0 - 1
    ensures TpLoop(ctx, cw0, csds0, walk, h.mapped.tpCw, h.pages.Length, h.mapped.pages, h.tpCw[..], h.csds[..],
                   stop, cs, fuel, ct, os, visited, rest, lcnt)
  {
    ghost var cur, csds := h.tpCw[..], h.csds[..];
    var t, o, next;
    stop, t, o, next, clru, lcnt, rest := VisitTp(h, ctx, cs0, fuel0, clru0, lcnt0, cw0, rest0);
    if stop {
      cs, fuel, ct, os, visited, rest := cs0, fuel0, ct0, os0, visited0, [];
      return;
    }
    TpLoopTurn(ctx, cw0, csds0, walk, h.mapped.tpCw, h.pages.Length, h.mapped.pages, cur, csds, cs0, fuel0, ct0,
               os0, visited0, rest0, lcnt0, h.tpCw[..], h.csds[..], t, o, next, rest, lcnt);
    cs, fuel, ct, os, visited := next, fuel0 - 1, NextCommitType(ct0, o), os0 + [o], visited0 + [t];
  }

  /** A turn that visits element `t` with outcome `o` keeps what the loop keeps. */
  lemma TpLoopTurn(ctx: Ctx, cw0: seq<CwSet>, csds0: seq<Csd>, walk: seq<nat>, tpMapped: set<nat>,
                   pagesLen: nat, pagesMapped: set<nat>, cur: seq<CwSet>, csds: seq<Csd>,
                   cs: Ref, fuel: nat, ct: CommitType, os: seq<Outcome>, visited: seq<nat>, rest: seq<nat>, lcnt: nat,
                   cur': seq<CwSet>, csds': seq<Csd>, t: nat, o: Outcome, next: Ref, rest': seq<nat>, lcnt': nat)
    requires ctx.csd < |csds0| && 0 < fuel
    requires TpLoop(ctx, cw0, csds0, walk, tpMapped, pagesLen, pagesMapped, cur, csds, false, cs, fuel, ct, os, visited, rest, lcnt)
    requires rest == [t] + rest' && rest' == TpWalk(cw0, tpMapped, next, fuel - 1)
    requires CommittedFrom(cw0, cur') && CommittedStay(cur, cur') && t < |cw0| && (!o.Skipped? ==> cur'[t].mode == Committed)
    requires lcnt <= lcnt'
    requires CountsOnly(csds, csds', ctx.csd) && csds'[ctx.csd].freeBlocks == csds[ctx.csd].freeBlocks - Consumed(o, ctx.tCommitCrit)
    requires o.Skipped? ==> SkipExplained(ctx, cw0[t], None, t, o.why, csds[ctx.csd].currTn, pagesLen, pagesMapped, lcnt')
    ensures TpLoop(ctx, cw0, csds0, walk, tpMapped, pagesLen, pagesMapped, cur', csds', false, next, fuel - 1,
                   NextCommitType(ct, o), os + [o], visited + [t], rest', lcnt')
  {
    assert csds[ctx.csd].currTn == csds0[ctx.csd].currTn;
    TpSkipsExplainedStep(ctx, cw0, os, visited, csds0[ctx.csd].currTn, pagesLen, pagesMapped, lcnt, lcnt', t, o);
    TpProgressStep(ctx.csd, ctx.tCommitCrit, cw0, csds0, walk, cur, csds, ct, os, visited, rest, cur', csds', t, o, rest');
  }

  /** Lines 603-1031 for a TP region: every element the walk reaches is processed in
      turn, the region's commit type follows the outcomes, free_blocks loses what
      they consumed, and an element ends either as it was or committed with its
      prior mode in old_mode; an element already committed is never changed. */
  method RollTp(h: Heap, ctx: Ctx, clru0: nat)
      returns (ct: CommitType, lcnt: nat, ghost os: seq<Outcome>, ghost visited: seq<nat>)
    requires CtxOk(h, ctx) && ctx.tp && NewBuffsValid(h)
    requires ctx.isBg ==> ctx.start <= clru0
    modifies h.tpCw, h.crs, h.pages, h.csds
    ensures NewBuffsValid(h)
    ensures TpProgress(ctx.csd, ctx.tCommitCrit, old(h.tpCw[..]), old(h.csds[..]),
                       TpWalk(old(h.tpCw[..]), h.mapped.tpCw, ctx.firstCw, h.tpCw.Length),
                       h.tpCw[..], h.csds[..], ct, os, visited, [])
    ensures TpSkipsExplained(ctx, old(h.tpCw[..]), os, visited, old(h.csds[ctx.csd].currTn), h.pages.Length,
                             h.mapped.pages, lcnt)
  {
    ghost var cw0, csds0 := h.tpCw[..], h.csds[..];
    var cs := ctx.firstCw;
    var fuel: nat := h.tpCw.Length;
    var clru := clru0;
    var stop := false;
    lcnt := 0;
    ct, os, visited := Unstarted, [], [];
    ghost var walk := TpWalk(cw0, h.mapped.tpCw, ctx.firstCw, |cw0|);
    ghost var rest := walk;
    while !stop && cs != Null && fuel > 0
      invariant ctx.isBg ==> ctx.start <= clru
      invariant NewBuffsValid(h)
      invariant TpLoop(ctx, cw0, csds0, walk, h.mapped.tpCw, h.pages.Length, h.mapped.pages, h.tpCw[..], h.csds[..],
                       stop, cs, fuel, ct, os, visited, rest, lcnt)
      decreases fuel, !stop
    {
      stop, cs, fuel, ct, clru, lcnt, os, visited, rest :=
        TurnTp(h, ctx, cs, fuel, clru, lcnt, cw0, csds0, walk, ct, os, visited, rest);
    }
    TpLoopEnd(ctx, cw0, csds0, walk, h.mapped.tpCw, h.pages.Length, h.mapped.pages, h.tpCw[..], h.csds[..],
              stop, cs, fuel, ct, os, visited, rest, lcnt);
  }

  /** The elements of a non-TP commit after the loop has processed the first |os|
      of them: those went as their outcomes say, and the rest are untouched. */
  ghost predicate NonTpVisited(cw0: seq<CwSet>, cur: seq<CwSet>, os: seq<Outcome>)
  {
    |os| <= |cw0| == |cur| && cur[|os|..] == cw0[|os|..] &&
    forall k :: 0 <= k < |os| ==> Effect(cw0[k], cur[k], os[k])
  }

  /** What the non-TP loop keeps: the elements as NonTpVisited says, and free_blocks
      having lost what the outcomes consumed. */
  ghost predicate NonTpProgress(d: nat, tCommitCrit: bool, cw0: seq<CwSet>, csds0: seq<Csd>,
                                cur: seq<CwSet>, csds: seq<Csd>, os: seq<Outcome>)
  {
    NonTpVisited(cw0, cur, os) &&
    CountsOnly(csds0, csds, d) && csds[d].freeBlocks == csds0[d].freeBlocks - TotalConsumed(os, tCommitCrit)
  }

  lemma NonTpProgressStep(d: nat, tCommitCrit: bool, cw0: seq<CwSet>, csds0: seq<Csd>,
                          cur: seq<CwSet>, csds: seq<Csd>, os: seq<Outcome>,
                          cur': seq<CwSet>, csds': seq<Csd>, o: Outcome)
    requires NonTpProgress(d, tCommitCrit, cw0, csds0, cur, csds, os) && |os| < |cur| == |cur'|
    requires cur' == cur[|os| := cur'[|os|]] && Effect(cur[|os|], cur'[|os|], o)
    requires CountsOnly(csds, csds', d) && csds'[d].freeBlocks == csds[d].freeBlocks - Consumed(o, tCommitCrit)
    ensures NonTpProgress(d, tCommitCrit, cw0, csds0, cur', csds', os + [o])
  {
    var n := |os|;
    assert cur[n] == cur[n..][0] == cw0[n..][0] == cw0[n];
    assert cur'[n + 1..] == cur[n + 1..] == cur[n..][1..] == cw0[n..][1..] == cw0[n + 1..];
    assert (os + [o])[..n] == os;
  }

  /** Every element the non-TP loop skipped failed for the reason its outcome
      gives, judged on the elements as they were before the loop; `lcnt` is the
      search budget spent so far. */
  ghost predicate NonTpSkipsExplained(ctx: Ctx, cw0: seq<CwSet>, os: seq<Outcome>, currTn: int,
                                      pagesLen: nat, pagesMapped: set<nat>, lcnt: nat)
  {
    |os| <= |cw0| &&
    forall k :: 0 <= k < |os| && os[k].Skipped? ==>
      SkipExplained(ctx, cw0[k], RootAfter(cw0, k, ctx.csTop), k, os[k].why, currTn, pagesLen, pagesMapped, lcnt)
  }

  lemma NonTpSkipsExplainedStep(ctx: Ctx, cw0: seq<CwSet>, os: seq<Outcome>, currTn: int,
                                pagesLen: nat, pagesMapped: set<nat>, lcnt: nat, lcnt': nat, o: Outcome)
    requires NonTpSkipsExplained(ctx, cw0, os, currTn, pagesLen, pagesMapped, lcnt) && lcnt <= lcnt'
    requires |os| < |cw0|
    requires o.Skipped? ==>
               SkipExplained(ctx, cw0[|os|], RootAfter(cw0, |os|, ctx.csTop), |os|, o.why, currTn, pagesLen, pagesMapped, lcnt')
    ensures NonTpSkipsExplained(ctx, cw0, os + [o], currTn, pagesLen, pagesMapped, lcnt')
  {
    forall k | 0 <= k < |os| && os[k].Skipped?
      ensures SkipExplained(ctx, cw0[k], RootAfter(cw0, k, ctx.csTop), k, os[k].why, currTn, pagesLen, pagesMapped, lcnt')
    {
      SkipExplainedLater(ctx, cw0[k], RootAfter(cw0, k, ctx.csTop), k, os[k].why, currTn, pagesLen, pagesMapped,
                         lcnt, lcnt');
    }
  }

  /** One turn of the non-TP loop: the element in slot |os| is processed. */
  method TurnNonTp(h: Heap, ctx: Ctx, pos: nat, clru0: nat, lcnt0: nat,
                   ghost cw0: seq<CwSet>, ghost csds0: seq<Csd>, ghost os0: seq<Outcome>)
      returns (clru: nat, lcnt: nat, ghost os: seq<Outcome>)
    requires CtxOk(h, ctx) && !ctx.tp && pos == |os0| < ctx.csTop
    requires ctx.isBg ==> ctx.start <= clru0
    requires NonTpProgress(ctx.csd, ctx.tCommitCrit, cw0, csds0, h.ntpCw[..], h.csds[..], os0)
    requires NonTpSkipsExplained(ctx, cw0, os0, csds0[ctx.csd].currTn, h.pages.Length, h.mapped.pages, lcnt0)
    modifies h.ntpCw, h.crs, h.pages, h.csds
    ensures ctx.isBg ==> ctx.start <= clru
    ensures |os| == |os0| + 1
    ensures NonTpProgress(ctx.csd, ctx.tCommitCrit, cw0, csds0, h.ntpCw[..], h.csds[..], os)
    ensures NonTpSkipsExplained(ctx, cw0, os, csds0[ctx.csd].currTn, h.pages.Length, h.mapped.pages, lcnt)
  {
    ghost var cur, csds := h.ntpCw[..], h.csds[..];
    assert cur[pos] == cur[pos..][0] == cw0[pos..][0] == cw0[pos];
    assert pos + 1 < |cur| ==> cur[pos + 1] == cur[pos..][1] == cw0[pos..][1] == cw0[pos + 1];
    assert RootAfter(cur, pos, ctx.csTop) == RootAfter(cw0, pos, ctx.csTop);
    var o;
    o, clru, lcnt := ProcessElement(h, ctx, h.ntpCw, pos, clru0, lcnt0);
    NonTpSkipsExplainedStep(ctx, cw0, os0, csds0[ctx.csd].currTn, h.pages.Length, h.mapped.pages, lcnt0, lcnt, o);
    NonTpProgressStep(ctx.csd, ctx.tCommitCrit, cw0, csds0, cur, csds, os0, h.ntpCw[..], h.csds[..], o);
    os := os0 + [o];
  }

  /** Lines 603-1031 for a non-TP commit: the elements of cw_set_addrs are processed
      in order up to cs_top, stopping early only at one that fails its probe; each
      ends as its outcome says, and free_blocks loses what they consumed. */
  method RollNonTp(h: Heap, ctx: Ctx, clru0: nat) returns (lcnt: nat, ghost os: seq<Outcome>)
    requires CtxOk(h, ctx) && !ctx.tp
    requires ctx.isBg ==> ctx.start <= clru0
    modifies h.ntpCw, h.crs, h.pages, h.csds
    ensures |os| <= ctx.csTop
    ensures forall k :: 0 <= k < |os| ==> Probe(h.ntpCw.Length, h.mapped.ntpCw, At(k))
    ensures |os| < ctx.csTop ==> !Probe(h.ntpCw.Length, h.mapped.ntpCw, At(|os|))
    ensures NonTpProgress(ctx.csd, ctx.tCommitCrit, old(h.ntpCw[..]), old(h.csds[..]), h.ntpCw[..], h.csds[..], os)
    ensures NonTpSkipsExplained(ctx, old(h.ntpCw[..]), os, old(h.csds[ctx.csd].currTn), h.pages.Length,
                                h.mapped.pages, lcnt)
  {
    ghost var cw0, csds0 := h.ntpCw[..], h.csds[..];
    var clru := clru0;
    lcnt := 0;
    var pos := 0;
    os := [];
    while pos < ctx.csTop
      invariant pos == |os| <= ctx.csTop
      invariant ctx.isBg ==> ctx.start <= clru
      invariant forall k :: 0 <= k < pos ==> Probe(h.ntpCw.Length, h.mapped.ntpCw, At(k))
      invariant NonTpProgress(ctx.csd, ctx.tCommitCrit, cw0, csds0, h.ntpCw[..], h.csds[..], os)
      invariant NonTpSkipsExplained(ctx, cw0, os, csds0[ctx.csd].currTn, h.pages.Length, h.mapped.pages, lcnt)
    {
      if !Probe(h.ntpCw.Length, h.mapped.ntpCw, At(pos)) {
        break;
      }
      clru, lcnt, os := TurnNonTp(h, ctx, pos, clru, lcnt, cw0, csds0, os);
      pos := pos + 1;
    }
  }
}
