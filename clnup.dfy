/** secshr_db_clnup as a whole (lines 177-1318): the update in flight is classified
    once, then every open region of every global directory is visited: what the
    process held in shared memory is given back, a commit that must go forward is
    rolled forward while crit is still held, and crit and the other owner fields
    are released; last, the journal pool is brought up to the committed
    transaction. GTMASSERT is modelled as the routine stopping (`halted`). */
module Clnup {

  import opened Arena
  import opened Latches
  import opened CwSets
  import opened SharedMemory
  import opened Classify
  import opened RollForward
  import opened CommitRegion
  import opened RegionRelease
  import opened JournalPool

  /** Every latch the routine reaches is a latch of the arena. In the source the
      latches are embedded in their structures, so this is layout, not a probe. */
  predicate LatchesValid(h: Heap)
    reads h.nls, h.csas, h.jbs, h.shmpools, h.crits
  {
    var len := h.latches.Length;
    h.ripBase + h.crs.Length <= len && NlLatchesOk(h.nls[..], len) && CsaLatchesOk(h.csas[..], len) &&
    JbLatchesOk(h.jbs[..], len) && ShmpoolLatchesOk(h.shmpools[..], len) && CritLatchesOk(h.crits[..], len)
  }

  // ---------------------------------------------------------------------------
  // Reaching a region (lines 346-465)

  /** A region the loop body gets past all its `continue`s with: its sgmnt_addrs
      (slot `c`), file header (`d`) and node_local (`n`), whether it is BG, and for
      BG the slots [start, top) of its cache records. */
  datatype Reached = Reached(c: nat, d: nat, n: nat, isBg: bool, start: nat, top: nat)

  /** The probe of the cache records (line 431): every slot in [start, top) is mapped. */
  predicate CacheMapped(h: Heap, start: nat, top: nat)
  {
    top <= h.crs.Length && forall k :: start <= k < top ==> k in h.mapped.crs
  }

  /** Lines 346-437: SECSHR_PROBE_REGION, then the probes of the file header and
      node_local, then for BG a non-zero sec_size whose section is mapped and cache
      records that can be written; start_cr is cache_array + bt_buckets and cr_top
      start_cr + n_bts. None: one of the `continue`s is taken. */
  function Reach(h: Heap, reg: Ref): (r: Option<Reached>)
    reads h.regions, h.segs, h.fcs, h.csas, h.csds
    ensures r.Some? ==>
              ProbeRegion(h, reg) == Some(r.value.c) && r.value.c < h.csas.Length &&
              Probe(h.csds.Length, h.mapped.csds, At(r.value.d)) && Probe(h.nls.Length, h.mapped.nls, At(r.value.n)) &&
              h.csas[r.value.c].hdr == At(r.value.d) && h.csas[r.value.c].nl == At(r.value.n) &&
              r.value.isBg == (h.csds[r.value.d].accMeth == Bg) &&
              (r.value.isBg ==> r.value.start <= r.value.top <= h.crs.Length &&
                                r.value.top - r.value.start == h.csds[r.value.d].nBts &&
                                h.regions[reg.i].secSize != 0)
    ensures ProbeRegion(h, reg).None? ==> r.None?
  {
    match ProbeRegion(h, reg)
    case None => None
    case Some(c) =>
      var a := h.csas[c];
      if !Probe(h.csds.Length, h.mapped.csds, a.hdr) || !Probe(h.nls.Length, h.mapped.nls, a.nl) then None
      else
        var sd := h.csds[a.hdr.i];
        var isBg := sd.accMeth == Bg;
        var start := a.cacheArray + sd.btBuckets;
        var top := start + sd.nBts;
        if isBg && !(h.regions[reg.i].secSize != 0 && a.sectionMapped && CacheMapped(h, start, top)) then None
        else Some(Reached(c, a.hdr.i, a.nl.i, isBg, start, top))
  }

  /** sgmnt_addrs after lines 376-418: csa->ti points at the file header, and an
      exiting process has given back its shares. */
  function Entered(a: Csa, nl: NodeLocal, st: SecshrState, self: nat): Csa
  {
    if IsExiting(st) then GiveBackShares(a.(tiOk := true), nl, self, st == AbnormalTermination).0
    else a.(tiOk := true)
  }

  /** node_local after lines 376-418: an exiting process has given back its shares. */
  function NlEntered(nl: NodeLocal, a: Csa, st: SecshrState, self: nat): NodeLocal
  {
    if IsExiting(st) then GiveBackShares(a.(tiOk := true), nl, self, st == AbnormalTermination).1 else nl
  }

  /** Lines 346-465 for one region: the probes and their `continue`s, the release of
      node_local, and for BG the cacheq latch and, on exit, the walk of the cache.
      Crit, the commit state and the file header are left as they were. */
  method EnterRegion(h: Heap, reg: Ref, st: SecshrState, self: nat, w: World) returns (r: Option<Reached>)
    requires LatchesValid(h) && self != 0
    modifies h.csas, h.nls, h.latches, h.crs
    ensures LatchesValid(h)
    ensures r == old(Reach(h, reg))
    ensures r.Some? ==> h.csas[r.value.c] == Entered(old(h.csas[r.value.c]), old(h.nls[r.value.n]), st, self)
    ensures r.Some? ==> h.csas[r.value.c].nowCrit == old(h.csas[r.value.c].nowCrit)
    ensures r.Some? ==> h.csas[..] == old(h.csas[..])[r.value.c := h.csas[r.value.c]]
    ensures r.Some? ==> h.nls[r.value.n] == NlEntered(old(h.nls[r.value.n]), old(h.csas[r.value.c]), st, self)
  {
    r := Reach(h, reg);
    var c := ProbeRegion(h, reg);
    if c.None? {
      return;
    }
    var a := h.csas[c.value];
    if !Probe(h.csds.Length, h.mapped.csds, a.hdr) || !Probe(h.nls.Length, h.mapped.nls, a.nl) {
      return;
    }
    EnterProbed(h, c.value, a.nl.i, a, h.csds[a.hdr.i], h.regions[reg.i].secSize, st, self, w);
  }

  /** Lines 376-465 once the probes have passed: node_local is released into slot
      `c`, and a BG region goes on to its cache. */
  method EnterProbed(h: Heap, c: nat, n: nat, a: Csa, sd: Csd, secSize: nat, st: SecshrState, self: nat, w: World)
    requires LatchesValid(h) && self != 0 && c < h.csas.Length && n < h.nls.Length && a == h.csas[c]
    modifies h.csas, h.nls, h.latches, h.crs
    ensures LatchesValid(h)
    ensures h.csas[..] == old(h.csas[..])[c := Entered(a, old(h.nls[n]), st, self)]
    ensures h.nls[..] == old(h.nls[..])[n := NlEntered(old(h.nls[n]), a, st, self)]
  {
    ReleaseNodeLocal(h, c, n, st, self, w);
    assert LatchesValid(h);
    if sd.accMeth == Bg {
      var ok := EnterCache(h, a, sd, secSize, st, self, w);
      assert LatchesValid(h);
    }
  }

  /** Lines 420-465 for a BG region: a zero sec_size or an unmapped section is a
      `continue`; otherwise the cacheq latch is reaped, the cache records are probed
      (another `continue`), and on exit each record's rip latch is reaped and a read
      this process left in flight abandoned. */
  method EnterCache(h: Heap, a: Csa, sd: Csd, secSize: nat, st: SecshrState, self: nat, w: World)
      returns (ok: bool)
    requires a.cacheqLatch < h.latches.Length && h.ripBase + h.crs.Length <= h.latches.Length && self != 0
    modifies h.latches, h.crs
    ensures var start := a.cacheArray + sd.btBuckets;
            ok == (secSize != 0 && a.sectionMapped && CacheMapped(h, start, start + sd.nBts))
    ensures var start := a.cacheArray + sd.btBuckets;
            forall k :: 0 <= k < h.crs.Length ==>
              h.crs[k] == if ok && IsExiting(st) && start <= k < start + sd.nBts then Abandoned(old(h.crs[k]), self)
                          else old(h.crs[k])
  {
    if secSize == 0 || !a.sectionMapped {
      return false;
    }
    CheckLatches(h.latches, [a.cacheqLatch], self, IsExiting(st), w);
    var start := a.cacheArray + sd.btBuckets;
    var top := start + sd.nBts;
    if !CacheMapped(h, start, top) {
      return false;
    }
    if IsExiting(st) {
      WalkCache(h.crs, h.latches, h.ripBase, start, top, self, w);
    }
    return true;
  }

  // ---------------------------------------------------------------------------
  // The first commit element of the region (lines 466-551)

  /** The sgm_info `i` belongs to a region whose descriptor and segment can be read
      and which resolves to the file control `file`. */
  predicate SiOnFile(h: Heap, i: nat, file: Ref)
    reads h.sis, h.regions, h.segs
    requires i < h.sis.Length
  {
    var s := h.sis[i];
    Probe(h.regions.Length, h.mapped.regions, s.gvCurRegion) &&
    Probe(h.segs.Length, h.mapped.segs, h.regions[s.gvCurRegion.i].seg) &&
    FileOf(h, s.gvCurRegion) == file
  }

  /** The sgm_info the loop of lines 476-520 stops at: the first one along
      next_tp_si_by_ftok whose region resolves to `file`, passing over those whose
      region or segment fails its probe; None when the list ends or an sgm_info
      fails its probe first. */
  function MatchingSi(h: Heap, si: Ref, file: Ref, fuel: nat): (r: Option<nat>)
    reads h.sis, h.regions, h.segs
    ensures r.Some? ==> Probe(h.sis.Length, h.mapped.sis, At(r.value)) && SiOnFile(h, r.value, file)
    ensures fuel == 0 || !Probe(h.sis.Length, h.mapped.sis, si) ==> r.None?
    decreases fuel
  {
    if fuel == 0 || !Probe(h.sis.Length, h.mapped.sis, si) then None
    else if SiOnFile(h, si.i, file) then Some(si.i)
    else MatchingSi(h, h.sis[si.i].nextTpSiByFtok, file, fuel - 1)
  }

  /** A match is the sgm_info itself when it is on the file, and otherwise the
      match of the rest of the list. */
  lemma MatchingSiFirst(h: Heap, si: Ref, file: Ref, fuel: nat)
    requires fuel > 0 && Probe(h.sis.Length, h.mapped.sis, si)
    ensures SiOnFile(h, si.i, file) ==> MatchingSi(h, si, file, fuel) == Some(si.i)
    ensures !SiOnFile(h, si.i, file) ==>
              MatchingSi(h, si, file, fuel) == MatchingSi(h, h.sis[si.i].nextTpSiByFtok, file, fuel - 1)
  {
  }

  /** The loop of lines 476-520 as a loop. */
  method FindSi(h: Heap, first: Ref, file: Ref) returns (r: Option<nat>)
    ensures r == MatchingSi(h, first, file, h.sis.Length)
  {
    var si := first;
    var fuel: nat := h.sis.Length;
    while fuel > 0 && Probe(h.sis.Length, h.mapped.sis, si)
      invariant MatchingSi(h, si, file, fuel) == MatchingSi(h, first, file, h.sis.Length)
      decreases fuel
    {
      MatchingSiFirst(h, si, file, fuel);
      if SiOnFile(h, si.i, file) {
        return Some(si.i);
      }
      si, fuel := h.sis[si.i].nextTpSiByFtok, fuel - 1;
    }
    return None;
  }

  /** Lines 494-516: the sgm_info's first_cw_set, moved to its newest version when
      it can be read; NULL when a high_tlevel link fails its probe. */
  function NewestFirstCw(h: Heap, cs: Ref): Ref
    reads h.tpCw
  {
    if Probe(h.tpCw.Length, h.mapped.tpCw, cs) then TopOf(h.tpCw[..], h.mapped.tpCw, cs, h.tpCw.Length).GetOr(Null)
    else cs
  }

  /** cs_top for a non-TP commit: cw_set_addrs + *cw_depth_addrs. Slots past the end
      of the element array fail their probe, so the loop stops at the end either way. */
  function NonTpTop(h: Heap, cwDepth: nat): (r: nat)
    ensures r <= h.ntpCw.Length && r <= cwDepth
    ensures cwDepth <= h.ntpCw.Length ==> r == cwDepth
  {
    if cwDepth <= h.ntpCw.Length then cwDepth else h.ntpCw.Length
  }

  /** Where the roll-forward of one region starts. */
  datatype FirstCw = FirstCw(first: Ref, si: nat, depth: nat, csTop: nat)

  /** What lines 466-551 find for the region `reg` whose sgmnt_addrs has now_crit
      `nowCrit` and t_commit_crit `tCommitCrit`. TP: the
      sgm_info on the region's file, and its first_cw_set moved to its newest
      version (Null when none is found). Non-TP, outside a TP commit and with
      t_commit_crit set: GTMASSERT exactly when crit is not held or a commit in
      progress past stage (6) is not underway; otherwise the first element when the
      depth is known and non-zero, with cs_top that far into the array. Otherwise no
      element and no GTMASSERT. */
  ghost predicate FirstLocated(g: Globals, h: Heap, v: Verdict, reg: Ref, nowCrit: bool, tCommitCrit: bool,
                               halted: bool, f: FirstCw)
    reads h.sis, h.regions, h.segs, h.tpCw
    requires Probe(h.regions.Length, h.mapped.regions, reg) && Probe(h.segs.Length, h.mapped.segs, h.regions[reg.i].seg)
  {
    (v.tp ==>
       !halted && match MatchingSi(h, g.firstTpSiByFtok.GetOr(Null), FileOf(h, reg), h.sis.Length)
                  case None => f.first == Null
                  case Some(i) => f.si == i && f.depth == h.sis[i].cwSetDepth &&
                                  f.first == NewestFirstCw(h, h.sis[i].firstCwSet)) &&
    (!v.tp && !v.dlrTlevel && tCommitCrit ==>
       (halted <==> !nowCrit || (g.cwDepth.Some? && !v.nonTp)) &&
       (!halted ==> (f.first != Null <==> g.cwDepth.Some? && g.cwDepth.value != 0) &&
                    (f.first != Null ==> f.csTop == NonTpTop(h, g.cwDepth.value)))) &&
    (!v.tp && !(!v.dlrTlevel && tCommitCrit) ==> !halted && f.first == Null)
  }

  /** Lines 466-551: the first commit element of the region `reg` (sgmnt_addrs `c`),
      or Null, as FirstLocated says. */
  method LocateFirstCw(g: Globals, h: Heap, v: Verdict, reg: Ref, c: nat) returns (halted: bool, f: FirstCw)
    requires c < h.csas.Length
    requires Probe(h.regions.Length, h.mapped.regions, reg) && Probe(h.segs.Length, h.mapped.segs, h.regions[reg.i].seg)
    ensures old(FirstLocated(g, h, v, reg, h.csas[c].nowCrit, h.csas[c].tCommitCrit, halted, f))
    ensures f.csTop <= h.ntpCw.Length && (v.tp && f.first != Null ==> f.si < h.sis.Length)
  {
    f := FirstCw(Null, 0, 0, 0);
    halted := false;
    if v.tp {
      var m := FindSi(h, g.firstTpSiByFtok.GetOr(Null), FileOf(h, reg));
      if m.Some? {
        var s := h.sis[m.value];
        var first := FollowHighTlevel(h.tpCw, h.mapped.tpCw, s.firstCwSet);
        f := FirstCw(first, m.value, s.cwSetDepth, 0);
      }
    } else if !v.dlrTlevel && h.csas[c].tCommitCrit {
      if !h.csas[c].nowCrit {
        return true, f;   // GTMASSERT
      }
      if g.cwDepth.Some? {
        if g.cwDepth.value != 0 {
          f := FirstCw(At(0), 0, 0, NonTpTop(h, g.cwDepth.value));
        }
        if !v.nonTp {
          return true, f;   // GTMASSERT
        }
      }
    }
  }

  /** `freeing` of the roll-forward (lines 1018-1024): the inctn opcode names a
      bitmap free by GT.M or MUPIP REORG and the detail names a block. */
  predicate Freeing(g: Globals)
  {
    g.inctn.Some? && (g.inctn.value == BmpMarkFreeGtm || g.inctn.value == BmpMarkFreeMuReorg) &&
    g.inctnDetailBlknum.Some? && g.inctnDetailBlknum.value != 0
  }

  // ---------------------------------------------------------------------------
  // Leaving a region (lines 1086-1252)

  /** Lines 1086-1156: the journal buffer, then freeze and wc_blocked. Crit, the
      commit state and the transaction numbers are left as they were. */
  method ReleaseOwners(h: Heap, c: nat, d: nat, isBg: bool, st: SecshrState, self: nat, w: World)
    requires c < h.csas.Length && d < h.csds.Length && LatchesValid(h) && self != 0
    modifies h.jbs, h.latches, h.csas, h.csds
    ensures LatchesValid(h)
    ensures h.csas[c] == old(h.csas[c]).(wbufDqd := false)
    ensures h.csds[d].currTn == old(h.csds[d].currTn) && h.csds[d].earlyTn == old(h.csds[d].earlyTn)
    ensures h.csds[d].freeBlocks == old(h.csds[d].freeBlocks) && h.csds[d].killInProg == old(h.csds[d].killInProg)
  {
    ReleaseJnlBuffer(h, c, d, st, self, w);
    ghost var csas1 := h.csas[..];
    ReleaseFreezeAndBlockCache(h, c, d, isBg, st, self);
    CsaLatchesKept(csas1, c, h.csas[c], h.latches.Length);
  }

  /** Lines 1157-1252: crit (the transaction numbers settled first), the
      shared-memory pool and crit's latches. */
  method ReleaseLocks(h: Heap, c: nat, d: nat, underway: bool, st: SecshrState, self: nat, selfImage: nat, w: World)
    requires c < h.csas.Length && d < h.csds.Length && LatchesValid(h) && self != 0
    modifies h.latches, h.csas, h.csds, h.nls, h.shmpools
    ensures LatchesValid(h)
    ensures old(h.csas[c].nowCrit) ==>
              var (ct, et) := Reconciled(old(h.csds[d].currTn), old(h.csds[d].earlyTn), underway);
              h.csds[d].currTn == ct && h.csds[d].earlyTn == et && !h.csas[c].tCommitCrit &&
              ((Probe(h.nls.Length, h.mapped.nls, h.csas[c].nl) &&
                Probe(h.crits.Length, h.mapped.crits, h.csas[c].critical)) ==> !h.csas[c].nowCrit)
    ensures !old(h.csas[c].nowCrit) ==>
              h.csds[d].currTn == old(h.csds[d].currTn) && h.csds[d].earlyTn == old(h.csds[d].earlyTn) &&
              !h.csas[c].nowCrit
    ensures h.csds[d].freeBlocks == old(h.csds[d].freeBlocks) && h.csds[d].killInProg == old(h.csds[d].killInProg)
  {
    ReleaseCrit(h, c, d, underway, self);
    ReleaseShmpool(h, c, st, self, selfImage, w);
    ReapCritLatches(h, c, st, self, w);
  }

  // ---------------------------------------------------------------------------
  // One region, all regions

  /** The roll-forward's context (lines 552-603) for the reached region `e`, from
      its sgmnt_addrs `a` and node_local `nl` and the first element `f`. */
  function RegionCtx(g: Globals, a: Csa, nl: NodeLocal, v: Verdict, e: Reached, f: FirstCw, b: Builders): Ctx
  {
    Ctx(v.tp, a.tCommitCrit, e.d, e.isBg, e.start, e.top, a.mmBase, nl.backupInProgress, f.first, f.depth, f.csTop,
        Freeing(g), b)
  }

  /** A region's commit rolled forward in context `ctx` from the first element `f`:
      the file header's counters (`sd0` before, `sd` after) as Counted says, and the
      commit elements (`tp0` and `ntp0` before, `tp` and `ntp` after) as
      ElementsRolled says, with outcomes `os`. */
  ghost predicate RolledForward(h: Heap, ctx: Ctx, prevFreeBlks: int, f: FirstCw, sd0: Csd, sd: Csd,
                                sis0: seq<SgmInfo>, sis: seq<SgmInfo>, kip0: Option<bool>, need0: Option<bool>,
                                kip: Option<bool>, need: Option<bool>, tp0: seq<CwSet>, ntp0: seq<CwSet>,
                                tp: seq<CwSet>, ntp: seq<CwSet>, os: seq<Outcome>, visited: seq<nat>, lcnt: nat)
  {
    match f
    case FirstCw(_, si, _, _) =>
    Counted(ctx, prevFreeBlks, sd0, sd, si in h.mapped.sisWritable, sis0, sis, si, kip0, need0, kip, need, os) &&
    ElementsRolled(h, ctx, tp0, ntp0, tp, ntp, sd0.currTn, os, visited, lcnt)
  }

  /** Lines 552-1084: when the process holds crit and the region has a first commit
      element, the region's commit is rolled forward (`rolled`), with clru starting
      at the cache record cur_lru_cache_rec_off designates, taken as an offset from
      start_cr; the elements and the file header's counters end as RollRegion says
      and nothing else of the file header changes. Otherwise nothing changes. */
  method CommitIfHeld(g: Globals, h: Heap, v: Verdict, e: Reached, f: FirstCw, b: Builders, flags: KipFlags)
      returns (ghost rolled: bool, ghost os: seq<Outcome>, ghost visited: seq<nat>, ghost lcnt: nat)
    requires e.c < h.csas.Length && e.d < h.csds.Length && e.n < h.nls.Length
    requires e.isBg ==> e.start <= e.top <= h.crs.Length
    requires v.tp && f.first != Null ==> f.si < h.sis.Length
    requires !v.tp ==> f.csTop <= h.ntpCw.Length
    requires Wf(h) && NewBuffsValid(h) && LatchesValid(h)
    modifies h.tpCw, h.ntpCw, h.crs, h.pages, h.csds, h.sis, flags
    ensures NewBuffsValid(h) && LatchesValid(h)
    ensures rolled <==> old(h.csas[e.c].nowCrit) && f.first != Null
    ensures !rolled ==> h.csds[..] == old(h.csds[..]) && h.tpCw[..] == old(h.tpCw[..]) &&
                        h.ntpCw[..] == old(h.ntpCw[..])
    ensures h.csds[e.d].currTn == old(h.csds[e.d].currTn) && h.csds[e.d].earlyTn == old(h.csds[e.d].earlyTn)
    ensures rolled ==>
              var ctx := RegionCtx(g, old(h.csas[e.c]), old(h.nls[e.n]), v, e, f, b);
              CountersOnly(old(h.csds[..]), h.csds[..], e.d) &&
              RolledForward(h, ctx, old(h.csas[e.c].prevFreeBlks), f, old(h.csds[e.d]), h.csds[e.d], old(h.sis[..]),
                            h.sis[..], old(flags.kipIncremented), old(flags.needKipIncr), flags.kipIncremented,
                            flags.needKipIncr, old(h.tpCw[..]), old(h.ntpCw[..]), h.tpCw[..], h.ntpCw[..], os,
                            visited, lcnt)
  {
    var a := h.csas[e.c];
    rolled, os, visited, lcnt := false, [], [], 0;
    if a.nowCrit && f.first != Null {
      var ctx := RegionCtx(g, a, h.nls[e.n], v, e, f, b);
      var clru0 := e.start + h.nls[e.n].curLru;
      rolled := true;
      os, visited, lcnt := RollRegion(h, ctx, f.si, flags, a.prevFreeBlks, clru0);
    }
  }

  /** GT.M's invariant on a file header (the assertion at line 1172 after the fixup):
      early_tn is curr_tn, or one ahead while a commit is between steps (4) and (8). */
  predicate TnInvariant(sd: Csd)
  {
    sd.earlyTn == sd.currTn || sd.earlyTn == sd.currTn + 1
  }

  /** The transaction numbers of `sd0` settled: they agree, at the transaction being
      committed when the update was underway and at the last committed one otherwise. */
  predicate Settled(sd0: Csd, sd: Csd, underway: bool)
  {
    sd.currTn == sd.earlyTn && sd.currTn == (if underway then sd0.earlyTn else sd0.currTn)
  }

  /** What lines 466-1084 leave for a reached region `e`, on snapshots: `located`
      says the first element `f` and `halted` are as FirstLocated says; the region's
      sgmnt_addrs `a` and node_local `nl` are not touched; the commit is rolled
      forward exactly when there was no GTMASSERT, crit is held and there is a first
      element, and then as RolledForward says with the transaction numbers of the
      file header kept; otherwise the file header (`sd0` before, `sd` after) and
      the commit elements are left as they were. */
  ghost predicate Committed(h: Heap, g: Globals, v: Verdict, e: Reached, b: Builders, located: bool, a: Csa,
                            nl: NodeLocal, sd0: Csd, sd: Csd, sis0: seq<SgmInfo>, sis: seq<SgmInfo>,
                            kip0: Option<bool>, need0: Option<bool>, kip: Option<bool>, need: Option<bool>,
                            tp0: seq<CwSet>, ntp0: seq<CwSet>, tp: seq<CwSet>, ntp: seq<CwSet>, halted: bool,
                            f: FirstCw, rolled: bool, os: seq<Outcome>, visited: seq<nat>, lcnt: nat)
  {
    match f
    case FirstCw(first, _, _, _) =>
    located &&
    (rolled <==> !halted && a.nowCrit && first != Null) &&
    (!rolled ==> sd == sd0 && tp == tp0 && ntp == ntp0) &&
    (rolled ==>
       sd.currTn == sd0.currTn && sd.earlyTn == sd0.earlyTn &&
       RolledForward(h, RegionCtx(g, a, nl, v, e, f, b), a.prevFreeBlks, f, sd0, sd, sis0, sis, kip0, need0, kip,
                     need, tp0, ntp0, tp, ntp, os, visited, lcnt))
  }

  /** Lines 466-1084: the first commit element is located and, unless that is a
      GTMASSERT, the commit rolled forward when crit is held, as CommitIfHeld says;
      only the commit counters of the file header change. */
  method LocateAndCommit(g: Globals, h: Heap, v: Verdict, reg: Ref, e: Reached, b: Builders, flags: KipFlags)
      returns (halted: bool, f: FirstCw, ghost rolled: bool, ghost os: seq<Outcome>, ghost visited: seq<nat>,
               ghost lcnt: nat)
    requires Wf(h) && NewBuffsValid(h) && LatchesValid(h)
    requires e.c < h.csas.Length && e.d < h.csds.Length && e.n < h.nls.Length
    requires e.isBg ==> e.start <= e.top <= h.crs.Length
    requires Probe(h.regions.Length, h.mapped.regions, reg) && Probe(h.segs.Length, h.mapped.segs, h.regions[reg.i].seg)
    modifies h.tpCw, h.ntpCw, h.crs, h.pages, h.csds, h.sis, flags
    ensures NewBuffsValid(h) && LatchesValid(h)
    ensures Committed(h, g, v, e, b, old(FirstLocated(g, h, v, reg, h.csas[e.c].nowCrit, h.csas[e.c].tCommitCrit, halted, f)),
                      old(h.csas[e.c]), old(h.nls[e.n]), old(h.csds[e.d]), h.csds[e.d], old(h.sis[..]), h.sis[..],
                      old(flags.kipIncremented), old(flags.needKipIncr), flags.kipIncremented, flags.needKipIncr,
                      old(h.tpCw[..]), old(h.ntpCw[..]), h.tpCw[..], h.ntpCw[..], halted, f, rolled, os, visited, lcnt)
    ensures rolled ==> CountersOnly(old(h.csds[..]), h.csds[..], e.d)
    ensures !rolled ==> h.csds[..] == old(h.csds[..])
  {
    halted, f := LocateFirstCw(g, h, v, reg, e.c);
    rolled, os, visited, lcnt := false, [], [], 0;
    if !halted {
      rolled, os, visited, lcnt := CommitIfHeld(g, h, v, e, f, b, flags);
    }
  }

  /** What the release of a region (lines 1086-1252) leaves, from the file header
      `sd1` before it to `sd` after and the sgmnt_addrs `a` after, when crit was
      `held` before the region's commit: the commit counters are kept, crit ends
      released when node_local and crit can be written, and when crit was held
      the transaction numbers are settled (given GT.M's invariant on them) and the
      region no longer inside a commit. */
  ghost predicate Released(h: Heap, underway: bool, held: bool, sd1: Csd, sd: Csd, a: Csa)
  {
    sd.freeBlocks == sd1.freeBlocks && sd.killInProg == sd1.killInProg &&
    ((Probe(h.nls.Length, h.mapped.nls, a.nl) && Probe(h.crits.Length, h.mapped.crits, a.critical)) ==>
       !a.nowCrit) &&
    (held && TnInvariant(sd1) ==> Settled(sd1, sd, underway) && !a.tCommitCrit)
  }

  /** How a reached region `e` ends (lines 466-1253), on snapshots: its commit as
      Committed says, from its sgmnt_addrs `a0`, node_local `nl0` and file header
      `sd0` before to the file header `sd1` after it; then, unless that was a
      GTMASSERT, its release as Released says, to the file header `sd` and the
      sgmnt_addrs `a` at the end. */
  ghost predicate Finished(h: Heap, g: Globals, v: Verdict, e: Reached, b: Builders, located: bool, a0: Csa,
                           nl0: NodeLocal, sd0: Csd, sd1: Csd, sd: Csd, sis0: seq<SgmInfo>, sis: seq<SgmInfo>,
                           kip0: Option<bool>, need0: Option<bool>, kip: Option<bool>, need: Option<bool>,
                           tp0: seq<CwSet>, ntp0: seq<CwSet>, tp: seq<CwSet>, ntp: seq<CwSet>, halted: bool,
                           f: FirstCw, rolled: bool, os: seq<Outcome>, visited: seq<nat>, lcnt: nat, a: Csa)
  {
    Committed(h, g, v, e, b, located, a0, nl0, sd0, sd1, sis0, sis, kip0, need0, kip, need, tp0, ntp0, tp, ntp, halted,
              f, rolled, os, visited, lcnt) &&
    (halted ==> sd == sd1) &&
    (!halted ==> Released(h, v.Underway(), a0.nowCrit, sd1, sd, a))
  }

  /** Lines 466-1253 for a region the body got through (`e`): the first commit
      element is located and, unless that is a GTMASSERT, the commit rolled forward
      when crit is held and the region's owners and locks released, as Finished
      says; `sd1` is the file header between the two. */
  method FinishRegion(g: Globals, h: Heap, v: Verdict, reg: Ref, e: Reached, st: SecshrState, w: World,
                      b: Builders, flags: KipFlags)
      returns (halted: bool, ghost f: FirstCw, ghost rolled: bool, ghost os: seq<Outcome>, ghost visited: seq<nat>,
               ghost lcnt: nat, ghost sd1: Csd, ghost sis1: seq<SgmInfo>, ghost kip1: Option<bool>,
               ghost need1: Option<bool>, ghost tp1: seq<CwSet>, ghost ntp1: seq<CwSet>)
    requires LatchesValid(h) && Wf(h) && NewBuffsValid(h) && g.self != 0
    requires e.c < h.csas.Length && e.d < h.csds.Length && e.n < h.nls.Length
    requires e.isBg ==> e.start <= e.top <= h.crs.Length
    requires Probe(h.regions.Length, h.mapped.regions, reg) && Probe(h.segs.Length, h.mapped.segs, h.regions[reg.i].seg)
    modifies h.csas, h.nls, h.latches, h.crs, h.tpCw, h.ntpCw, h.pages, h.csds, h.sis, flags,
             h.jbs, h.shmpools
    ensures LatchesValid(h) && NewBuffsValid(h)
    ensures sis1 == h.sis[..] && kip1 == flags.kipIncremented && need1 == flags.needKipIncr && tp1 == h.tpCw[..] &&
            ntp1 == h.ntpCw[..]
    ensures Finished(h, g, v, e, b, old(FirstLocated(g, h, v, reg, h.csas[e.c].nowCrit, h.csas[e.c].tCommitCrit, halted, f)),
                     old(h.csas[e.c]), old(h.nls[e.n]), old(h.csds[e.d]), sd1, h.csds[e.d], old(h.sis[..]), sis1,
                     old(flags.kipIncremented), old(flags.needKipIncr), kip1, need1,
                     old(h.tpCw[..]), old(h.ntpCw[..]), tp1, ntp1, halted, f, rolled, os, visited, lcnt, h.csas[e.c])
  {
    halted, f, rolled, os, visited, lcnt := LocateAndCommit(g, h, v, reg, e, b, flags);
    sd1, sis1, kip1, need1, tp1, ntp1 := h.csds[e.d], h.sis[..], flags.kipIncremented, flags.needKipIncr, h.tpCw[..],
                                         h.ntpCw[..];
    if !halted {
      ReleaseRegion(h, e.c, e.d, e.isBg, v.Underway(), st, g.self, g.selfImage, w);
    }
    ReleaseFinishes(h, g, v, e, b, old(FirstLocated(g, h, v, reg, h.csas[e.c].nowCrit, h.csas[e.c].tCommitCrit, halted, f)),
                    old(h.csas[e.c]), old(h.nls[e.n]), old(h.csds[e.d]), sd1, h.csds[e.d], old(h.sis[..]), sis1,
                    old(flags.kipIncremented), old(flags.needKipIncr), kip1, need1, old(h.tpCw[..]), old(h.ntpCw[..]),
                    tp1, ntp1, halted, f, rolled, os, visited, lcnt, h.csas[e.c]);
  }

  /** A commit as Committed leaves it, followed, unless that was a GTMASSERT, by a
      release as Released says, ends as Finished says. */
  lemma ReleaseFinishes(h: Heap, g: Globals, v: Verdict, e: Reached, b: Builders, located: bool, a0: Csa,
                        nl0: NodeLocal, sd0: Csd, sd1: Csd, sd: Csd, sis0: seq<SgmInfo>, sis: seq<SgmInfo>,
                        kip0: Option<bool>, need0: Option<bool>, kip: Option<bool>, need: Option<bool>,
                        tp0: seq<CwSet>, ntp0: seq<CwSet>, tp: seq<CwSet>, ntp: seq<CwSet>, halted: bool,
                        f: FirstCw, rolled: bool, os: seq<Outcome>, visited: seq<nat>, lcnt: nat, a: Csa)
    requires Committed(h, g, v, e, b, located, a0, nl0, sd0, sd1, sis0, sis, kip0, need0, kip, need, tp0, ntp0, tp,
                       ntp, halted, f, rolled, os, visited, lcnt)
    requires halted ==> sd == sd1
    requires !halted ==> Released(h, v.Underway(), a0.nowCrit, sd1, sd, a)
    ensures Finished(h, g, v, e, b, located, a0, nl0, sd0, sd1, sd, sis0, sis, kip0, need0, kip, need, tp0, ntp0, tp,
                     ntp, halted, f, rolled, os, visited, lcnt, a)
  {
  }

  /** Lines 1086-1252: the region's owners, then its locks, are released. The commit
      counters of the file header are untouched; crit ends released when node_local
      and crit can be written, and the transaction numbers settled when it was held. */
  method ReleaseRegion(h: Heap, c: nat, d: nat, isBg: bool, underway: bool, st: SecshrState, self: nat,
                       selfImage: nat, w: World)
    requires c < h.csas.Length && d < h.csds.Length && LatchesValid(h) && self != 0
    modifies h.jbs, h.latches, h.csas, h.csds, h.nls, h.shmpools
    ensures LatchesValid(h)
    ensures Released(h, underway, old(h.csas[c].nowCrit), old(h.csds[d]), h.csds[d], h.csas[c])
    ensures unchanged(h.tpCw, h.ntpCw, h.sis) && (old(NewBuffsValid(h)) ==> NewBuffsValid(h))
  {
    ghost var sd0 := h.csds[d];
    ReleaseOwners(h, c, d, isBg, st, self, w);
    ReleaseLocks(h, c, d, underway, st, self, selfImage, w);
    if TnInvariant(sd0) {
      ReconciledAgree(sd0.currTn, sd0.earlyTn, underway);
    }
  }

  /** Entering a region keeps what locating and rolling forward its commit read of
      sgmnt_addrs and node_local, so a region that ends as Finished says from the
      state after entering it ends so from the state before. */
  lemma EnteredFinishes(h: Heap, g: Globals, v: Verdict, e: Reached, b: Builders, located: bool, a0: Csa,
                        nl0: NodeLocal, st: SecshrState, self: nat, sd0: Csd, sd1: Csd, sd: Csd, sis0: seq<SgmInfo>,
                        sis: seq<SgmInfo>, kip0: Option<bool>, need0: Option<bool>, kip: Option<bool>,
                        need: Option<bool>, tp0: seq<CwSet>, ntp0: seq<CwSet>, tp: seq<CwSet>, ntp: seq<CwSet>,
                        halted: bool, f: FirstCw, rolled: bool, os: seq<Outcome>, visited: seq<nat>, lcnt: nat, a: Csa)
    requires Finished(h, g, v, e, b, located, Entered(a0, nl0, st, self), NlEntered(nl0, a0, st, self), sd0, sd1, sd, sis0,
                      sis, kip0, need0, kip, need, tp0, ntp0, tp, ntp, halted, f, rolled, os, visited, lcnt, a)
    ensures Finished(h, g, v, e, b, located, a0, nl0, sd0, sd1, sd, sis0, sis, kip0, need0, kip, need, tp0, ntp0, tp, ntp,
                     halted, f, rolled, os, visited, lcnt, a)
  {
    EnteredKeepsCommit(a0, nl0, st, self);
    assert RegionCtx(g, Entered(a0, nl0, st, self), NlEntered(nl0, a0, st, self), v, e, f, b) ==
           RegionCtx(g, a0, nl0, v, e, f, b);
  }

  /** Entering a region keeps what locating and rolling forward its commit read of
      sgmnt_addrs and node_local. */
  lemma EnteredKeepsCommit(a: Csa, nl: NodeLocal, st: SecshrState, self: nat)
    ensures var a' := Entered(a, nl, st, self);
            a'.nowCrit == a.nowCrit && a'.tCommitCrit == a.tCommitCrit && a'.prevFreeBlks == a.prevFreeBlks &&
            a'.mmBase == a.mmBase && NlEntered(nl, a, st, self).backupInProgress == nl.backupInProgress
  {
  }

  /** An array no step changed holds the sequence it held. */
  twostate lemma ArrayKept<T>(a: array<T>)
    requires unchanged(a)
    ensures a[..] == old(a[..])
  {
  }

  /** The loop body of lines 346-1253 for the region descriptor `reg`: a region the
      body gets through (`Reach`) ends as Finished says, from its sgmnt_addrs and
      node_local as entering left them and the rest of the state before the body
      (EnteredFinishes carries this back to the sgmnt_addrs and node_local before
      entering); a region it does not get through changes no commit element and no
      file header. */
  method ProcessRegion(g: Globals, h: Heap, v: Verdict, reg: Ref, st: SecshrState, w: World, b: Builders,
                       flags: KipFlags)
      returns (halted: bool, r: Option<Reached>, ghost f: FirstCw, ghost rolled: bool, ghost os: seq<Outcome>,
               ghost visited: seq<nat>, ghost lcnt: nat, ghost sd1: Csd)
    requires LatchesValid(h) && Wf(h) && NewBuffsValid(h) && g.self != 0
    modifies h.csas, h.nls, h.latches, h.crs, h.tpCw, h.ntpCw, h.pages, h.csds, h.sis, flags,
             h.jbs, h.shmpools
    ensures LatchesValid(h) && NewBuffsValid(h)
    ensures r == old(Reach(h, reg))
    ensures r.None? ==> !halted && !rolled && h.csds[..] == old(h.csds[..]) && h.tpCw[..] == old(h.tpCw[..]) &&
                        h.ntpCw[..] == old(h.ntpCw[..])
    ensures r.Some? ==>
              var e := r.value;
              Finished(h, g, v, e, b, old(FirstLocated(g, h, v, reg, h.csas[e.c].nowCrit, h.csas[e.c].tCommitCrit, halted, f)),
                       Entered(old(h.csas[e.c]), old(h.nls[e.n]), st, g.self),
                       NlEntered(old(h.nls[e.n]), old(h.csas[e.c]), st, g.self), old(h.csds[e.d]), sd1, h.csds[e.d],
                       old(h.sis[..]), h.sis[..], old(flags.kipIncremented), old(flags.needKipIncr),
                       flags.kipIncremented, flags.needKipIncr, old(h.tpCw[..]), old(h.ntpCw[..]), h.tpCw[..],
                       h.ntpCw[..], halted, f, rolled, os, visited, lcnt, h.csas[e.c])
  {
    halted, f, rolled, os, visited, lcnt := false, FirstCw(Null, 0, 0, 0), false, [], [], 0;
    sd1 := Csd(Bg, 0, 0, 0, 0, 0, 0, V4, 0, 0, false, 0, 0, false);
    r := EnterRegion(h, reg, st, g.self, w);
    assert NewBuffsValid(h);
    ArrayKept(h.sis);
    ArrayKept(h.tpCw);
    ArrayKept(h.ntpCw);
    label entered:
    if r.Some? {
      var e := r.value;
      EnteredKeepsCommit(old(h.csas[e.c]), old(h.nls[e.n]), st, g.self);
      ghost var sis1, kip1, need1, tp1, ntp1;
      halted, f, rolled, os, visited, lcnt, sd1, sis1, kip1, need1, tp1, ntp1 := FinishRegion(g, h, v, reg, e, st, w, b, flags);
      assert old@entered(FirstLocated(g, h, v, reg, h.csas[e.c].nowCrit, h.csas[e.c].tCommitCrit, halted, f)) ==
             old(FirstLocated(g, h, v, reg, h.csas[e.c].nowCrit, h.csas[e.c].tCommitCrit, halted, f));
    }
  }

  /** Lines 344-1253 for the regions of one global directory, in order, each as
      ProcessRegion says: the first `done` regions get through the body, and the
      walk stops early only at a GTMASSERT, in the region after them. */
  method ProcessGld(g: Globals, h: Heap, v: Verdict, gd: Gld, st: SecshrState, w: World, b: Builders,
                    flags: KipFlags) returns (halted: bool, ghost done: nat)
    requires LatchesValid(h) && Wf(h) && NewBuffsValid(h) && g.self != 0
    modifies h.csas, h.nls, h.latches, h.crs, h.tpCw, h.ntpCw, h.pages, h.csds, h.sis, flags,
             h.jbs, h.shmpools
    ensures LatchesValid(h) && NewBuffsValid(h)
    ensures !halted ==> done == gd.nRegions
    ensures halted ==> done < gd.nRegions
  {
    halted := false;
    var k := 0;
    while k < gd.nRegions
      invariant k <= gd.nRegions
      invariant LatchesValid(h) && NewBuffsValid(h)
    {
      var reached;
      ghost var f, rolled, os, visited, lcnt, sd1;
      halted, reached, f, rolled, os, visited, lcnt, sd1 := ProcessRegion(g, h, v, At(gd.regionsBase + k), st, w, b, flags);
      if halted {
        return halted, k;
      }
      k := k + 1;
    }
    done := k;
  }

  /** The routine (lines 177-1318) for the process `g.self` entered in state `st`:
      the update is classified from the state on entry; when get_next_gdr_addrs is not
      registered nothing else happens (lines 209-210); otherwise every region of every
      global directory whose descriptor can be read is processed in order until a
      GTMASSERT, and then the journal pool is fixed up. `hdrsMapped` is the probe of
      the journal pool's data header, `w` what other processes do to latches, `b` the
      block builders. */
  method SecshrDbClnup(g: Globals, h: Heap, st: SecshrState, w: World, b: Builders, flags: KipFlags,
                       hdrsMapped: bool) returns (v: Verdict, halted: bool)
    requires LatchesValid(h) && Wf(h) && NewBuffsValid(h) && g.self != 0
    modifies h.csas, h.nls, h.latches, h.crs, h.tpCw, h.ntpCw, h.pages, h.csds, h.sis, flags,
             h.jbs, h.shmpools, h.jpls
    ensures v.dlrTlevel == DlrTlevel(g)
    ensures v.tp <==> DlrTlevel(g) && g.firstTpSiByFtok.Some? && old(SomeFirstHit(h, g.firstTpSiByFtok.value))
    ensures v.nonTp <==> !DlrTlevel(g) && old(NonTpUnderway(g, h))
    ensures !(v.tp && v.nonTp)
    ensures !g.gdrWalker ==>
              !halted && unchanged(h.csas, h.nls, h.latches, h.crs, h.tpCw, h.ntpCw, h.pages, h.csds,
                                   h.sis, flags, h.jbs, h.shmpools, h.jpls)
    ensures halted ==> h.jpls[..] == old(h.jpls[..])
    ensures g.gdrWalker && !halted ==>
              h.jpls[..] == PoolsFixed(h, g.jnlpoolReg, old(h.jpls[..]), hdrsMapped, v.Underway())
    ensures g.gdrWalker && !halted ==> var a := PoolRegion(h, g.jnlpoolReg);
                        (a.Some? && Probe(h.nls.Length, h.mapped.nls, a.value.nl) &&
                         Probe(h.crits.Length, h.mapped.crits, a.value.critical)) ==>
                          h.nls[a.value.nl.i].inCrit != g.self
  {
    ghost var hit := g.firstTpSiByFtok.Some? && SomeFirstHit(h, g.firstTpSiByFtok.value);
    ghost var k0: nat := 0;
    if hit {
      k0 :| 0 <= k0 < h.sis.Length && FirstHitAt(h, g.firstTpSiByFtok.value, k0);
    }
    v := ClassifyUpdate(g, h);
    if v.tp {
      ghost var k :| 0 <= k < h.sis.Length && FirstHitAt(h, g.firstTpSiByFtok.value, k);
      assert hit;
    }
    if DlrTlevel(g) && hit {
      assert FirstHitAt(h, g.firstTpSiByFtok.value, k0);
      assert v.tp;
    }
    halted := false;
    if !g.gdrWalker {
      return;
    }
    var gi := 0;
    while gi < |g.glds|
      invariant LatchesValid(h) && NewBuffsValid(h)
      invariant h.jpls[..] == old(h.jpls[..])
    {
      var gd := g.glds[gi];
      if !gd.mapped {
        break;
      }
      ghost var done;
      halted, done := ProcessGld(g, h, v, gd, st, w, b, flags);
      if halted {
        return;
      }
      gi := gi + 1;
    }
    FixJnlPool(h, g.jnlpoolReg, hdrsMapped, v.Underway(), g.self);
  }
}
