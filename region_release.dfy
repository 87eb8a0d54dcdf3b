/** What the cleanup routine does for each region besides rolling a commit forward:
    on exit, it gives back what the process held in the shared node_local area and
    cleans up reads it left in flight (lines 388-465); at the end of the region it
    releases the journal buffer's owner fields, a freeze the process set, and crit,
    settling the transaction numbers first (lines 1086-1252). */
module RegionRelease {

  import opened Arena
  import opened Latches
  import opened Lru
  import opened SharedMemory

  /** secshr_state: how the routine was entered. */
  datatype SecshrState = NormalTermination | AbnormalTermination | CommitIncomplete

  /** `is_exiting` (line 276). */
  predicate IsExiting(st: SecshrState)
  {
    st == NormalTermination || st == AbnormalTermination
  }

  // ---------------------------------------------------------------------------
  // Several latches in a row

  /** Every latch of `xs` is a latch of the arena. */
  predicate LatchesIn(xs: seq<nat>, len: nat)
  {
    forall k :: 0 <= k < |xs| ==> xs[k] < len
  }

  /** The latch words after CHECK_LATCH on the latches `xs`, in order. */
  function ReapMany(latches: seq<Owner>, xs: seq<nat>, self: nat, isExiting: bool, w: World): (r: seq<Owner>)
    requires LatchesIn(xs, |latches|)
    ensures |r| == |latches|
    decreases |xs|
  {
    if xs == [] then latches
    else
      var x := xs[|xs| - 1];
      var l := ReapMany(latches, xs[..|xs| - 1], self, isExiting, w);
      l[x := Reaped(l[x], self, isExiting, w.alive, w.racer(x))]
  }

  /** Reaping distinct latches reaps each once and leaves the others alone. */
  lemma {:induction false} ReapManyDistinct(latches: seq<Owner>, xs: seq<nat>, self: nat, isExiting: bool, w: World)
    requires LatchesIn(xs, |latches|)
    requires forall i, j :: 0 <= i < j < |xs| ==> xs[i] != xs[j]
    ensures forall y :: 0 <= y < |latches| ==>
              ReapMany(latches, xs, self, isExiting, w)[y] ==
                (if y in xs then Reaped(latches[y], self, isExiting, w.alive, w.racer(y)) else latches[y])
    decreases |xs|
  {
    if xs != [] {
      var init := xs[..|xs| - 1];
      ReapManyDistinct(latches, init, self, isExiting, w);
      assert forall y :: y in xs <==> y in init || y == xs[|xs| - 1];
      assert xs[|xs| - 1] !in init;
    }
  }

  /** CHECK_UNIX_LATCH on each latch of `xs` in turn. */
  method CheckLatches(latches: array<Owner>, xs: seq<nat>, self: nat, isExiting: bool, w: World)
    requires LatchesIn(xs, latches.Length)
    requires self != 0
    modifies latches
    ensures latches[..] == ReapMany(old(latches[..]), xs, self, isExiting, w)
  {
    var i := 0;
    while i < |xs|
      invariant i <= |xs|
      invariant latches[..] == ReapMany(old(latches[..]), xs[..i], self, isExiting, w)
    {
      CheckLatch(latches, xs[i], self, isExiting, w);
      assert xs[..i + 1][..i] == xs[..i];
      i := i + 1;
    }
    assert xs[..i] == xs;
  }

  // ---------------------------------------------------------------------------
  // The latches each structure embeds lie in a latch arena of `len` words

  predicate NlLatchesOk(nls: seq<NodeLocal>, len: nat)
  {
    forall n :: 0 <= n < |nls| ==> nls[n].wcVarLock < len
  }

  predicate CsaLatchesOk(csas: seq<Csa>, len: nat)
  {
    forall c :: 0 <= c < |csas| ==> csas[c].cacheqLatch < len
  }

  /** Rewriting one sgmnt_addrs without moving its cacheq latch keeps the latches
      in range. */
  lemma CsaLatchesKept(csas: seq<Csa>, c: nat, a: Csa, len: nat)
    requires CsaLatchesOk(csas, len) && c < |csas| && a.cacheqLatch == csas[c].cacheqLatch
    ensures CsaLatchesOk(csas[c := a], len)
  {
  }

  /** Rewriting one node_local without moving its wc_var_lock keeps the latches in
      range. */
  lemma NlLatchesKept(nls: seq<NodeLocal>, n: nat, nl: NodeLocal, len: nat)
    requires NlLatchesOk(nls, len) && n < |nls| && nl.wcVarLock == nls[n].wcVarLock
    ensures NlLatchesOk(nls[n := nl], len)
  {
  }

  predicate JbLatchesOk(jbs: seq<JnlBuffer>, len: nat)
  {
    forall j :: 0 <= j < |jbs| ==> jbs[j].fsyncLatch < len && jbs[j].ioLatch < len
  }

  /** Rewriting one jnl_buffer without moving its latches keeps them in range. */
  lemma JbLatchesKept(jbs: seq<JnlBuffer>, b: nat, jb: JnlBuffer, len: nat)
    requires JbLatchesOk(jbs, len) && b < |jbs| && jb.fsyncLatch == jbs[b].fsyncLatch && jb.ioLatch == jbs[b].ioLatch
    ensures JbLatchesOk(jbs[b := jb], len)
  {
  }

  predicate ShmpoolLatchesOk(shmpools: seq<Shmpool>, len: nat)
  {
    forall s :: 0 <= s < |shmpools| ==> shmpools[s].latch < len
  }

  // ---------------------------------------------------------------------------
  // node_local on exit (lines 376-418)

  /** The private and shared counters after an exiting process gives back its
      shares: the flush timer (on an abnormal exit), its reference (on an abnormal
      exit of a read-write process), and its wcs_wtstart call; and wcsflu_pid when it
      names this process. */
  function GiveBackShares(c: Csa, nl: NodeLocal, self: nat, abnormal: bool): (r: (Csa, NodeLocal))
  {
    var timerDrop := abnormal && c.timer && -1 < nl.wcsTimers;
    var refDrop := abnormal && c.readWrite && c.refCnt != 0;
    var wtDrop := c.inWtstart && 0 < nl.inWtstart;
    var c' := c.(timer := if abnormal then false else c.timer,
                 refCnt := if refDrop then c.refCnt - 1 else c.refCnt,
                 inWtstart := false);
    var nl' := nl.(wcsTimers := if timerDrop then nl.wcsTimers - 1 else nl.wcsTimers,
                   refCnt := if refDrop then nl.refCnt - 1 else nl.refCnt,
                   inWtstart := if wtDrop then nl.inWtstart - 1 else nl.inWtstart,
                   wcsfluPid := if nl.wcsfluPid == self then 0 else nl.wcsfluPid);
    (c', nl')
  }

  /** Each shared counter drops by at most one and only for a share this process's
      own flag says it holds; wcs_timers never drops below -1 and in_wtstart never
      below 0; afterwards the process holds no wcs_wtstart share, no timer after an
      abnormal exit, and is not the flushing process. */
  lemma GiveBackSharesOnce(c: Csa, nl: NodeLocal, self: nat, abnormal: bool)
    requires self != 0
    ensures var (c', nl') := GiveBackShares(c, nl, self, abnormal);
            (nl'.wcsTimers == nl.wcsTimers || (nl'.wcsTimers == nl.wcsTimers - 1 && c.timer && abnormal)) &&
            (nl.wcsTimers >= -1 ==> nl'.wcsTimers >= -1) &&
            (nl'.refCnt == nl.refCnt || (nl'.refCnt == nl.refCnt - 1 && c'.refCnt == c.refCnt - 1)) &&
            (nl'.inWtstart == nl.inWtstart || (nl'.inWtstart == nl.inWtstart - 1 && c.inWtstart)) &&
            (nl.inWtstart >= 0 ==> nl'.inWtstart >= 0) &&
            !c'.inWtstart && (abnormal ==> !c'.timer) && nl'.wcsfluPid != self &&
            c' == c.(timer := c'.timer, refCnt := c'.refCnt, inWtstart := false) &&
            nl' == nl.(wcsTimers := nl'.wcsTimers, refCnt := nl'.refCnt, inWtstart := nl'.inWtstart,
                       wcsfluPid := nl'.wcsfluPid)
  {
  }

  /** The shares of `a` given back into the sgmnt_addrs slot `c` and the node_local
      slot `n`. */
  method GiveBack(csas: array<Csa>, nls: array<NodeLocal>, a: Csa, c: nat, n: nat, self: nat, abnormal: bool,
                  ghost len: nat)
    requires c < csas.Length && n < nls.Length && self != 0
    requires NlLatchesOk(nls[..], len) && CsaLatchesOk(csas[..], len) && a.cacheqLatch < len
    modifies csas, nls
    ensures NlLatchesOk(nls[..], len) && CsaLatchesOk(csas[..], len)
    ensures var r := GiveBackShares(a, old(nls[n]), self, abnormal);
            csas[..] == old(csas[..])[c := r.0] && nls[..] == old(nls[..])[n := r.1]
  {
    var r := GiveBackShares(a, nls[n], self, abnormal);
    GiveBackSharesOnce(a, nls[n], self, abnormal);
    csas[c] := r.0;
    nls[n] := r.1;
  }

  /** Lines 376-418 for the region's sgmnt_addrs (slot `c`) and its node_local
      (slot `n`, probed): csa->ti is pointed back at the file header, and an exiting
      process reaps the wc_var_lock latch and gives back its shares. */
  method ReleaseNodeLocal(h: Heap, c: nat, n: nat, st: SecshrState, self: nat, w: World)
    requires c < h.csas.Length && n < h.nls.Length && self != 0
    requires NlLatchesOk(h.nls[..], h.latches.Length) && CsaLatchesOk(h.csas[..], h.latches.Length)
    modifies h.csas, h.nls, h.latches
    ensures NlLatchesOk(h.nls[..], h.latches.Length) && CsaLatchesOk(h.csas[..], h.latches.Length)
    ensures IsExiting(st) ==>
              var r := GiveBackShares(old(h.csas[c]).(tiOk := true), old(h.nls[n]), self, st == AbnormalTermination);
              h.csas[..] == old(h.csas[..])[c := r.0] && h.nls[..] == old(h.nls[..])[n := r.1] &&
              h.latches[..] == ReapMany(old(h.latches[..]), [old(h.nls[n].wcVarLock)], self, true, w)
    ensures !IsExiting(st) ==>
              h.csas[..] == old(h.csas[..])[c := old(h.csas[c]).(tiOk := true)] &&
              h.nls[..] == old(h.nls[..]) && h.latches[..] == old(h.latches[..])
  {
    var a := h.csas[c].(tiOk := true);
    if IsExiting(st) {
      CheckLatches(h.latches, [h.nls[n].wcVarLock], self, true, w);
      GiveBack(h.csas, h.nls, a, c, n, self, st == AbnormalTermination, h.latches.Length);
    } else {
      h.csas[c] := a;
    }
  }

  // ---------------------------------------------------------------------------
  // The cache records on exit (lines 440-465)

  /** A record whose read this process issued and never finished, clean and outside
      any commit, is emptied and its cycle moved on so that histories notice. */
  function Abandoned(cr: CacheRec, self: nat): CacheRec
  {
    if cr.rEpid == self && cr.dirty == 0 && !cr.inCwSet then cr.(cycle := Incr32(cr.cycle), blk := CrBlkEmpty)
    else cr
  }

  lemma AbandonedEmptiesOwnReads(cr: CacheRec, self: nat)
    ensures var cr' := Abandoned(cr, self);
            if cr.rEpid == self && cr.dirty == 0 && !cr.inCwSet
            then cr'.blk == CrBlkEmpty && cr'.cycle != cr.cycle && cr' == cr.(cycle := cr'.cycle, blk := CrBlkEmpty)
            else cr' == cr
  {
  }

  /** The rip latches of the records [start, i), in order: the latch embedded in
      record k is latch `ripBase + k`. */
  function RipLatches(ripBase: nat, start: nat, i: nat): (r: seq<nat>)
    requires start <= i
    ensures |r| == i - start
    ensures forall k :: 0 <= k < i - start ==> r[k] == ripBase + start + k
    decreases i - start
  {
    if i == start then [] else RipLatches(ripBase, start, i - 1) + [ripBase + i - 1]
  }

  /** One record of the walk: its rip latch is reaped and an abandoned read of this
      process cleaned up. */
  method VisitRecord(crs: array<CacheRec>, latches: array<Owner>, ripBase: nat, i: nat, self: nat, w: World)
    requires i < crs.Length && ripBase + i < latches.Length && self != 0
    modifies crs, latches
    ensures crs[..] == old(crs[..])[i := Abandoned(old(crs[i]), self)]
    ensures latches[..] == ReapMany(old(latches[..]), [ripBase + i], self, true, w)
  {
    CheckLatches(latches, [ripBase + i], self, true, w);
    crs[i] := Abandoned(crs[i], self);
  }

  /** The walk of lines 442-464 over the records [start, top): each record's rip
      latch is reaped and a read this process left in flight is abandoned. */
  method WalkCache(crs: array<CacheRec>, latches: array<Owner>, ripBase: nat, start: nat, top: nat, self: nat, w: World)
    requires start <= top <= crs.Length && ripBase + top <= latches.Length && self != 0
    modifies crs, latches
    ensures forall k :: 0 <= k < crs.Length ==>
              crs[k] == if start <= k < top then Abandoned(old(crs[k]), self) else old(crs[k])
    ensures latches[..] == ReapMany(old(latches[..]), RipLatches(ripBase, start, top), self, true, w)
  {
    ghost var crs0, latches0 := crs[..], latches[..];
    var i := start;
    while i < top
      invariant start <= i <= top
      invariant forall k :: 0 <= k < crs.Length ==>
                  crs[k] == if start <= k < i then Abandoned(crs0[k], self) else crs0[k]
      invariant latches[..] == ReapMany(latches0, RipLatches(ripBase, start, i), self, true, w)
    {
      ghost var xs := RipLatches(ripBase, start, i);
      assert RipLatches(ripBase, start, i + 1) == xs + [ripBase + i];
      assert (xs + [ripBase + i])[..|xs|] == xs;
      VisitRecord(crs, latches, ripBase, i, self, w);
      i := i + 1;
    }
  }

  // ---------------------------------------------------------------------------
  // The journal buffer (lines 1086-1130)

  /** The journal buffer after the process gives up what it owned: an interrupted
      disk-pointer update is completed when it held the I/O latch, and the free
      pointer update and the blocked flag it owned are completed and cleared. */
  function JbReleased(jb: JnlBuffer, jp: JnlPrivate, ownedIo: bool, self: nat): JnlBuffer
  {
    var jb1 := if ownedIo && jp.dskUpdateInprog then jb.(dsk := jp.newDsk, dskaddr := jp.newDskaddr) else jb;
    var jb2 := if jb1.freeUpdatePid == self
               then jb1.(free := jp.tempFree, freeaddr := jp.newFreeaddr, freeUpdatePid := 0) else jb1;
    if jb2.blocked == self then jb2.(blocked := 0) else jb2
  }

  /** Afterwards no owner field of the journal buffer names this process, and the
      pointers the process was moving are at the values it meant to give them. */
  lemma JbReleasedOwnsNothing(jb: JnlBuffer, jp: JnlPrivate, ownedIo: bool, self: nat)
    requires self != 0
    ensures var jb' := JbReleased(jb, jp, ownedIo, self);
            jb'.freeUpdatePid != self && jb'.blocked != self &&
            (jb.freeUpdatePid == self ==> jb'.free == jp.tempFree && jb'.freeaddr == jp.newFreeaddr) &&
            (jb.freeUpdatePid != self ==> jb'.free == jb.free && jb'.freeaddr == jb.freeaddr) &&
            (ownedIo && jp.dskUpdateInprog ==> jb'.dsk == jp.newDsk && jb'.dskaddr == jp.newDskaddr) &&
            (!(ownedIo && jp.dskUpdateInprog) ==> jb'.dsk == jb.dsk && jb'.dskaddr == jb.dskaddr) &&
            jb'.fsyncLatch == jb.fsyncLatch && jb'.ioLatch == jb.ioLatch
  {
  }

  /** Lines 1086-1130 for a region whose file header (slot `d`) has journalling on:
      when the journal private control and the buffer can be written and the process
      is exiting, the fsync latch is reaped, the I/O latch released when held, and
      the buffer's owner fields given up. */
  method ReleaseJnlBuffer(h: Heap, c: nat, d: nat, st: SecshrState, self: nat, w: World)
    requires c < h.csas.Length && d < h.csds.Length && self != 0
    requires JbLatchesOk(h.jbs[..], h.latches.Length)
    modifies h.jbs, h.latches
    ensures JbLatchesOk(h.jbs[..], h.latches.Length)
    ensures var jnl := h.csas[c].jnl;
            if h.csds[d].jnlEnabled && Probe(h.jnls.Length, h.mapped.jnls, jnl) &&
               Probe(h.jbs.Length, h.mapped.jbs, h.jnls[jnl.i].jnlBuff) && IsExiting(st)
            then
              var b := h.jnls[jnl.i].jnlBuff.i;
              var jb := old(h.jbs[b]);
              var reaped := ReapMany(old(h.latches[..]), [jb.fsyncLatch], self, true, w);
              var ownedIo := reaped[jb.ioLatch].pid == self;
              h.jbs[..] == old(h.jbs[..])[b := JbReleased(jb, h.jnls[jnl.i], ownedIo, self)] &&
              h.latches[..] == (if ownedIo then reaped[jb.ioLatch := Available] else reaped)
            else h.jbs[..] == old(h.jbs[..]) && h.latches[..] == old(h.latches[..])
  {
    var jnl := h.csas[c].jnl;
    if h.csds[d].jnlEnabled && Probe(h.jnls.Length, h.mapped.jnls, jnl) {
      var jp := h.jnls[jnl.i];
      if Probe(h.jbs.Length, h.mapped.jbs, jp.jnlBuff) && IsExiting(st) {
        var b := jp.jnlBuff.i;
        var jb := h.jbs[b];
        CheckLatches(h.latches, [jb.fsyncLatch], self, true, w);
        var ownedIo := h.latches[jb.ioLatch].pid == self;
        if ownedIo {
          h.latches[jb.ioLatch] := Available;   // RELEASE_SWAPLOCK
        }
        JbLatchesKept(h.jbs[..], b, JbReleased(jb, jp, ownedIo, self), h.latches.Length);
        h.jbs[b] := JbReleased(jb, jp, ownedIo, self);
      }
    }
  }

  // ---------------------------------------------------------------------------
  // Freeze and wc_blocked (lines 1131-1157)

  /** A freeze this exiting process set, unless it is a persistent one, is lifted;
      a BG region whose queues the process may have left half-updated (wbuf_dqd) or
      whose crit it holds has its cache marked for recovery. */
  method ReleaseFreezeAndBlockCache(h: Heap, c: nat, d: nat, isBg: bool, st: SecshrState, self: nat)
    requires c < h.csas.Length && d < h.csds.Length
    modifies h.csas, h.csds
    ensures var a := old(h.csas[c]);
            var sd := old(h.csds[d]);
            var unfreeze := IsExiting(st) && a.freeze && sd.freeze == self && !a.persistentFreeze;
            var sd1 := if unfreeze then sd.(imageCount := 0, freeze := 0) else sd;
            h.csds[..] == old(h.csds[..])[d := if isBg && (a.wbufDqd || a.nowCrit) then sd1.(wcBlocked := true) else sd1] &&
            h.csas[..] == old(h.csas[..])[c := a.(wbufDqd := false)]
  {
    var a := h.csas[c];
    if IsExiting(st) && a.freeze && h.csds[d].freeze == self && !a.persistentFreeze {
      h.csds[d] := h.csds[d].(imageCount := 0, freeze := 0);
    }
    if isBg && (a.wbufDqd || a.nowCrit) {
      h.csds[d] := h.csds[d].(wcBlocked := true);   // send_msg of ERR_WCBLOCKED is not modelled
    }
    h.csas[c] := a.(wbufDqd := false);
  }

  /** After an exit, no non-persistent freeze is left in this process's name. */
  lemma FreezeLiftedOnExit(a: Csa, sd: Csd, self: nat, st: SecshrState)
    requires IsExiting(st) && a.freeze && !a.persistentFreeze && self != 0
    ensures var unfreeze := IsExiting(st) && a.freeze && sd.freeze == self && !a.persistentFreeze;
            var sd1 := if unfreeze then sd.(imageCount := 0, freeze := 0) else sd;
            sd1.freeze != self
  {
  }

  // ---------------------------------------------------------------------------
  // Crit (lines 1157-1212)

  /** Lines 1158-1171: curr_tn and early_tn of a region held in crit. When early_tn
      is one ahead the commit got past step (4): it is finished (curr_tn catches up;
      INCREMENT_CURR_TN, not part of this model, is taken to add one) when the update
      is underway, and abandoned (early_tn falls back) otherwise. */
  function Reconciled(currTn: int, earlyTn: int, underway: bool): (r: (int, int))
  {
    if currTn == earlyTn - 1 then (if underway then (currTn + 1, earlyTn) else (currTn, currTn))
    else (currTn, earlyTn)
  }

  /** With GT.M's own invariant that early_tn is curr_tn or one ahead (the assertion
      at line 1172), the two agree afterwards; curr_tn never goes back; an update
      underway ends at the transaction it was committing, one that was not keeps the
      last committed transaction. */
  lemma ReconciledAgree(currTn: int, earlyTn: int, underway: bool)
    requires earlyTn == currTn || earlyTn == currTn + 1
    ensures var (c, e) := Reconciled(currTn, earlyTn, underway);
            c == e && c >= currTn && (underway ==> c == earlyTn) && (!underway ==> c == currTn)
  {
  }

  /** Lines 1158-1198 for a region held in crit: its transaction numbers are
      settled and t_commit_crit cleared; when node_local and crit can be written,
      in_crit is cleared if it names this process and crit is released
      (mutex_unlockw, not part of this model, does the release itself). */
  method ReleaseHeldCrit(h: Heap, c: nat, d: nat, underway: bool, self: nat)
    requires c < h.csas.Length && d < h.csds.Length
    modifies h.csas, h.csds, h.nls
    ensures var a := old(h.csas[c]);
            var held := Probe(h.nls.Length, h.mapped.nls, a.nl) && Probe(h.crits.Length, h.mapped.crits, a.critical);
            var (ct, et) := Reconciled(old(h.csds[d].currTn), old(h.csds[d].earlyTn), underway);
            h.csds[..] == old(h.csds[..])[d := old(h.csds[d]).(currTn := ct, earlyTn := et)] &&
            h.csas[..] == old(h.csas[..])[c := a.(tCommitCrit := false, nowCrit := !held)] &&
            h.nls[..] == (if held && old(h.nls[a.nl.i]).inCrit == self
                          then old(h.nls[..])[a.nl.i := old(h.nls[a.nl.i]).(inCrit := 0)] else old(h.nls[..]))
  {
    var a := h.csas[c];
    var (ct, et) := Reconciled(h.csds[d].currTn, h.csds[d].earlyTn, underway);
    h.csds[d] := h.csds[d].(currTn := ct, earlyTn := et);
    var held := Probe(h.nls.Length, h.mapped.nls, a.nl) && Probe(h.crits.Length, h.mapped.crits, a.critical);
    if held && h.nls[a.nl.i].inCrit == self {
      h.nls[a.nl.i] := h.nls[a.nl.i].(inCrit := 0);
    }
    h.csas[c] := a.(tCommitCrit := false, nowCrit := !held);
  }

  /** Lines 1157-1212: crit is released as above when held; otherwise a read lock is
      dropped when crit can be written. */
  method ReleaseCrit(h: Heap, c: nat, d: nat, underway: bool, self: nat)
    requires c < h.csas.Length && d < h.csds.Length
    requires NlLatchesOk(h.nls[..], h.latches.Length) && CsaLatchesOk(h.csas[..], h.latches.Length)
    modifies h.csas, h.csds, h.nls
    ensures NlLatchesOk(h.nls[..], h.latches.Length) && CsaLatchesOk(h.csas[..], h.latches.Length)
    ensures old(h.csas[c].nowCrit) ==>
              var a := old(h.csas[c]);
              var held := Probe(h.nls.Length, h.mapped.nls, a.nl) && Probe(h.crits.Length, h.mapped.crits, a.critical);
              var (ct, et) := Reconciled(old(h.csds[d].currTn), old(h.csds[d].earlyTn), underway);
              h.csds[..] == old(h.csds[..])[d := old(h.csds[d]).(currTn := ct, earlyTn := et)] &&
              h.csas[..] == old(h.csas[..])[c := a.(tCommitCrit := false, nowCrit := !held)] &&
              h.nls[..] == (if held && old(h.nls[a.nl.i]).inCrit == self
                            then old(h.nls[..])[a.nl.i := old(h.nls[a.nl.i]).(inCrit := 0)] else old(h.nls[..]))
    ensures !old(h.csas[c].nowCrit) ==>
              h.csds[..] == old(h.csds[..]) && h.nls[..] == old(h.nls[..]) &&
              h.csas[..] == old(h.csas[..])[c := old(h.csas[c]).(readLock := old(h.csas[c].readLock) &&
                                                  !Probe(h.crits.Length, h.mapped.crits, old(h.csas[c].critical)))]
  {
    ghost var csas0, nls0 := h.csas[..], h.nls[..];
    if h.csas[c].nowCrit {
      ReleaseHeldCrit(h, c, d, underway, self);
      var n := csas0[c].nl;
      if Probe(h.nls.Length, h.mapped.nls, n) {
        NlLatchesKept(nls0, n.i, h.nls[n.i], h.latches.Length);
      }
    } else {
      DropReadLock(h, c);
    }
    CsaLatchesKept(csas0, c, h.csas[c], h.latches.Length);
  }

  /** Lines 1199-1212: a read lock on crit is dropped when crit can be written. */
  method DropReadLock(h: Heap, c: nat)
    requires c < h.csas.Length
    modifies h.csas
    ensures h.csas[..] == old(h.csas[..])[c := old(h.csas[c]).(readLock := old(h.csas[c].readLock) &&
                                             !Probe(h.crits.Length, h.mapped.crits, old(h.csas[c].critical)))]
  {
    var a := h.csas[c];
    if a.readLock && Probe(h.crits.Length, h.mapped.crits, a.critical) {
      h.csas[c] := a.(readLock := false);
    }
  }

  // ---------------------------------------------------------------------------
  // The shared-memory pool and crit's latches (lines 1214-1252)

  /** Lines 1214-1242: on exit, the pool latch is reaped and the pool marked blocked
      when the latch was this process's or a dead process's. */
  method ReleaseShmpool(h: Heap, c: nat, st: SecshrState, self: nat, selfImage: nat, w: World)
    requires c < h.csas.Length && self != 0
    requires ShmpoolLatchesOk(h.shmpools[..], h.latches.Length)
    modifies h.shmpools, h.latches
    ensures ShmpoolLatchesOk(h.shmpools[..], h.latches.Length)
    ensures var sp := h.csas[c].shmpool;
            if IsExiting(st) && Probe(h.shmpools.Length, h.mapped.shmpools, sp) then
              var x := old(h.shmpools[sp.i].latch);
              var (after, blocked) := ShmpoolReaped(old(h.latches[x]), self, true, w.alive, w.racer(x));
              h.latches[..] == old(h.latches[..])[x := after] &&
              h.shmpools[..] == (if blocked then old(h.shmpools[..])[sp.i := old(h.shmpools[sp.i]).(blocked := true)]
                                 else old(h.shmpools[..]))
            else h.latches[..] == old(h.latches[..]) && h.shmpools[..] == old(h.shmpools[..])
  {
    var sp := h.csas[c].shmpool;
    if IsExiting(st) && Probe(h.shmpools.Length, h.mapped.shmpools, sp) {
      var blocked := ReapShmpoolLatch(h.latches, h.shmpools[sp.i].latch, self, selfImage, true, w);
      if blocked {
        h.shmpools[sp.i] := h.shmpools[sp.i].(blocked := true);
      }
    }
  }

  /** The four latches of the critical section. */
  function CritLatches(cr: Crit): seq<nat>
  {
    [cr.semaphore, cr.crashcnt, cr.prochead, cr.freehead]
  }

  predicate CritLatchesOk(crits: seq<Crit>, len: nat)
  {
    forall k :: 0 <= k < |crits| ==> LatchesIn(CritLatches(crits[k]), len)
  }

  /** Lines 1245-1252: when node_local and crit can be written, the four latches of
      crit are reaped. */
  method ReapCritLatches(h: Heap, c: nat, st: SecshrState, self: nat, w: World)
    requires c < h.csas.Length && self != 0
    requires CritLatchesOk(h.crits[..], h.latches.Length)
    modifies h.latches
    ensures var a := h.csas[c];
            h.latches[..] ==
              if Probe(h.nls.Length, h.mapped.nls, a.nl) && Probe(h.crits.Length, h.mapped.crits, a.critical)
              then ReapMany(old(h.latches[..]), CritLatches(h.crits[a.critical.i]), self, IsExiting(st), w)
              else old(h.latches[..])
  {
    var a := h.csas[c];
    if Probe(h.nls.Length, h.mapped.nls, a.nl) && Probe(h.crits.Length, h.mapped.crits, a.critical) {
      CheckLatches(h.latches, CritLatches(h.crits[a.critical.i]), self, IsExiting(st), w);
    }
  }
}
