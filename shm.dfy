/** The structures the cleanup routine reaches through pointers, as arenas.
    Process-private descriptors (regions, segments, file controls, sgmnt_addrs,
    sgm_info, commit elements) and shared memory (sgmnt_data, node_local, cache
    records, block buffers, latches, journal buffers, the journal pool) each live
    in one array; a pointer is an index and a probe is a test against the set of
    indices mapped in that array. */
module SharedMemory {

  import opened Arena
  import opened Latches
  import opened CwSets
  import opened Lru
  import opened Blocks

  datatype AccMeth = Bg | Mm | OtherAccMeth

  /** gd_region: `seg` is dyn.addr. */
  datatype Region = Region(open: bool, wasOpen: bool, seg: Ref, secSize: nat)

  /** gd_segment. */
  datatype Segment = Segment(accMeth: AccMeth, fileCntl: Ref)

  /** file_control with its file_info: `csa` is &FILE_INFO(reg)->s_addrs. */
  datatype FileCntl = FileCntl(fileInfoMapped: bool, csa: Ref)

  /** sgmnt_addrs, the process's view of one database file. `tiOk` says whether
      csa->ti points at the file header's trans_hist; `sectionMapped` whether the
      whole shared section (sec_size bytes from node_local) is mapped;
      `cacheArray` is the slot of the first cache record (including the hash
      buckets) and `mmBase` the buffer slot of block 0 for MM. */
  datatype Csa = Csa(
    hdr: Ref, nl: Ref, tiOk: bool,
    nowCrit: bool, tCommitCrit: bool, readWrite: bool,
    timer: bool, refCnt: nat, inWtstart: bool, prevFreeBlks: int,
    jnl: Ref, freeze: bool, persistentFreeze: bool, wbufDqd: bool, readLock: bool,
    critical: Ref, shmpool: Ref, cacheqLatch: nat, cacheArray: nat, mmBase: int,
    sectionMapped: bool, jpl: Ref)

  /** sgmnt_data, the shared file header. */
  datatype Csd = Csd(
    accMeth: AccMeth, currTn: int, earlyTn: int, freeBlocks: int,
    btBuckets: nat, nBts: nat, blkSize: nat,
    desiredDbFormat: BlkVer, blksToUpgrd: int, killInProg: nat,
    jnlEnabled: bool, freeze: nat, imageCount: nat, wcBlocked: bool)

  /** node_local: `curLru` is the cache slot of cur_lru_cache_rec_off and
      `backupInProgress` is `nbb != BACKUP_NOT_IN_PROGRESS`. */
  datatype NodeLocal = NodeLocal(
    wcVarLock: nat, wcsTimers: int, refCnt: int, inWtstart: int,
    wcsfluPid: nat, curLru: nat, backupInProgress: bool, inCrit: nat)

  /** jnl_private_control. */
  datatype JnlPrivate = JnlPrivate(
    jnlBuff: Ref, dskUpdateInprog: bool, newDsk: int, newDskaddr: int,
    tempFree: int, newFreeaddr: int)

  /** jnl_buffer. */
  datatype JnlBuffer = JnlBuffer(
    fsyncLatch: nat, ioLatch: nat, dsk: int, dskaddr: int,
    free: int, freeaddr: int, freeUpdatePid: nat, blocked: nat)

  /** The latches of the critical section. */
  datatype Crit = Crit(semaphore: nat, crashcnt: nat, prochead: nat, freehead: nat)

  /** The shared-memory pool for before-images. */
  datatype Shmpool = Shmpool(latch: nat, blocked: bool)

  /** sgm_info: `commitStarted` is `update_trans == T_COMMIT_STARTED`, `hasKillSet`
      is `kill_set_head != NULL`. */
  datatype SgmInfo = SgmInfo(
    nextSgmInfo: Ref, nextTpSiByFtok: Ref, commitStarted: bool,
    firstCwSet: Ref, gvCurRegion: Ref, cwSetDepth: nat,
    hasKillSet: bool, kipIncremented: bool)

  /** jnldata_hdr. */
  datatype JnlDataHdr = JnlDataHdr(jnldataLen: Uint32, prevJnldataLen: Uint32)

  /** jnlpool_ctl with the data headers at each offset of its buffer. */
  datatype JnlPool = JnlPool(
    earlyWriteAddr: nat, writeAddr: nat, write: Uint32, lastwriteLen: Uint32,
    jnlSeqno: nat, jnlpoolSize: Uint32,
    hdrs: map<nat, JnlDataHdr>)

  /** The indices mapped in each arena. */
  datatype Mapped = Mapped(
    regions: set<nat>, segs: set<nat>, fcs: set<nat>, csas: set<nat>,
    csds: set<nat>, nls: set<nat>, crs: set<nat>, pages: set<nat>,
    tpCw: set<nat>, ntpCw: set<nat>, sis: set<nat>, sisWritable: set<nat>,
    jnls: set<nat>, jbs: set<nat>, crits: set<nat>, shmpools: set<nat>, jpls: set<nat>)

  /** The arenas. Every latch word lives in `latches`; the rip_latch embedded in
      cache record k is latch `ripBase + k`. */
  datatype Heap = Heap(
    regions: array<Region>, segs: array<Segment>, fcs: array<FileCntl>,
    csas: array<Csa>, csds: array<Csd>, nls: array<NodeLocal>,
    crs: array<CacheRec>, pages: array<Page>, latches: array<Owner>,
    tpCw: array<CwSet>, ntpCw: array<CwSet>, sis: array<SgmInfo>,
    jnls: array<JnlPrivate>, jbs: array<JnlBuffer>, crits: array<Crit>,
    shmpools: array<Shmpool>, jpls: array<JnlPool>,
    ripBase: nat, mapped: Mapped)

  /** The two commit-element arenas are different storage. */
  predicate Wf(h: Heap)
  {
    h.tpCw != h.ntpCw
  }

  /** SECSHR_PROBE_REGION (lines 93-108): the sgmnt_addrs of a region, when the
      region descriptor is mapped, the region is open and not a second name for an
      already-open file, its segment is mapped and BG or MM, and its file control,
      file info and sgmnt_addrs are mapped. None is the macro's `continue`. */
  function ProbeRegion(h: Heap, reg: Ref): (r: Option<nat>)
    reads h.regions, h.segs, h.fcs
    ensures r.Some? ==> Probe(h.csas.Length, h.mapped.csas, At(r.value))
    ensures r.Some? ==>
              (Probe(h.regions.Length, h.mapped.regions, reg) &&
               h.regions[reg.i].open && !h.regions[reg.i].wasOpen &&
               Probe(h.segs.Length, h.mapped.segs, h.regions[reg.i].seg))
  {
    if !Probe(h.regions.Length, h.mapped.regions, reg) then None
    else
      var rg := h.regions[reg.i];
      if !rg.open || rg.wasOpen || !Probe(h.segs.Length, h.mapped.segs, rg.seg) then None
      else
        var sg := h.segs[rg.seg.i];
        if sg.accMeth == OtherAccMeth || !Probe(h.fcs.Length, h.mapped.fcs, sg.fileCntl) then None
        else
          var fc := h.fcs[sg.fileCntl.i];
          if !fc.fileInfoMapped || !Probe(h.csas.Length, h.mapped.csas, fc.csa) then None
          else Some(fc.csa.i)
  }

  /** The file a region resolves to, compared by file-control pointer (line 476). */
  function FileOf(h: Heap, reg: Ref): Ref
    reads h.regions, h.segs
    requires Probe(h.regions.Length, h.mapped.regions, reg)
    requires Probe(h.segs.Length, h.mapped.segs, h.regions[reg.i].seg)
  {
    h.segs[h.regions[reg.i].seg.i].fileCntl
  }

  /** inctn_opcode values the routine tells apart. */
  datatype Inctn = BmpMarkFreeGtm | BmpMarkFreeMuReorg | OtherInctn

  /** A global directory: its descriptor is mapped or not, and its regions are the
      `nRegions` region descriptors from `regionsBase` on. */
  datatype Gld = Gld(mapped: bool, regionsBase: nat, nRegions: nat)

  /** The process globals the routine reads through their registered addresses;
      None stands for an address that is not registered or fails its probe.
      `gdrWalker` says whether get_next_gdr_addrs is registered at all; the list of
      global directories is what it walks, in order. */
  datatype Globals = Globals(
    self: nat, selfImage: nat,
    dollarTlevel: Option<int>, firstTpSiByFtok: Option<Ref>,
    updateTransStarted: Option<bool>, csAddrs: Option<Ref>,
    cwDepth: Option<nat>, inctn: Option<Inctn>, inctnDetailBlknum: Option<int>,
    jnlpoolReg: Option<Ref>, gdrWalker: bool, glds: seq<Gld>)

  /** The two kill-in-progress flags of a non-TP update, which the routine may write;
      None: the address is not registered or not writable. */
  class KipFlags {
    var kipIncremented: Option<bool>
    var needKipIncr: Option<bool>
  }
}
