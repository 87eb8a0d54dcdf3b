/** The journal-pool fixup (lines 1256-1316): a process that held the journal pool's
    crit in the middle of an update that must go forward finishes steps (9) and (10)
    of the commit, recording the last transaction's journal data in the pool's ring
    buffer and moving the write pointers and the sequence number on, then gives up
    the pool's crit. */
module JournalPool {

  import opened Arena
  import opened SharedMemory

  const Two32: nat := 0x1_0000_0000

  lemma MulAtLeastOne(k: int, m: nat)
    requires k >= 1
    ensures k * m >= m
  {
    assert k * m == (k - 1) * m + m;
    assert (k - 1) * m >= 0;
  }

  /** Euclidean division has one quotient and one remainder. */
  lemma ModUnique(a: int, m: nat, q: int, r: int)
    requires 0 <= r < m && a == q * m + r
    ensures a % m == r
  {
    var q', r' := a / m, a % m;
    assert (q - q') * m == r' - r;
    assert (q' - q) * m == r - r';
    if q - q' >= 1 {
      MulAtLeastOne(q - q', m);
    } else if q' - q >= 1 {
      MulAtLeastOne(q' - q, m);
    }
  }

  /** One turn of the subtraction loop keeps the residue. */
  lemma SubtractKeepsResidue(x: nat, m: nat)
    requires 0 < m <= x
    ensures (x - m) % m == x % m
  {
    var q := x / m;
    assert x - m == (q - 1) * m + x % m;
    ModUnique(x - m, m, q - 1, x % m);
  }

  /** The loop at lines 1285-1289: `jpl->write + cumul_jnl_rec_len` in 32-bit unsigned
      arithmetic, then `jsize` subtracted until the offset is back inside the buffer,
      which is `% jsize` without the division. */
  method AdvanceWrite(write: Uint32, len: Uint32, jsize: Uint32) returns (r: Uint32)
    requires jsize != 0
    ensures r == ((write + len) % Two32) % jsize
    ensures r < jsize
  {
    var newWrite: Uint32 := (write + len) % Two32;
    ghost var target := newWrite % jsize;
    while newWrite >= jsize
      invariant newWrite % jsize == target
      decreases newWrite
    {
      SubtractKeepsResidue(newWrite, jsize);
      newWrite := newWrite - jsize;
    }
    ModUnique(newWrite, jsize, 0, newWrite);
    r := newWrite;
  }

  /** The ring position after advancing by `len` is where a byte `len` past the old
      position lands, as long as the 32-bit sum does not wrap (the pool is far smaller
      than 4 GiB). */
  lemma AdvanceIsRingStep(write: Uint32, len: Uint32, jsize: Uint32)
    requires jsize != 0 && write + len < Two32
    ensures ((write + len) % Two32) % jsize == (write + len) % jsize
  {
  }

  /** `cumul_jnl_rec_len`: the distance between the two write addresses, cut to 32 bits. */
  function PendingLen(jp: JnlPool): Uint32
  {
    (jp.earlyWriteAddr - jp.writeAddr) % Two32
  }

  /** The pool after the fixup (lines 1270-1296): the data header at the old write
      offset records the pending length and the previous one, the write offset moves
      round the ring by that length, write_addr moves by it and jnl_seqno by one. */
  function Advanced(jp: JnlPool): (r: JnlPool)
    requires jp.earlyWriteAddr > jp.writeAddr && jp.jnlpoolSize != 0
  {
    var len := PendingLen(jp);
    jp.(hdrs := jp.hdrs[jp.write := JnlDataHdr(len, jp.lastwriteLen)],
        lastwriteLen := len,
        write := ((jp.write + len) % Two32) % jp.jnlpoolSize,
        writeAddr := jp.writeAddr + len,
        jnlSeqno := jp.jnlSeqno + 1)
  }

  /** After the fixup the pool has caught up with what was reserved (unless the
      pending data ran past 4 GiB), holds one more transaction, keeps its write offset
      inside the buffer, and can be walked back: the new header's previous length is
      the old last-write length. */
  lemma AdvancedCatchesUp(jp: JnlPool)
    requires jp.earlyWriteAddr > jp.writeAddr && jp.jnlpoolSize != 0
    ensures var r := Advanced(jp);
            r.jnlSeqno == jp.jnlSeqno + 1 &&
            r.write < jp.jnlpoolSize &&
            (jp.earlyWriteAddr - jp.writeAddr < Two32 ==> r.writeAddr == jp.earlyWriteAddr) &&
            r.writeAddr <= jp.earlyWriteAddr &&
            jp.write in r.hdrs && r.hdrs[jp.write].prevJnldataLen == jp.lastwriteLen &&
            r.hdrs[jp.write].jnldataLen == r.lastwriteLen &&
            r.earlyWriteAddr == jp.earlyWriteAddr
  {
  }

  /** Lines 1270-1296 on the pool `jp`: when the reserved address is ahead of the
      written one and the update is underway, and the data header at the write offset
      can be written and the pool size is not zero, the pool is advanced; otherwise it
      is left as it is. */
  function PoolFixed(jp: JnlPool, hdrsMapped: bool, underway: bool): JnlPool
  {
    if jp.earlyWriteAddr > jp.writeAddr && underway && hdrsMapped && jp.write in jp.hdrs && jp.jnlpoolSize != 0
    then Advanced(jp) else jp
  }

  /** Lines 1270-1296 on the pool in slot `j`, and no other slot. */
  method AdvancePool(jpls: array<JnlPool>, hdrsMapped: bool, j: nat, underway: bool)
    requires j < jpls.Length
    modifies jpls
    ensures jpls[..] == old(jpls[..])[j := PoolFixed(old(jpls[j]), hdrsMapped, underway)]
  {
    var jp := jpls[j];
    if jp.earlyWriteAddr > jp.writeAddr && underway {
      var len := PendingLen(jp);
      var jsize := jp.jnlpoolSize;
      if hdrsMapped && jp.write in jp.hdrs && jsize != 0 {
        jp := jp.(hdrs := jp.hdrs[jp.write := JnlDataHdr(len, jp.lastwriteLen)], lastwriteLen := len);
        var newWrite := AdvanceWrite(jp.write, len, jsize);
        jpls[j] := jp.(write := newWrite, writeAddr := jp.writeAddr + len, jnlSeqno := jp.jnlSeqno + 1);
      }
    }
  }

  /** The sgmnt_addrs of the journal pool's region when its registered address
      `regAddr` probes and the process holds its crit; None otherwise. */
  function PoolRegion(h: Heap, regAddr: Option<Ref>): (r: Option<Csa>)
    reads h.regions, h.segs, h.fcs, h.csas
    ensures r.Some? ==> regAddr.Some? && ProbeRegion(h, regAddr.value).Some? && r.value.nowCrit
  {
    if regAddr.None? then None
    else
      var c := ProbeRegion(h, regAddr.value);
      if c.Some? && h.csas[c.value].nowCrit then Some(h.csas[c.value]) else None
  }

  /** The journal pools after the fixup of lines 1256-1316: only the slot of the held
      region's pool changes, and only when its control structure probes. */
  ghost function PoolsFixed(h: Heap, regAddr: Option<Ref>, jpls: seq<JnlPool>, hdrsMapped: bool, underway: bool)
    : seq<JnlPool>
    reads h.regions, h.segs, h.fcs, h.csas
  {
    var a := PoolRegion(h, regAddr);
    if a.Some? && Probe(|jpls|, h.mapped.jpls, a.value.jpl)
    then jpls[a.value.jpl.i := PoolFixed(jpls[a.value.jpl.i], hdrsMapped, underway)]
    else jpls
  }

  /** Lines 1256-1316: for the journal pool's region, when the process holds the
      pool's crit, the pool is advanced as above when its control structure can be
      written, and, when node_local and crit can be written, in_crit is cleared if it
      names this process before crit is released (mutex_unlockw, not part of this
      model). `regAddr` is the registered jnlpool_reg address (None: not registered or
      not readable); the data headers of the buffer are probed as a whole. No other
      pool and no other node_local changes. */
  method FixJnlPool(h: Heap, regAddr: Option<Ref>, hdrsMapped: bool, underway: bool, self: nat)
    modifies h.jpls, h.nls
    ensures h.jpls[..] == PoolsFixed(h, regAddr, old(h.jpls[..]), hdrsMapped, underway)
    ensures var a := PoolRegion(h, regAddr);
            h.nls[..] == if a.Some? && Probe(h.nls.Length, h.mapped.nls, a.value.nl) &&
                            Probe(h.crits.Length, h.mapped.crits, a.value.critical) &&
                            old(h.nls[a.value.nl.i]).inCrit == self
                         then old(h.nls[..])[a.value.nl.i := old(h.nls[a.value.nl.i]).(inCrit := 0)]
                         else old(h.nls[..])
  {
    var a := PoolRegion(h, regAddr);
    if a.None? {
      return;
    }
    if Probe(h.jpls.Length, h.mapped.jpls, a.value.jpl) {
      AdvancePool(h.jpls, hdrsMapped, a.value.jpl.i, underway);
    }
    if Probe(h.nls.Length, h.mapped.nls, a.value.nl) && Probe(h.crits.Length, h.mapped.crits, a.value.critical) {
      ClearInCrit(h.nls, a.value.nl.i, self);
    }
  }

  /** Lines 1301-1302 on the node_local in slot `n`: in_crit is cleared when it names
      this process; no other slot changes. */
  method ClearInCrit(nls: array<NodeLocal>, n: nat, self: nat)
    requires n < nls.Length
    modifies nls
    ensures nls[..] == if old(nls[n]).inCrit == self then old(nls[..])[n := old(nls[n]).(inCrit := 0)]
                       else old(nls[..])
  {
    if nls[n].inCrit == self {
      nls[n] := nls[n].(inCrit := 0);
    }
  }
}
