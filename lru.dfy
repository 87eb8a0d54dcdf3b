/** Cache records of a BG region and the search for a free one (lines 701-722).
    The records of one region occupy the slots [start, top) of the cache-record
    arena, `top - start` being the region's n_bts; `clru` is the slot the search
    last looked at and `lcnt` how many slots the region's searches have looked at
    so far (it is set to 0 once per region, not once per search). */
module Lru {

  import opened Arena
  import opened CwSets

  /** `cr->twin` as the cleanup routine leaves it: normally a link to another cache
      record, here possibly the offset of a commit element's before-image. */
  datatype Twin = NoTwin | TwinRecord(slot: nat) | BeforeImage(page: nat)

  datatype CacheRec = CacheRec(
    blk: int, cycle: nat, dirty: nat, inCwSet: bool, readInProgress: int,
    stopped: bool, rEpid: nat, inTend: bool,
    jnlAddr: int, twin: Twin, ondskBlkver: BlkVer, buffer: Ref)

  /** CR_BLKEMPTY: the block number of a record that holds no block. */
  const CrBlkEmpty: int := -1

  /** A record the search may claim: not stopped, clean, not part of a commit, no
      read in progress, and its buffer is writable. */
  predicate Eligible(cr: CacheRec, pagesLen: nat, pagesMapped: set<nat>)
  {
    !cr.stopped && cr.dirty == 0 && !cr.inCwSet && cr.readInProgress == -1 &&
    Probe(pagesLen, pagesMapped, cr.buffer)
  }

  // ---------------------------------------------------------------------------
  // The search as written

  /** `if (clru++ >= cr_top) clru = start_cr;`: the old value is compared, so the
      slot after top - 1 is top itself. */
  function StepAsWritten(clru: nat, start: nat, top: nat): nat
  {
    if clru >= top then start else clru + 1
  }

  /** The search as written, on the eligibility of each slot it examines:
      `for (; lcnt++ < max_bts;) { step; if eligible break; }` followed by
      `if (lcnt >= max_bts) skip`. The result is whether the element gets a
      record, the final clru and lcnt, and the slots examined in order. */
  function ScanAsWritten(clru: nat, lcnt: nat, start: nat, top: nat, maxBts: nat, eligible: nat -> bool)
    : (r: (bool, nat, nat, seq<nat>))
    decreases maxBts - lcnt
  {
    if !(lcnt < maxBts) then (false, clru, lcnt + 1, [])
    else
      var next := StepAsWritten(clru, start, top);
      if eligible(next) then (!(lcnt + 1 >= maxBts), next, lcnt + 1, [next])
      else
        var (ok, c, l, seen) := ScanAsWritten(next, lcnt + 1, start, top, maxBts, eligible);
        (ok, c, l, [next] + seen)
  }

  /** In a two-record cache whose search last looked at the final record, the search
      as written examines and claims slot 2, which is past the end of the cache. */
  lemma ScanAsWrittenLeavesCache()
    ensures var r := ScanAsWritten(1, 0, 0, 2, 2, (s: nat) => s == 2);
            r.0 && r.1 == 2 && r.3 == [2]
  {
  }

  /** In a one-record cache whose only record is free, the search as written finds
      it on its last permitted step and then discards it: the element is skipped. */
  lemma ScanAsWrittenDiscardsLastFind()
    ensures var r := ScanAsWritten(0, 0, 0, 1, 1, (s: nat) => s == 0);
            !r.0 && r.3 == [1]
    ensures var r := ScanAsWritten(5, 0, 0, 1, 1, (s: nat) => s == 0);
            !r.0 && r.3 == [0]
  {
  }

  // ---------------------------------------------------------------------------
  // The search as evidently intended: `if (++clru >= cr_top) clru = start_cr;`
  // and skip only when the budget ran out without a find.

  function Step(clru: nat, start: nat, top: nat): nat
  {
    if clru + 1 >= top then start else clru + 1
  }

  /** The slot examined on the k-th step from `clru`. */
  function Iter(clru: nat, k: nat, start: nat, top: nat): nat
  {
    if k == 0 then clru else Step(Iter(clru, k - 1, start, top), start, top)
  }

  /** Every step of the corrected search from a slot at or after `start` lands
      inside the region's records. */
  lemma {:induction false} IterInCache(clru: nat, k: nat, start: nat, top: nat)
    requires start < top && start <= clru && 0 < k
    ensures start <= Iter(clru, k, start, top) < top
  {
    if k > 1 {
      IterInCache(clru, k - 1, start, top);
    }
  }

  /** Below the top the search just moves to the next record. */
  lemma {:induction false} IterAdvances(clru: nat, k: nat, start: nat, top: nat)
    requires clru + k < top
    ensures Iter(clru, k, start, top) == clru + k
  {
    if k > 0 {
      IterAdvances(clru, k - 1, start, top);
    }
  }

  lemma {:induction false} IterAdd(clru: nat, a: nat, b: nat, start: nat, top: nat)
    ensures Iter(clru, a + b, start, top) == Iter(Iter(clru, a, start, top), b, start, top)
  {
    if b > 0 {
      IterAdd(clru, a, b - 1, start, top);
    }
  }

  /** A fresh budget of n_bts steps from inside the cache examines every record of
      the region: no free record is missed. */
  lemma EveryRecordExamined(clru: nat, start: nat, top: nat, s: nat)
    requires start <= clru < top && start <= s < top
    ensures exists k :: 1 <= k <= top - start && Iter(clru, k, start, top) == s
  {
    if clru < s {
      IterAdvances(clru, s - clru, start, top);
      assert Iter(clru, s - clru, start, top) == s;
    } else {
      var a := top - 1 - clru;
      IterAdvances(clru, a, start, top);
      assert Iter(clru, a + 1, start, top) == start;
      IterAdvances(start, s - start, start, top);
      IterAdd(clru, a + 1, s - start, start, top);
      assert Iter(clru, a + 1 + (s - start), start, top) == s;
    }
  }

  /** The corrected search. It keeps the source's shared budget (`lcnt` counts steps
      across all the region's searches and stops at `maxBts`), steps round the ring
      of records [start, top) and claims the first eligible one. */
  method FindFreeSlot(crs: array<CacheRec>, pagesLen: nat, pagesMapped: set<nat>,
                      start: nat, top: nat, maxBts: nat, clru0: nat, lcnt0: nat)
      returns (found: bool, clru: nat, lcnt: nat)
    requires start <= top <= crs.Length && top - start == maxBts
    requires start <= clru0
    ensures lcnt0 <= lcnt && (lcnt0 <= maxBts ==> lcnt <= maxBts)
    ensures clru == Iter(clru0, lcnt - lcnt0, start, top)
    ensures found ==> lcnt > lcnt0 && start <= clru < top && Eligible(crs[clru], pagesLen, pagesMapped)
    ensures !found ==> lcnt >= maxBts
    ensures forall k :: 1 <= k <= lcnt - lcnt0 && (found ==> k < lcnt - lcnt0) ==>
              start <= Iter(clru0, k, start, top) < top &&
              !Eligible(crs[Iter(clru0, k, start, top)], pagesLen, pagesMapped)
  {
    found, clru, lcnt := false, clru0, lcnt0;
    while lcnt < maxBts
      invariant lcnt0 <= lcnt && (lcnt0 <= maxBts ==> lcnt <= maxBts)
      invariant clru == Iter(clru0, lcnt - lcnt0, start, top)
      invariant start <= clru
      invariant forall k :: 1 <= k <= lcnt - lcnt0 ==>
                  start <= Iter(clru0, k, start, top) < top &&
                  !Eligible(crs[Iter(clru0, k, start, top)], pagesLen, pagesMapped)
      decreases maxBts - lcnt
    {
      lcnt := lcnt + 1;
      clru := Step(clru, start, top);
      if Eligible(crs[clru], pagesLen, pagesMapped) {
        found := true;
        return;
      }
    }
  }
}
