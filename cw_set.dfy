/** Commit elements (cw-set elements) and the two pointer walks the cleanup routine
    makes over them: to the newest transaction-level version of an element
    (`high_tlevel` links) and to the n-th element of a TP region's list
    (`next_cw_set` links, secshr_tp_get_cw). */
module CwSets {

  import opened Arena

  /** The construction mode of a commit element, in the order of the C enum
      (gdscc.h is not part of this model; the order below is the one the tests
      `gds_t_committed < mode < n_gds_t_op` rely on). */
  datatype Mode =
    | Noop | Acquired | Create | Write | WriteRecycled | WriteMap
    | Committed | WriteRoot | Busy2Free | NGdsTOp | KillCreate | KillWrite

  function Ordinal(m: Mode): nat
  {
    match m
    case Noop => 0
    case Acquired => 1
    case Create => 2
    case Write => 3
    case WriteRecycled => 4
    case WriteMap => 5
    case Committed => 6
    case WriteRoot => 7
    case Busy2Free => 8
    case NGdsTOp => 9
    case KillCreate => 10
    case KillWrite => 11
  }

  /** Modes between gds_t_committed and n_gds_t_op: non-TP modes that never touch a page. */
  predicate NonTpOnly(m: Mode)
  {
    Ordinal(Committed) < Ordinal(m) < Ordinal(NGdsTOp)
  }

  /** Modes below gds_t_committed: the element still has a page to build. */
  predicate Building(m: Mode)
  {
    Ordinal(m) < Ordinal(Committed)
  }

  /** The ordinal tests pick out exactly the modes their comments name. */
  lemma ModeClasses(m: Mode)
    ensures NonTpOnly(m) <==> m == WriteRoot || m == Busy2Free
    ensures Building(m) <==> m in {Noop, Acquired, Create, Write, WriteRecycled, WriteMap}
    ensures !NonTpOnly(m) && !Building(m) && m != Committed ==> m in {NGdsTOp, KillCreate, KillWrite}
  {
  }

  /** On-disk block format versions. */
  datatype BlkVer = V4 | V5

  /** One commit element: the fields the cleanup routine reads or writes.
      `oldBlock` and `newBuff` point into the arena of private page buffers, `cr`
      into the cache-record arena. */
  datatype CwSet = CwSet(
    mode: Mode, oldMode: Mode,
    blk: int, referenceCnt: Int32,
    insOff: Int32, index: Int32, nextOff: Int32, firstOff: Int32,
    done: bool,
    highTlevel: Ref, nextCwSet: Ref,
    cr: Ref, oldBlock: Ref, newBuff: Ref,
    jnlFreeaddr: int, ondskBlkver: BlkVer)

  /** The newest version of the element at `r`, following `high_tlevel` links with
      a probe before each step; None when a probe fails. The C loop has no bound;
      here at most `fuel` links are followed and running out counts as a failed
      probe, which no acyclic chain reaches when fuel is the arena size. */
  function TopOf(cw: seq<CwSet>, mapped: set<nat>, r: Ref, fuel: nat): (t: Option<Ref>)
    requires Probe(|cw|, mapped, r)
    ensures t.Some? ==> Probe(|cw|, mapped, t.value)
    decreases fuel
  {
    var h := cw[r.i].highTlevel;
    if h == Null then Some(r)
    else if fuel == 0 || !Probe(|cw|, mapped, h) then None
    else TopOf(cw, mapped, h, fuel - 1)
  }

  /** There is a chain of `k` high_tlevel links, all probed, from `r` to `t`. */
  ghost predicate HighChain(cw: seq<CwSet>, mapped: set<nat>, r: Ref, t: Ref, k: nat)
    decreases k
  {
    Probe(|cw|, mapped, r) &&
    if k == 0 then t == r
    else HighChain(cw, mapped, cw[r.i].highTlevel, t, k - 1)
  }

  /** What TopOf finds is a probed element with no newer version, reached from `r`
      through probed high_tlevel links. */
  lemma {:induction false} TopOfIsNewest(cw: seq<CwSet>, mapped: set<nat>, r: Ref, fuel: nat)
    requires Probe(|cw|, mapped, r)
    ensures TopOf(cw, mapped, r, fuel).Some? ==>
      var t := TopOf(cw, mapped, r, fuel).value;
      Probe(|cw|, mapped, t) && cw[t.i].highTlevel == Null &&
      exists k: nat :: k <= fuel && HighChain(cw, mapped, r, t, k)
    decreases fuel
  {
    var h := cw[r.i].highTlevel;
    if h == Null {
      assert HighChain(cw, mapped, r, r, 0);
    } else if fuel > 0 && Probe(|cw|, mapped, h) {
      TopOfIsNewest(cw, mapped, h, fuel - 1);
      if TopOf(cw, mapped, h, fuel - 1).Some? {
        var t := TopOf(cw, mapped, h, fuel - 1).value;
        var k: nat :| k <= fuel - 1 && HighChain(cw, mapped, h, t, k);
        assert HighChain(cw, mapped, r, t, k + 1);
      }
    }
  }

  /** The loop `while (cs->high_tlevel) cs = cs->high_tlevel;` with its probes:
      the newest version of `r`, or Null when `r` or a link fails the probe. */
  method FollowHighTlevel(cw: array<CwSet>, mapped: set<nat>, r: Ref) returns (t: Ref)
    ensures Probe(cw.Length, mapped, r) ==> t == TopOf(cw[..], mapped, r, cw.Length).GetOr(Null)
    ensures !Probe(cw.Length, mapped, r) ==> t == r
  {
    t := r;
    if !Probe(cw.Length, mapped, r) {
      return;
    }
    var fuel: nat := cw.Length;
    while cw[t.i].highTlevel != Null
      invariant Probe(cw.Length, mapped, t)
      invariant TopOf(cw[..], mapped, t, fuel) == TopOf(cw[..], mapped, r, cw.Length)
      decreases fuel
    {
      var h := cw[t.i].highTlevel;
      if fuel == 0 || !Probe(cw.Length, mapped, h) {
        return Null;
      }
      t, fuel := h, fuel - 1;
    }
  }

  /** The element reached from `cs` by `k` next_cw_set links, each source probed
      before it is read; None as soon as a probe fails. */
  function NthNext(cw: seq<CwSet>, mapped: set<nat>, cs: Ref, k: nat): Option<Ref>
  {
    if k == 0 then Some(cs)
    else match NthNext(cw, mapped, cs, k - 1)
      case None => None
      case Some(c) => if Probe(|cw|, mapped, c) then Some(cw[c.i].nextCwSet) else None
  }

  /** Once a probe has failed the walk stays failed. */
  lemma {:induction false} NthNextStaysFailed(cw: seq<CwSet>, mapped: set<nat>, cs: Ref, k: nat, k': nat)
    requires k <= k' && NthNext(cw, mapped, cs, k).None?
    ensures NthNext(cw, mapped, cs, k').None?
    decreases k' - k
  {
    if k < k' {
      NthNextStaysFailed(cw, mapped, cs, k, k' - 1);
    }
  }

  /** secshr_tp_get_cw as written (lines 1320-1348): the result after `depth` links
      is probed only when it is non-null, and a failed final probe still answers TRUE. */
  function GetCwAsWritten(cw: seq<CwSet>, mapped: set<nat>, cs: Ref, depth: nat): (bool, Ref)
  {
    match NthNext(cw, mapped, cs, depth)
    case None => (false, Null)
    case Some(c) =>
      if Probe(|cw|, mapped, c) then
        (match TopOf(cw, mapped, c, |cw|)
         case None => (false, Null)
         case Some(t) => (true, t))
      else (true, c)
  }

  method SecshrTpGetCw(cw: array<CwSet>, mapped: set<nat>, cs: Ref, depth: nat) returns (ok: bool, cs1: Ref)
    ensures (ok, cs1) == GetCwAsWritten(cw[..], mapped, cs, depth)
  {
    cs1 := cs;
    var iter := 0;
    while iter < depth
      invariant iter <= depth
      invariant NthNext(cw[..], mapped, cs, iter) == Some(cs1)
    {
      if !Probe(cw.Length, mapped, cs1) {
        NthNextStaysFailed(cw[..], mapped, cs, iter + 1, depth);
        return false, Null;
      }
      cs1 := cw[cs1.i].nextCwSet;
      iter := iter + 1;
    }
    if Probe(cw.Length, mapped, cs1) {
      TopOfIsNewest(cw[..], mapped, cs1, cw.Length);
      cs1 := FollowHighTlevel(cw, mapped, cs1);
      if cs1 == Null {
        return false, Null;
      }
    }
    ok := true;
  }

  /** A list whose `depth`-th link is NULL makes the routine as written answer TRUE
      with a NULL element, which the chain walk then dereferences. */
  lemma GetCwAsWrittenAcceptsNull()
    ensures var e := CwSet(Write, Noop, 7, 0, 0, 0, 0, 0, false, Null, Null, Null, Null, Null, 0, V5);
            GetCwAsWritten([e], {0}, At(0), 1) == (true, Null)
  {
    var e := CwSet(Write, Noop, 7, 0, 0, 0, 0, 0, false, Null, Null, Null, Null, Null, 0, V5);
    assert NthNext([e], {0}, At(0), 1) == Some(Null);
  }

  /** secshr_tp_get_cw as evidently intended: TRUE only with a probed element. */
  function GetCw(cw: seq<CwSet>, mapped: set<nat>, cs: Ref, depth: nat): (bool, Ref)
  {
    match NthNext(cw, mapped, cs, depth)
    case None => (false, Null)
    case Some(c) =>
      if Probe(|cw|, mapped, c) then
        (match TopOf(cw, mapped, c, |cw|)
         case None => (false, Null)
         case Some(t) => (true, t))
      else (false, Null)
  }

  /** The corrected walk, used by the block fixup chain: an answer of TRUE always
      comes with the probed newest version of an element `depth` links down the list. */
  method TpGetCw(cw: array<CwSet>, mapped: set<nat>, cs: Ref, depth: nat) returns (ok: bool, cs1: Ref)
    ensures (ok, cs1) == GetCw(cw[..], mapped, cs, depth)
    ensures ok ==> Probe(cw.Length, mapped, cs1) && cw[cs1.i].highTlevel == Null
    ensures !ok ==> cs1 == Null
  {
    cs1 := cs;
    var iter := 0;
    while iter < depth
      invariant iter <= depth
      invariant NthNext(cw[..], mapped, cs, iter) == Some(cs1)
    {
      if !Probe(cw.Length, mapped, cs1) {
        NthNextStaysFailed(cw[..], mapped, cs, iter + 1, depth);
        return false, Null;
      }
      cs1 := cw[cs1.i].nextCwSet;
      iter := iter + 1;
    }
    if !Probe(cw.Length, mapped, cs1) {
      return false, Null;
    }
    TopOfIsNewest(cw[..], mapped, cs1, cw.Length);
    cs1 := FollowHighTlevel(cw, mapped, cs1);
    ok := cs1 != Null;
  }
}
