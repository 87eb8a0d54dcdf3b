/** Database block images and the block-number fixups the roll-forward makes in
    them: the `ins_off` bounds checks (lines 865-911), the TP chain record it plants
    (lines 912-966) and the walk along a block's chain of such records (lines
    966-1000). */
module Blocks {

  import opened Arena
  import opened CwSets

  /** sizeof(blk_hdr), sizeof(rec_hdr), sizeof(block_id); gdsblk.h is not part of
      this model and these are the sizes of this generation of the database format. */
  const BlkHdrSize: nat := 16
  const RecHdrSize: nat := 3
  const BlockIdSize: nat := 4

  /** A block image: the header fields the routine reads or writes and the 4-byte
      words of the block by byte offset. Bytes nobody wrote read as 0. */
  datatype Page = Page(bsiz: Uint32, tn: int, words: map<int, int>)

  /** GET_LONG: the word at a byte offset. */
  function ReadLong(p: Page, off: int): int
  {
    if off in p.words then p.words[off] else 0
  }

  /** PUT_LONG: one word written, nothing else changes. */
  function PutLong(p: Page, off: int, v: int): (q: Page)
    ensures q.bsiz == p.bsiz && q.tn == p.tn
    ensures ReadLong(q, off) == v
    ensures forall k :: k != off ==> ReadLong(q, k) == ReadLong(p, k)
  {
    p.(words := p.words[off := v])
  }

  /** memmove(dst, src, n) of block images: the words below n come from `src`, the
      rest stay; the header comes from `src` when n covers it. */
  function CopyPrefix(dst: Page, src: Page, n: int): (q: Page)
    ensures n >= BlkHdrSize as int ==> q.bsiz == src.bsiz && q.tn == src.tn
    ensures n < BlkHdrSize as int ==> q.bsiz == dst.bsiz && q.tn == dst.tn
    ensures forall k :: ReadLong(q, k) == if 0 <= k < n then ReadLong(src, k) else ReadLong(dst, k)
  {
    var words := map k | k in dst.words.Keys + src.words.Keys ::
                   if 0 <= k < n then ReadLong(src, k) else ReadLong(dst, k);
    if n >= BlkHdrSize as int then Page(src.bsiz, src.tn, words) else Page(dst.bsiz, dst.tn, words)
  }

  // ---------------------------------------------------------------------------
  // The off_chain word: flag (1 bit), cw_index (15 bits), next_off (16 bits),
  // from the least significant bit up (gdscc.h is not part of this model).

  datatype OffChain = OffChain(flag: nat, cwIndex: nat, nextOff: nat)

  predicate Fits(c: OffChain)
  {
    c.flag < 2 && c.cwIndex < 0x8000 && c.nextOff < 0x1_0000
  }

  /** Reading a word as an off_chain. */
  function DecodeChain(w: int): (c: OffChain)
    ensures Fits(c)
  {
    var u := w % 0x1_0000_0000;
    OffChain(u % 2, (u / 2) % 0x8000, (u / 0x1_0000) % 0x1_0000)
  }

  /** Storing an off_chain as a word. */
  function EncodeChain(c: OffChain): (w: nat)
    requires Fits(c)
    ensures w < 0x1_0000_0000
  {
    c.flag + 2 * c.cwIndex + 0x1_0000 * c.nextOff
  }

  lemma DecodeEncode(c: OffChain)
    requires Fits(c)
    ensures DecodeChain(EncodeChain(c)) == c
  {
    var u := EncodeChain(c);
    assert u == 2 * (c.cwIndex + 0x8000 * c.nextOff) + c.flag;
    assert u / 2 == c.cwIndex + 0x8000 * c.nextOff;
    assert u == 0x1_0000 * c.nextOff + (c.flag + 2 * c.cwIndex);
  }

  lemma EncodeDecode(w: int)
    requires 0 <= w < 0x1_0000_0000
    ensures EncodeChain(DecodeChain(w)) == w
  {
    var f, h := w % 2, w / 2;
    var i, n := h % 0x8000, h / 0x8000;
    assert w == 2 * h + f;
    assert h == 0x8000 * n + i;
    assert w == 0x1_0000 * n + (f + 2 * i);
    assert w / 0x1_0000 == n;
    assert w % 0x1_0000_0000 == w;
  }

  /** The bit-field assignments `chain.cw_index = cs->index` and
      `chain.next_off = cs->next_off` keep the low 15 and 16 bits. */
  function ChainRecord(index: int, nextOff: int): (c: OffChain)
    ensures Fits(c) && c.flag == 1
    ensures 0 <= index < 0x8000 ==> c.cwIndex == index
    ensures 0 <= nextOff < 0x1_0000 ==> c.nextOff == nextOff
  {
    OffChain(1, index % 0x8000, nextOff % 0x1_0000)
  }

  // ---------------------------------------------------------------------------
  // The ins_off checks

  /** A signed value compared with a `size_t`: converted modulo 2^64. */
  function AsSize(x: int): nat
  {
    x % 0x1_0000_0000_0000_0000
  }

  lemma AsSizeOfSmall(x: int)
    requires -0x8000_0000_0000_0000 <= x < 0x8000_0000_0000_0000
    ensures AsSize(x) == if x >= 0 then x else x + 0x1_0000_0000_0000_0000
  {
  }

  /** `(short)x`: the low 16 bits as a signed value. */
  function ToShort(x: int): (s: int)
    ensures -0x8000 <= s < 0x8000
    ensures -0x8000 <= x < 0x8000 ==> s == x
  {
    var m := x % 0x1_0000;
    if m >= 0x8000 then m - 0x1_0000 else m
  }

  /** The common half of both checks: `ins_off` neither beyond bsiz - sizeof(block_id)
      nor before the first record's data, both compared as `size_t`. */
  predicate InsOffInBlock(insOff: int, bsiz: Uint32)
  {
    !(AsSize(insOff) > AsSize(bsiz - BlockIdSize as int) || AsSize(insOff) < BlkHdrSize + RecHdrSize)
  }

  /** For a 32-bit `ins_off` in a block at least one block id long, passing the check
      means the pointer to be written lies wholly inside the block, past the header
      and the first record header. */
  lemma InsOffInBlockMeansInside(insOff: int, bsiz: Uint32)
    requires -0x8000_0000 <= insOff < 0x8000_0000
    requires BlockIdSize <= bsiz
    ensures InsOffInBlock(insOff, bsiz) <==>
              BlkHdrSize + RecHdrSize <= insOff && insOff + BlockIdSize as int <= bsiz
  {
  }

  /** The non-TP check as written (lines 867-872): `0 > (short)cs->index` only looks at
      the low 16 bits of the index. */
  predicate NonTpInsOffOkAsWritten(insOff: int, bsiz: Uint32, index: int, pos: nat)
  {
    InsOffInBlock(insOff, bsiz) && !(0 > ToShort(index)) && !(pos <= index)
  }

  /** An index of -65536 has zero low bits, so the check as written lets it through
      and the fixup then reads the commit element 65536 places before the array. */
  lemma NonTpInsOffAsWrittenAdmitsNegativeIndex()
    ensures NonTpInsOffOkAsWritten(19, 64, -0x1_0000, 1)
  {
  }

  /** The non-TP check as evidently intended: the index names an earlier element. */
  predicate NonTpInsOffOk(insOff: int, bsiz: Uint32, index: int, pos: nat)
  {
    InsOffInBlock(insOff, bsiz) && 0 <= index && !(pos <= index)
  }

  /** What the corrected check guarantees about the fixup it allows. */
  lemma NonTpInsOffOkMeansSafe(insOff: int, bsiz: Uint32, index: int, pos: nat)
    requires -0x8000_0000 <= insOff < 0x8000_0000 && BlockIdSize <= bsiz
    ensures NonTpInsOffOk(insOff, bsiz, index, pos) <==>
              BlkHdrSize + RecHdrSize <= insOff && insOff + BlockIdSize as int <= bsiz && 0 <= index < pos
  {
  }

  /** The corrected check accepts nothing the one as written rejects. */
  lemma NonTpInsOffOkRefinesAsWritten(insOff: int, bsiz: Uint32, index: int, pos: nat)
    requires NonTpInsOffOk(insOff, bsiz, index, pos)
    ensures NonTpInsOffOkAsWritten(insOff, bsiz, index, pos) <==> 0 <= ToShort(index)
  {
  }

  // ---------------------------------------------------------------------------
  // TP chain records

  /** Lines 951-959: the chain record a TP element plants at its `ins_off`. */
  function PlantChainRecord(p: Page, insOff: int, index: int, nextOff: int): (q: Page)
    ensures q.bsiz == p.bsiz && q.tn == p.tn
    ensures forall k :: k != insOff ==> ReadLong(q, k) == ReadLong(p, k)
  {
    PutLong(p, insOff, EncodeChain(ChainRecord(index, nextOff)))
  }

  /** The planted record reads back as a flagged record for the element's index and
      next offset. */
  lemma PlantedRecordReadsBack(p: Page, insOff: int, index: int, nextOff: int)
    requires 0 <= index < 0x8000 && 0 <= nextOff < 0x1_0000
    ensures DecodeChain(ReadLong(PlantChainRecord(p, insOff, index, nextOff), insOff)) == OffChain(1, index, nextOff)
  {
    DecodeEncode(ChainRecord(index, nextOff));
  }

  /** The record at `k` passes the walk's checks (lines 967-976): flagged, inside
      the block, its index below the depth, and the element that index names found. */
  ghost predicate GoodRecord(p: Page, k: int, cw: seq<CwSet>, mapped: set<nat>, firstCw: Ref, depth: nat)
  {
    var c := DecodeChain(ReadLong(p, k));
    c.flag == 1 && AsSize(k + BlockIdSize as int) <= p.bsiz && c.cwIndex < depth &&
    GetCw(cw, mapped, firstCw, c.cwIndex).0
  }

  /** The offsets of the records the walk from `ptr` rewrites, in the order it meets
      them: a good record is rewritten, and the walk goes on by its next_off unless
      that is 0; it stops at the first record that is not good. */
  ghost function ChainFrom(p: Page, cw: seq<CwSet>, mapped: set<nat>, firstCw: Ref, depth: nat, ptr: int)
    : seq<int>
    requires -0x8000_0000 <= ptr <= p.bsiz as int + 0x8000_0000
    decreases if ptr <= p.bsiz as int then p.bsiz as int - ptr + 1 else 0
  {
    AsSizeOfSmall(ptr + BlockIdSize as int);
    var c := DecodeChain(ReadLong(p, ptr));
    if !GoodRecord(p, ptr, cw, mapped, firstCw, depth) then []
    else if c.nextOff == 0 then [ptr]
    else [ptr] + ChainFrom(p, cw, mapped, firstCw, depth, ptr + c.nextOff)
  }

  /** The walk rewrites no record exactly when the first one is not good. */
  lemma ChainFromEmpty(p: Page, cw: seq<CwSet>, mapped: set<nat>, firstCw: Ref, depth: nat, ptr: int)
    requires -0x8000_0000 <= ptr <= p.bsiz as int + 0x8000_0000
    ensures ChainFrom(p, cw, mapped, firstCw, depth, ptr) == [] <==> !GoodRecord(p, ptr, cw, mapped, firstCw, depth)
  {
  }

  /** `ks` lists good records inside the block, at offsets from `lo` on, strictly
      increasing, so none twice. */
  ghost predicate ChainShaped(p: Page, cw: seq<CwSet>, mapped: set<nat>, firstCw: Ref, depth: nat, lo: int, ks: seq<int>)
  {
    forall i :: 0 <= i < |ks| ==>
      lo <= ks[i] && ks[i] + BlockIdSize as int <= p.bsiz && GoodRecord(p, ks[i], cw, mapped, firstCw, depth) &&
      forall j :: i < j < |ks| ==> ks[i] < ks[j]
  }

  /** The walk rewrites only good records inside the block, at increasing offsets
      from where it starts, so never one twice. */
  lemma {:induction false} ChainFromShape(p: Page, cw: seq<CwSet>, mapped: set<nat>, firstCw: Ref, depth: nat, ptr: int)
    requires -0x8000_0000 <= ptr <= p.bsiz as int + 0x8000_0000
    ensures ChainShaped(p, cw, mapped, firstCw, depth, ptr, ChainFrom(p, cw, mapped, firstCw, depth, ptr))
    decreases if ptr <= p.bsiz as int then p.bsiz as int - ptr + 1 else 0
  {
    var ks := ChainFrom(p, cw, mapped, firstCw, depth, ptr);
    if !GoodRecord(p, ptr, cw, mapped, firstCw, depth) {
      assert ks == [];
    } else {
      var n := DecodeChain(ReadLong(p, ptr)).nextOff;
      ChainFromStep(p, cw, mapped, firstCw, depth, ptr, n);
      if n == 0 {
        ChainShapedOne(p, cw, mapped, firstCw, depth, ptr);
      } else {
        var rest := ChainFrom(p, cw, mapped, firstCw, depth, ptr + n);
        ChainFromShape(p, cw, mapped, firstCw, depth, ptr + n);
        ChainFromHeadBelow(p, cw, mapped, firstCw, depth, ptr, ptr + n, rest);
      }
    }
  }

  /** A good record inside the block on its own. */
  lemma ChainShapedOne(p: Page, cw: seq<CwSet>, mapped: set<nat>, firstCw: Ref, depth: nat, ptr: int)
    requires GoodRecord(p, ptr, cw, mapped, firstCw, depth) && ptr + BlockIdSize as int <= p.bsiz
    ensures ChainShaped(p, cw, mapped, firstCw, depth, ptr, [ptr])
  {
  }

  /** A good record inside the block, then a shaped list from further on. */
  lemma ChainFromHeadBelow(p: Page, cw: seq<CwSet>, mapped: set<nat>, firstCw: Ref, depth: nat, ptr: int, lo: int,
                           rest: seq<int>)
    requires GoodRecord(p, ptr, cw, mapped, firstCw, depth) && ptr + BlockIdSize as int <= p.bsiz && ptr < lo
    requires ChainShaped(p, cw, mapped, firstCw, depth, lo, rest)
    ensures ChainShaped(p, cw, mapped, firstCw, depth, ptr, [ptr] + rest)
  {
    var ks := [ptr] + rest;
    assert forall i :: 1 <= i < |ks| ==> ks[i] == rest[i - 1];
  }

  /** One step of the walk: a good record at `ptr`, whose next_off is `n`, comes
      first, followed by the walk from `ptr + n` unless `n` is 0. */
  lemma ChainFromStep(p: Page, cw: seq<CwSet>, mapped: set<nat>, firstCw: Ref, depth: nat, ptr: int, n: int)
    requires -0x8000_0000 <= ptr <= p.bsiz as int + 0x8000_0000
    requires GoodRecord(p, ptr, cw, mapped, firstCw, depth) && n == DecodeChain(ReadLong(p, ptr)).nextOff
    ensures ptr + BlockIdSize as int <= p.bsiz
    ensures n == 0 ==> ChainFrom(p, cw, mapped, firstCw, depth, ptr) == [ptr]
    ensures n != 0 ==> ptr < ptr + n <= p.bsiz as int + 0x8000_0000 &&
                       ChainFrom(p, cw, mapped, firstCw, depth, ptr) == [ptr] + ChainFrom(p, cw, mapped, firstCw, depth, ptr + n)
  {
    AsSizeOfSmall(ptr + BlockIdSize as int);
  }

  /** The walk `chain` has so far rewritten the records `done` and goes on from
      `ptr`. */
  ghost predicate WalkedSoFar(p: Page, cw: seq<CwSet>, mapped: set<nat>, firstCw: Ref, depth: nat, chain: seq<int>,
                              done: seq<int>, ptr: int)
  {
    -0x8000_0000 <= ptr <= p.bsiz as int + 0x8000_0000 &&
    chain == done + ChainFrom(p, cw, mapped, firstCw, depth, ptr)
  }

  /** A walk that meets a record that is not good is over. */
  lemma WalkStops(p: Page, cw: seq<CwSet>, mapped: set<nat>, firstCw: Ref, depth: nat, chain: seq<int>,
                  done: seq<int>, ptr: int)
    requires WalkedSoFar(p, cw, mapped, firstCw, depth, chain, done, ptr)
    requires !GoodRecord(p, ptr, cw, mapped, firstCw, depth)
    ensures chain == done
  {
    assert ChainFrom(p, cw, mapped, firstCw, depth, ptr) == [];
  }

  /** A walk that rewrites a good record whose next_off is 0 ends with it. */
  lemma WalkEndsAt(p: Page, cw: seq<CwSet>, mapped: set<nat>, firstCw: Ref, depth: nat, chain: seq<int>,
                   done: seq<int>, ptr: int)
    requires WalkedSoFar(p, cw, mapped, firstCw, depth, chain, done, ptr)
    requires GoodRecord(p, ptr, cw, mapped, firstCw, depth) && DecodeChain(ReadLong(p, ptr)).nextOff == 0
    ensures chain == done + [ptr]
  {
    ChainFromStep(p, cw, mapped, firstCw, depth, ptr, 0);
  }

  /** A walk that rewrites a good record whose next_off `n` is not 0 goes on from
      `ptr + n`, further into the block. */
  lemma WalkMovesOn(p: Page, cw: seq<CwSet>, mapped: set<nat>, firstCw: Ref, depth: nat, chain: seq<int>,
                    done: seq<int>, ptr: int, n: int)
    requires WalkedSoFar(p, cw, mapped, firstCw, depth, chain, done, ptr)
    requires GoodRecord(p, ptr, cw, mapped, firstCw, depth) && n == DecodeChain(ReadLong(p, ptr)).nextOff && n != 0
    ensures ptr < ptr + n && WalkedSoFar(p, cw, mapped, firstCw, depth, chain, done + [ptr], ptr + n)
  {
    ChainFromStep(p, cw, mapped, firstCw, depth, ptr, n);
    var rest := ChainFrom(p, cw, mapped, firstCw, depth, ptr + n);
    assert done + ([ptr] + rest) == (done + [ptr]) + rest;
  }

  /** A chain of one record: a record planted inside the block with next_off 0,
      whose element is found, is the only one the walk from it rewrites. */
  lemma PlantedChainOfOne(p: Page, cw: seq<CwSet>, mapped: set<nat>, firstCw: Ref, insOff: int, index: int)
    requires 0 <= index < 0x8000 && BlkHdrSize as int <= insOff && insOff + BlockIdSize as int <= p.bsiz as int
    requires GetCw(cw, mapped, firstCw, index).0
    ensures ChainFrom(PlantChainRecord(p, insOff, index, 0), cw, mapped, firstCw, index + 1, insOff) == [insOff]
  {
    PlantedRecordReadsBack(p, insOff, index, 0);
    AsSizeOfSmall(insOff + BlockIdSize as int);
  }

  /** The record at `k` is one the walk rewrites, and `v` is the block number it puts
      there: the block number of the element the record names. */
  ghost predicate Rewrites(p: Page, k: int, cw: seq<CwSet>, mapped: set<nat>, firstCw: Ref, depth: nat, v: int)
  {
    var c := DecodeChain(ReadLong(p, k));
    var (ok, t) := GetCw(cw, mapped, firstCw, c.cwIndex);
    GoodRecord(p, k, cw, mapped, firstCw, depth) && t.At? && t.i < |cw| && v == cw[t.i].blk
  }

  /** One record of the walk (lines 967-996): a good record at `ptr` is replaced
      by the block number of the element it names, and the walk goes on by its
      next_off unless that is 0; any other record ends the walk untouched. */
  method RewriteRecord(p: Page, q: Page, cw: array<CwSet>, mapped: set<nat>, firstCw: Ref, depth: nat,
                       ghost chain: seq<int>, ghost done: seq<int>, ptr: int)
      returns (q': Page, more: bool, next: int)
    requires WalkedSoFar(p, cw[..], mapped, firstCw, depth, chain, done, ptr)
    requires q.bsiz == p.bsiz && ReadLong(q, ptr) == ReadLong(p, ptr)
    ensures q'.bsiz == q.bsiz && q'.tn == q.tn
    ensures forall k :: k != ptr ==> ReadLong(q', k) == ReadLong(q, k)
    ensures !GoodRecord(p, ptr, cw[..], mapped, firstCw, depth) ==> q' == q && !more && chain == done
    ensures GoodRecord(p, ptr, cw[..], mapped, firstCw, depth) ==>
              Rewrites(p, ptr, cw[..], mapped, firstCw, depth, ReadLong(q', ptr)) &&
              (!more ==> chain == done + [ptr]) &&
              (more ==> ptr < next && WalkedSoFar(p, cw[..], mapped, firstCw, depth, chain, done + [ptr], next))
  {
    ghost var cws := cw[..];
    var c := DecodeChain(ReadLong(q, ptr));
    assert c == DecodeChain(ReadLong(p, ptr));
    if !(c.flag == 1 && AsSize(ptr + BlockIdSize as int) <= q.bsiz && c.cwIndex < depth) {
      WalkStops(p, cws, mapped, firstCw, depth, chain, done, ptr);
      return q, false, ptr;
    }
    var ok, cs1 := TpGetCw(cw, mapped, firstCw, c.cwIndex);
    if !ok {
      WalkStops(p, cws, mapped, firstCw, depth, chain, done, ptr);
      return q, false, ptr;
    }
    q' := PutLong(q, ptr, cw[cs1.i].blk);
    if c.nextOff == 0 {
      WalkEndsAt(p, cws, mapped, firstCw, depth, chain, done, ptr);
      return q', false, ptr;
    }
    WalkMovesOn(p, cws, mapped, firstCw, depth, chain, done, ptr, c.nextOff);
    more, next := true, ptr + c.nextOff;
  }

  /** The walk over a block's chain (lines 967-1001), from `first_off`: each record
      that is flagged, inside the block, and names an element that can be found is
      replaced by that element's block number; the walk ends after a record whose
      next_off is 0, or at the first record that fails. It rewrites exactly the
      records `ChainFrom` lists and nothing else. */
  method WalkChain(p: Page, cw: array<CwSet>, mapped: set<nat>, firstCw: Ref, depth: nat, firstOff: int)
      returns (q: Page, ghost written: set<int>)
    requires -0x8000_0000 <= firstOff < 0x8000_0000
    ensures q.bsiz == p.bsiz && q.tn == p.tn
    ensures forall k :: k !in written ==> ReadLong(q, k) == ReadLong(p, k)
    ensures forall k :: k in written <==> k in ChainFrom(p, cw[..], mapped, firstCw, depth, firstOff)
    ensures forall k :: k in written ==> Rewrites(p, k, cw[..], mapped, firstCw, depth, ReadLong(q, k))
  {
    q, written := p, {};
    var ptr := firstOff;
    ghost var done: seq<int> := [];
    ghost var cws := cw[..];
    ghost var chainOf := ChainFrom(p, cws, mapped, firstCw, depth, firstOff);
    assert chainOf == done + chainOf;
    var more := true;
    while more
      invariant firstOff <= ptr
      invariant more ==> WalkedSoFar(p, cws, mapped, firstCw, depth, chainOf, done, ptr)
      invariant !more ==> chainOf == done
      invariant forall k :: k in written <==> k in done
      invariant q.bsiz == p.bsiz && q.tn == p.tn
      invariant forall k :: k !in written ==> ReadLong(q, k) == ReadLong(p, k)
      invariant forall k :: k in written ==>
                  k < ptr + (if more then 0 else 1) && Rewrites(p, k, cws, mapped, firstCw, depth, ReadLong(q, k))
      decreases more, p.bsiz as int + 0x8000_0000 - ptr
    {
      var q', next;
      q', more, next := RewriteRecord(p, q, cw, mapped, firstCw, depth, chainOf, done, ptr);
      if GoodRecord(p, ptr, cws, mapped, firstCw, depth) {
        written, done := written + {ptr}, done + [ptr];
      }
      q := q';
      if more {
        ptr := next;
      }
    }
  }
}
