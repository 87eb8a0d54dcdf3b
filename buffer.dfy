/** Character buffers and the two C library copies `parse_file` uses on them:
    `memmove` (overlapping source and target) and `memcpy` from a string. */
module Buffers {

  /** The buffer after `memmove(dst, src, n)`: the `n` characters at `src` now also
      stand at `dst`, everything outside `dst .. dst + n` is as it was. */
  function Moved(s: seq<char>, dst: nat, src: nat, n: nat): (r: seq<char>)
    requires src + n <= |s| && dst + n <= |s|
    ensures |r| == |s|
    ensures r[..dst] == s[..dst] && r[dst + n..] == s[dst + n..]
    ensures r[dst..dst + n] == s[src..src + n]
  {
    s[..dst] + s[src..src + n] + s[dst + n..]
  }

  /** `memmove`: copies forwards when the target lies before the source and backwards
      otherwise, so that no character is overwritten before it is read. */
  method Move(a: array<char>, dst: nat, src: nat, n: nat)
    requires src + n <= a.Length && dst + n <= a.Length
    modifies a
    ensures a[..] == Moved(old(a[..]), dst, src, n)
    ensures a[..dst] == old(a[..dst]) && a[dst..dst + n] == old(a[src..src + n])
  {
    ghost var s := a[..];
    if dst <= src {
      MoveDown(a, dst, src, n);
    } else {
      MoveUp(a, dst, src, n);
    }
    assert forall k :: 0 <= k < a.Length ==> a[k] == Moved(s, dst, src, n)[k];
  }

  method MoveDown(a: array<char>, dst: nat, src: nat, n: nat)
    requires dst <= src && src + n <= a.Length
    modifies a
    ensures forall k :: 0 <= k < dst ==> a[k] == old(a[k])
    ensures forall k :: dst <= k < dst + n ==> a[k] == old(a[src + k - dst])
    ensures forall k :: dst + n <= k < a.Length ==> a[k] == old(a[k])
  {
    var i := 0;
    while i < n
      invariant 0 <= i <= n
      invariant forall k :: 0 <= k < dst ==> a[k] == old(a[k])
      invariant forall k :: dst <= k < dst + i ==> a[k] == old(a[src + k - dst])
      invariant forall k :: dst + i <= k < a.Length ==> a[k] == old(a[k])
    {
      a[dst + i] := a[src + i];
      i := i + 1;
    }
  }

  method MoveUp(a: array<char>, dst: nat, src: nat, n: nat)
    requires src < dst && dst + n <= a.Length
    modifies a
    ensures forall k :: 0 <= k < dst ==> a[k] == old(a[k])
    ensures forall k :: dst <= k < dst + n ==> a[k] == old(a[src + k - dst])
    ensures forall k :: dst + n <= k < a.Length ==> a[k] == old(a[k])
  {
    var i := n;
    while i > 0
      invariant 0 <= i <= n
      invariant forall k :: 0 <= k < dst + i ==> a[k] == old(a[k])
      invariant forall k :: dst + i <= k < dst + n ==> a[k] == old(a[src + k - dst])
      invariant forall k :: dst + n <= k < a.Length ==> a[k] == old(a[k])
    {
      i := i - 1;
      a[dst + i] := a[src + i];
    }
  }

  /** `memcpy(a + at, s, |s|)`. */
  method Put(a: array<char>, at: nat, s: seq<char>)
    requires at + |s| <= a.Length
    modifies a
    ensures a[..] == old(a[..at]) + s + old(a[at + |s|..])
  {
    ghost var s0 := a[..];
    var i := 0;
    while i < |s|
      invariant 0 <= i <= |s|
      invariant forall k :: 0 <= k < a.Length ==>
        a[k] == (if at <= k < at + i then s[k - at] else s0[k])
    {
      a[at + i] := s[i];
      i := i + 1;
    }
    assert a[..] == s0[..at] + s + s0[at + |s|..];
  }

  /** A slice of a prefix is the same slice of the whole. */
  lemma SliceOfPrefix(s: seq<char>, n: nat, i: nat, j: nat)
    requires i <= j <= n <= |s|
    ensures s[..n][i..j] == s[i..j]
  {
  }
}
