/** The canonicalising scan of `parse_file` (sr_unix/parse_file.c lines 265-360): one
    pass over the path that deletes `./`, collapses runs of `/`, removes `x/../`
    together with the directory before it (never reaching before `base`), and on the
    way records where the last name and extension start and whether they hold the
    wildcards `?` or `*`.

    The scan is specified on values: `out` is what the buffer holds before the scan
    pointer and `rest` what lies between the pointer and the end, so a deletion by
    `memmove` is a cut of `out`. `CanonScan` runs the same scan in place on the buffer
    and is proved equal to `Canonical`. */
module ParseScan {

  import opened Buffers

  /** `enum parse_state`. */
  datatype PState = NoState | Name | Dot1 | Dot2 | Slash

  /** The scan's variables: the buffer up to `ptr` (`out`), from `ptr` to `top` (`rest`),
      `state`, the offsets `name` and `ext` and the five flags. */
  datatype Scan = Scan(out: seq<char>, rest: seq<char>, state: PState, name: nat, ext: nat,
                       hasDir: bool, hasName: bool, hasExt: bool, wildDir: bool, wildName: bool)

  predicate IsWild(ch: char)
  {
    ch == '?' || ch == '*'
  }

  /** Some character of `c[lo..hi]` is a wildcard. */
  predicate WildIn(c: seq<char>, lo: nat, hi: nat)
    requires lo <= hi <= |c|
  {
    exists k :: lo <= k < hi && IsWild(c[k])
  }

  /** The scan starts at `ptr` with nothing seen (lines 265-266). */
  function Start(prefix: seq<char>, user: seq<char>): Scan
  {
    Scan(prefix, user, NoState, |prefix|, 0, false, false, false, false, false)
  }

  /** What each turn needs: the root `/` at `base` once the scan is past it, and room
      for the dots of a `.` or `..` state. */
  ghost predicate Framed(base: nat, s: Scan)
  {
    && base <= |s.out|
    && (|s.out| == base ==> s.state == NoState && (|s.rest| > 0 ==> s.rest[0] == '/'))
    && (|s.out| > base ==> s.out[base] == '/')
    && (s.state == Dot1 ==> base + 2 <= |s.out|)
    && (s.state == Dot2 ==> base + 3 <= |s.out|)
  }

  /** What holds between two turns of the scan. The buffer has `/` at `base` once the
      scan is past it; a `.` state sits right after its dots; a name is only ever
      followed by `/`; the flags of the last component agree with the state. */
  ghost predicate Wf(base: nat, s: Scan)
  {
    && Framed(base, s)
    && base <= s.name <= |s.out|
    && (s.state == NoState ==> s.name == |s.out| && !s.hasDir)
    && (s.state == Dot1 ==> s.name < |s.out|)
    && (s.state == Dot2 ==> s.name + 2 <= |s.out|)
    && (s.state == Slash ==> s.name == |s.out| && s.hasDir)
    && (s.state != Name ==> forall k :: s.name <= k < |s.out| ==> s.out[k] == '.')
    && (s.state == Name ==> forall k :: s.name <= k < |s.out| ==> s.out[k] != '/')
    && (s.state == Name && |s.rest| > 0 ==> s.rest[0] == '/')
    && (s.hasName <==> s.state == Name)
    && (s.hasExt ==> s.hasName && s.name < s.ext < |s.out| && s.out[s.ext] == '.')
    && (s.hasExt ==> forall k :: s.ext < k < |s.out| ==> s.out[k] != '.')
    && (s.wildName <==> s.state == Name && WildIn(s.out, s.name, |s.out|))
  }

  /** The last `/` at or before `i`; `out[base]` is one, so the backward search of
      lines 298-299 and 352-353 stops at `base` at the latest. */
  function LastSlash(base: nat, out: seq<char>, i: nat): (j: nat)
    requires base <= i < |out| && out[base] == '/'
    ensures base <= j <= i && out[j] == '/'
    ensures forall k :: j < k <= i ==> out[k] != '/'
    decreases i
  {
    if out[i] == '/' then i else LastSlash(base, out, i - 1)
  }

  /** Where a `..` deletion cuts the buffer, `del` being the character before the dots
      (lines 293-302 and 347-356): just past the `/` that opens the directory before
      `del`, or just past `base` when `del` is `base` itself. */
  function Climb(base: nat, out: seq<char>, del: nat): (r: nat)
    requires base <= del < |out| && out[base] == '/'
    ensures base < r <= del + 1 && out[r - 1] == '/'
    ensures forall k :: r <= k < del ==> out[k] != '/'
  {
    (if del > base then LastSlash(base, out, del - 1) else del) + 1
  }

  /** Where a run of `/` starting at `i` ends (lines 306-307). */
  function SlashRunEnd(r: seq<char>, i: nat): (k: nat)
    requires i <= |r|
    ensures i <= k <= |r| && (k < |r| ==> r[k] != '/')
    ensures forall j :: i <= j < k ==> r[j] == '/'
    decreases |r| - i
  {
    if i == |r| || r[i] != '/' then i else SlashRunEnd(r, i + 1)
  }

  /** How far the name scan of lines 319-331 reads from `i`: to the next `/` or the end. */
  function NameEnd(r: seq<char>, i: nat): (k: nat)
    requires i <= |r|
    ensures i <= k <= |r| && (k < |r| ==> r[k] == '/')
    ensures forall j :: i <= j < k ==> r[j] != '/'
    decreases |r| - i
  {
    if i == |r| || r[i] == '/' then i else NameEnd(r, i + 1)
  }

  /** The last `.` among the first `n` characters of `c`, or -1: the name scan
      overwrites `ext` at each dot it passes. */
  function LastDot(c: seq<char>, n: nat): (k: int)
    requires n <= |c|
    ensures -1 <= k < n && (k >= 0 ==> c[k] == '.')
    ensures forall i :: k < i < n ==> c[i] != '.'
  {
    if n == 0 then -1 else if c[n - 1] == '.' then n - 1 else LastDot(c, n - 1)
  }

  /** Lines 270-273: a dot moves DOT1 to DOT2 and every other state to DOT1; the
      NAME arm of the nested conditional can never be taken. */
  function DotStep(s: Scan): (t: Scan)
    requires |s.rest| > 0
    ensures t.out == s.out + ['.'] && t.rest == s.rest[1..]
    ensures t.state == (if s.state == Dot1 then Dot2 else Dot1)
  {
    s.(out := s.out + ['.'], rest := s.rest[1..],
       state := if s.state == Dot1 then (if s.state == Dot2 then Name else Dot2) else Dot1)
  }

  /** Lines 274-315: a `/` ends a component. After a name it is kept; after `.` the
      `./` goes; after `..` the `/../` goes with the directory before it; after a `/`
      the whole run of `/` goes. */
  function SlashStep(base: nat, s: Scan): (t: Scan)
    requires Framed(base, s) && |s.rest| > 0 && s.rest[0] == '/'
    ensures Framed(base, t) && |t.out| > base && |t.out| + |t.rest| <= |s.out| + |s.rest|
    ensures t.state == Slash && t.name == |t.out| && |t.rest| < |s.rest|
    ensures t.hasDir && !t.hasName && !t.hasExt && !t.wildName
    ensures t.wildDir == (s.wildDir || s.wildName)
  {
    var out :=
      if s.state == Dot1 then s.out[..|s.out| - 1]
      else if s.state == Dot2 then s.out[..Climb(base, s.out, |s.out| - 3)]
      else if s.state == Slash then s.out
      else s.out + ['/'];
    var rest := if s.state == Slash then s.rest[SlashRunEnd(s.rest, 1)..] else s.rest[1..];
    Scan(out, rest, Slash, |out|, s.ext, true, false, false, s.wildDir || s.wildName, false)
  }

  lemma SlashStepWf(base: nat, s: Scan)
    requires Wf(base, s) && |s.rest| > 0 && s.rest[0] == '/'
    ensures Wf(base, SlashStep(base, s))
  {
  }

  /** Lines 317-332: a component that starts with neither `.` nor `/` is a name, read
      up to the next `/`; its last dot starts the extension. */
  function NameStep(base: nat, s: Scan): (t: Scan)
    requires |s.rest| > 0 && s.rest[0] != '/'
    ensures t.state == Name && t.hasName && |t.rest| < |s.rest|
    ensures |t.out| + |t.rest| == |s.out| + |s.rest|
  {
    var k := NameEnd(s.rest, 0);
    var d := LastDot(s.rest, k);
    Scan(s.out + s.rest[..k], s.rest[k..], Name, s.name, if d >= 0 then |s.out| + d else s.ext,
         s.hasDir, true, s.hasExt || d >= 0, s.wildDir, s.wildName || WildIn(s.rest, 0, k))
  }

  lemma NameStepWf(base: nat, s: Scan)
    requires Wf(base, s) && |s.rest| > 0 && s.rest[0] != '.' && s.rest[0] != '/'
    ensures Wf(base, NameStep(base, s))
  {
    var k := NameEnd(s.rest, 0);
    var t := NameStep(base, s);
    assert |s.out| > base && !s.hasExt && !s.wildName;
    WildShift(s.out, s.rest, s.name, k);
  }

  /** A name read after dots carries a wildcard exactly when the part read does. */
  lemma WildShift(out: seq<char>, rest: seq<char>, name: nat, k: nat)
    requires name <= |out| && k <= |rest|
    requires forall j :: name <= j < |out| ==> out[j] == '.'
    ensures WildIn(out + rest[..k], name, |out| + k) == WildIn(rest, 0, k)
  {
    var c := out + rest[..k];
    if WildIn(c, name, |out| + k) {
      var j :| name <= j < |out| + k && IsWild(c[j]);
      assert IsWild(rest[j - |out|]);
    }
    if WildIn(rest, 0, k) {
      var j :| 0 <= j < k && IsWild(rest[j]);
      assert IsWild(c[|out| + j]);
    }
  }

  /** One turn of the loop of lines 267-334. */
  function Step(base: nat, s: Scan): (t: Scan)
    requires Framed(base, s) && |s.rest| > 0
    ensures Framed(base, t) && |t.rest| < |s.rest|
    ensures |t.out| + |t.rest| <= |s.out| + |s.rest| && |t.out| > base
  {
    if s.rest[0] == '.' then DotStep(s)
    else if s.rest[0] == '/' then SlashStep(base, s)
    else NameStep(base, s)
  }

  /** Each turn keeps `Wf`. */
  lemma StepWf(base: nat, s: Scan)
    requires Wf(base, s) && |s.rest| > 0
    ensures Wf(base, Step(base, s))
  {
    if s.rest[0] == '/' {
      SlashStepWf(base, s);
    } else if s.rest[0] != '.' {
      NameStepWf(base, s);
    }
  }

  /** The loop of lines 267-334, run to the end of the input. The buffer never grows,
      and its first `base + 1` characters (up to the root `/`) are never touched. */
  function Run(base: nat, s: Scan): (t: Scan)
    requires Framed(base, s)
    ensures Framed(base, t) && t.rest == [] && |t.out| <= |s.out| + |s.rest|
    ensures |s.out| + |s.rest| > base ==> |t.out| > base
    decreases |s.rest|
  {
    if |s.rest| == 0 then s else Run(base, Step(base, s))
  }

  /** Each turn keeps `Wf`, so the whole loop does. */
  lemma {:induction false} RunWf(base: nat, s: Scan)
    requires Wf(base, s)
    ensures Wf(base, Run(base, s))
    decreases |s.rest|
  {
    if |s.rest| > 0 {
      StepWf(base, s);
      RunWf(base, Step(base, s));
    }
  }

  /** A `.` in front of `r` moves it to the buffer and changes the state only. */
  lemma RunDot(base: nat, s: Scan, r: seq<char>)
    requires Framed(base, s) && s.rest == "." + r
    ensures Framed(base, s.(out := s.out + ".", rest := r, state := if s.state == Dot1 then Dot2 else Dot1))
    ensures Run(base, s)
         == Run(base, s.(out := s.out + ".", rest := r, state := if s.state == Dot1 then Dot2 else Dot1))
  {
    assert Step(base, s) == DotStep(s);
    assert s.rest[1..] == r;
  }

  lemma RunSlash(base: nat, s: Scan)
    requires Framed(base, s) && |s.rest| > 0 && s.rest[0] == '/'
    ensures Run(base, s) == Run(base, SlashStep(base, s))
  {
    assert Step(base, s) == SlashStep(base, s);
  }

  /** After a `/`, a `./` leaves no trace (lines 284-286). */
  lemma DotSlashRemoved(base: nat, s: Scan, r: seq<char>)
    requires Wf(base, s) && s.state == Slash && s.rest == "./" + r
    ensures Run(base, s) == Run(base, s.(rest := r))
  {
    assert s.rest == "." + ("/" + r);
    var s1 := s.(out := s.out + ".", rest := "/" + r, state := Dot1);
    assert s1.out[..|s1.out| - 1] == s.out && s1.rest[1..] == r;
    assert SlashStep(base, s1) == s.(rest := r);
    RunDot(base, s, "/" + r);
    RunSlash(base, s1);
  }

  /** After a `/`, another `/` leaves no trace: a run of slashes counts as one
      (lines 303-307). */
  lemma SlashRunCollapses(base: nat, s: Scan, r: seq<char>)
    requires Wf(base, s) && s.state == Slash && s.rest == "/" + r
    ensures Run(base, s) == Run(base, s.(rest := r))
  {
    RunSlash(base, s);
    var t := s.(rest := r);
    if |r| > 0 && r[0] == '/' {
      SlashRunAfter(r);
      RunSlash(base, t);
      assert SlashStep(base, s) == SlashStep(base, t);
    } else {
      assert SlashStep(base, s) == t;
    }
  }

  /** Skipping the run of `/` after a `/` put in front of `r` is skipping it in `r`. */
  lemma SlashRunAfter(r: seq<char>)
    requires |r| > 0 && r[0] == '/'
    ensures ("/" + r)[SlashRunEnd("/" + r, 1)..] == r[SlashRunEnd(r, 1)..]
  {
    SlashRunShift(r, 0);
    assert SlashRunEnd(r, 0) == SlashRunEnd(r, 1);
  }

  lemma {:induction false} SlashRunShift(r: seq<char>, i: nat)
    requires i <= |r|
    ensures SlashRunEnd("/" + r, i + 1) == 1 + SlashRunEnd(r, i)
    decreases |r| - i
  {
    if i < |r| && r[i] == '/' {
      SlashRunShift(r, i + 1);
    }
  }

  /** After a `/`, a `../` cuts the buffer back to the start of the directory before
      it, or to the root (lines 288-302). */
  lemma RunParent(base: nat, s: Scan, r: seq<char>)
    requires Framed(base, s) && s.state == Slash && s.rest == "../" + r
    requires s.hasDir && !s.hasName && !s.hasExt && !s.wildName
    ensures |s.out| > base
    ensures Run(base, s) == Run(base, s.(out := s.out[..Climb(base, s.out, |s.out| - 1)],
                                         name := Climb(base, s.out, |s.out| - 1), rest := r))
  {
    assert s.rest == "." + ("./" + r) && ("./" + r) == "." + ("/" + r);
    var s1 := s.(out := s.out + ".", rest := "./" + r, state := Dot1);
    var s2 := s1.(out := s1.out + ".", rest := "/" + r, state := Dot2);
    assert s2.out == s.out + ".." && s2.rest[1..] == r;
    ClimbPast(base, s.out, "..", |s.out| - 1);
    var c := Climb(base, s.out, |s.out| - 1);
    assert s2.out[..c] == s.out[..c];
    assert SlashStep(base, s2) == s.(out := s.out[..c], name := c, rest := r);
    RunDot(base, s, "./" + r);
    RunDot(base, s1, "/" + r);
    RunSlash(base, s2);
  }

  /** The cut point depends only on the buffer up to `del`. */
  lemma ClimbPast(base: nat, out: seq<char>, e: seq<char>, del: nat)
    requires base <= del < |out| && out[base] == '/'
    ensures Climb(base, out + e, del) == Climb(base, out, del)
  {
    if del > base {
      LastSlashPast(base, out, e, del - 1);
    }
  }

  lemma {:induction false} LastSlashPast(base: nat, out: seq<char>, e: seq<char>, i: nat)
    requires base <= i < |out| && out[base] == '/'
    ensures LastSlash(base, out + e, i) == LastSlash(base, out, i)
    decreases i
  {
    if out[i] != '/' {
      LastSlashPast(base, out, e, i - 1);
    }
  }

  /** After `x/`, a `../` removes `x/` and itself (lines 288-302). */
  lemma ParentRemoved(base: nat, s: Scan, p: seq<char>, x: seq<char>, r: seq<char>)
    requires Wf(base, s) && s.state == Slash && s.rest == "../" + r
    requires s.out == p + x + "/" && base < |p| && p[|p| - 1] == '/'
    requires |x| > 0 && forall k :: 0 <= k < |x| ==> x[k] != '/'
    ensures Run(base, s) == Run(base, s.(out := p, name := |p|, rest := r))
  {
    LastSlashAt(base, s.out, |p| + |x| - 1, |p| - 1);
    assert s.out[..|p|] == p;
    RunParent(base, s, r);
  }

  /** `LastSlash` from `i` finds `j` when `out[j]` is the only `/` in `j..i`. */
  lemma {:induction false} LastSlashAt(base: nat, out: seq<char>, i: nat, j: nat)
    requires base <= j <= i < |out| && out[base] == '/' && out[j] == '/'
    requires forall k :: j < k <= i ==> out[k] != '/'
    ensures LastSlash(base, out, i) == j
    decreases i
  {
    if i > j {
      LastSlashAt(base, out, i - 1, j);
    }
  }

  /** At the root, `../` is dropped and the root stays (lines 296-302 with
      `del == base`). */
  lemma RootParentStays(base: nat, s: Scan, r: seq<char>)
    requires Wf(base, s) && s.state == Slash && |s.out| == base + 1 && s.rest == "../" + r
    ensures Run(base, s) == Run(base, s.(rest := r))
  {
    assert s.out[..base + 1] == s.out;
    RunParent(base, s, r);
  }

  /** A component of three dots is not a name: the third dot moves DOT2 back to DOT1,
      so the `/` after it cuts only `./`, and the two dots left run into the next
      component. */
  lemma ThreeDotsMerge(base: nat, s: Scan, r: seq<char>)
    requires Wf(base, s) && s.state == Slash && s.rest == ".../" + r
    ensures Run(base, s) == Run(base, s.(out := s.out + "..", name := |s.out| + 2, rest := r))
  {
    var t := s.(out := s.out + "..", name := |s.out| + 2, rest := r);
    assert s.rest == "." + ("../" + r) && "../" + r == "." + ("./" + r);
    var s1 := s.(out := s.out + ".", rest := "../" + r, state := Dot1);
    var s2 := s1.(out := s1.out + ".", rest := "./" + r, state := Dot2);
    assert s2.rest == "." + ("/" + r);
    var s3 := s2.(out := s2.out + ".", rest := "/" + r, state := Dot1);
    assert s3.out[..|s3.out| - 1] == t.out && s3.rest[1..] == r;
    assert SlashStep(base, s3) == t;
    RunDot(base, s, "../" + r);
    RunDot(base, s1, "./" + r);
    RunDot(base, s2, "/" + r);
    RunSlash(base, s3);
  }

  /** What holds when the scan is over: the name is the last component, the extension
      its last dot, and only a name carries them or the name wildcard. */
  ghost predicate Final(base: nat, t: Scan)
  {
    && base < |t.out| && t.out[base] == '/'
    && base <= t.name <= |t.out| && t.rest == []
    && (t.hasName ==> forall k :: t.name <= k < |t.out| ==> t.out[k] != '/')
    && (t.hasExt ==> t.hasName && t.name < t.ext < |t.out| && t.out[t.ext] == '.')
    && (t.hasExt ==> forall k :: t.ext < k < |t.out| ==> t.out[k] != '.')
    && (t.wildName ==> t.hasName && WildIn(t.out, t.name, |t.out|))
    && (t.hasName ==> t.wildName == WildIn(t.out, t.name, |t.out|))
  }

  /** Lines 336-360: a scan that ends after `/`, `.` or `..` saw a directory; a
      trailing `.` is dropped, and a trailing `..` goes with the directory before it. */
  function Finish(base: nat, s: Scan): (t: Scan)
    requires Framed(base, s) && s.rest == [] && |s.out| > base
    ensures |t.out| <= |s.out|
    ensures (s.state == Slash || s.state == Dot1 || s.state == Dot2) ==> t.hasDir
    ensures t.hasName == s.hasName && t.hasExt == s.hasExt && t.wildDir == s.wildDir
  {
    match s.state
    case Slash => s.(hasDir := true)
    case Dot1 => s.(out := s.out[..|s.out| - 1], hasDir := true)
    case Dot2 =>
      var del := Climb(base, s.out, |s.out| - 3);
      s.(out := s.out[..del], name := del, hasDir := true)
    case _ => s
  }

  /** A trailing `.` ends the scan as `./` would (lines 339-343): the buffer, name and
      flags come out the same, only the final state differs. */
  lemma TrailingDotDropped(base: nat, s: Scan)
    requires Wf(base, s) && s.state == Slash && s.rest == "."
    ensures Finish(base, Run(base, s))
         == Finish(base, Run(base, s.(rest := "./"))).(state := Dot1)
  {
    var s1 := s.(out := s.out + ".", rest := [], state := Dot1);
    assert s.rest == "." + [] && "./" == "./" + [];
    assert s1.out[..|s1.out| - 1] == s.out;
    RunDot(base, s, []);
    DotSlashRemoved(base, s.(rest := "./"), []);
  }

  /** A trailing `..` ends the scan as `../` would (lines 345-356). */
  lemma TrailingParentDropped(base: nat, s: Scan)
    requires Wf(base, s) && s.state == Slash && s.rest == ".."
    ensures Finish(base, Run(base, s))
         == Finish(base, Run(base, s.(rest := "../"))).(state := Dot2)
  {
    ParentAtEndCuts(base, s);
    ParentThenEndCuts(base, s);
  }

  /** The scan ending in `..` after a `/` cuts back to the directory before it. */
  lemma ParentAtEndCuts(base: nat, s: Scan)
    requires Wf(base, s) && s.state == Slash && s.rest == ".."
    ensures |s.out| > base
    ensures Finish(base, Run(base, s))
         == s.(out := s.out[..Climb(base, s.out, |s.out| - 1)], name := Climb(base, s.out, |s.out| - 1),
               rest := [], state := Dot2, hasDir := true)
  {
    var c := Climb(base, s.out, |s.out| - 1);
    var s2 := s.(out := s.out + "..", rest := [], state := Dot2);
    ClimbPast(base, s.out, "..", |s.out| - 1);
    assert s2.out[..c] == s.out[..c];
    RunDotDot(base, s);
  }

  /** The scan ending in `../` after a `/` cuts back the same way. */
  lemma ParentThenEndCuts(base: nat, s: Scan)
    requires Wf(base, s) && s.state == Slash && s.rest == ".."
    ensures |s.out| > base
    ensures Finish(base, Run(base, s.(rest := "../")))
         == s.(out := s.out[..Climb(base, s.out, |s.out| - 1)], name := Climb(base, s.out, |s.out| - 1),
               rest := [], hasDir := true)
  {
    assert "../" == "../" + [];
    var c := Climb(base, s.out, |s.out| - 1);
    var u := s.(out := s.out[..c], name := c, rest := []);
    RunParent(base, s.(rest := "../"), []);
    assert Run(base, u) == u;
  }

  /** The two dots of a trailing `..` only move to the buffer. */
  lemma RunDotDot(base: nat, s: Scan)
    requires Framed(base, s) && s.state == Slash && s.rest == ".."
    ensures Run(base, s) == s.(out := s.out + "..", rest := [], state := Dot2)
  {
    assert s.rest == "." + "." && "." == "." + [];
    var s1 := s.(out := s.out + ".", rest := ".", state := Dot1);
    var s2 := s1.(out := s1.out + ".", rest := [], state := Dot2);
    assert s2.out == s.out + "..";
    RunDot(base, s, ".");
    RunDot(base, s1, []);
  }

  lemma FinishFinal(base: nat, s: Scan)
    requires Wf(base, s) && s.rest == [] && |s.out| > base
    ensures Final(base, Finish(base, s))
  {
  }

  /** The whole scan of the buffer `prefix + user`, starting at the end of `prefix`. */
  function Canonical(base: nat, prefix: seq<char>, user: seq<char>): (t: Scan)
    requires Wf(base, Start(prefix, user)) && |prefix| + |user| > base
    ensures Final(base, t) && |t.out| <= |prefix| + |user|
  {
    var r := Run(base, Start(prefix, user));
    RunWf(base, Start(prefix, user));
    FinishFinal(base, r);
    Finish(base, r)
  }

  /** The scan's variables in the buffer: `ptr` and `top` are offsets into it. */
  datatype Cursor = Cursor(ptr: nat, top: nat, state: PState, name: nat, ext: nat,
                           hasDir: bool, hasName: bool, hasExt: bool, wildDir: bool, wildName: bool)

  /** The scan a cursor stands for in a buffer. */
  ghost function ViewOf(a: seq<char>, c: Cursor): Scan
    requires c.ptr <= c.top <= |a|
  {
    Scan(a[..c.ptr], a[c.ptr..c.top], c.state, c.name, c.ext,
         c.hasDir, c.hasName, c.hasExt, c.wildDir, c.wildName)
  }

  /** The backward search for the directory before a `..` (lines 295-302 and 349-356). */
  method ClimbBack(a: array<char>, base: nat, del0: nat, ghost out: seq<char>) returns (r: nat)
    requires base <= del0 < |out| <= a.Length && out == a[..|out|] && out[base] == '/'
    ensures r == Climb(base, out, del0)
  {
    var del := del0;
    if del > base {
      del := del - 1;
      while a[del] != '/'
        invariant base <= del < del0
        invariant LastSlash(base, out, del) == LastSlash(base, out, del0 - 1)
        decreases del
      {
        del := del - 1;
      }
    }
    r := del + 1;
  }

  /** Lines 274-315 on the buffer: the cut is made by one `memmove` of the rest. */
  method SlashAt(a: array<char>, base: nat, c: Cursor) returns (d: Cursor)
    requires c.ptr < c.top <= a.Length && Framed(base, ViewOf(a[..], c)) && a[c.ptr] == '/'
    modifies a
    ensures d.ptr <= d.top <= a.Length
    ensures ViewOf(a[..], d) == SlashStep(base, ViewOf(old(a[..]), c))
  {
    ghost var v := ViewOf(a[..], c);
    var ptr := c.ptr + 1;
    var wildDir := c.wildDir || c.wildName;
    if c.state != Dot1 && c.state != Dot2 && c.state != Slash {
      d := Cursor(ptr, c.top, Slash, ptr, c.ext, true, false, false, wildDir, false);
      assert a[..ptr] == v.out + ['/'] && a[ptr..c.top] == v.rest[1..];
      return;
    }
    d := CutSlash(a, base, c, wildDir);
  }

  /** The cut of lines 284-315 after `.`, `..` or `/`. */
  method CutSlash(a: array<char>, base: nat, c: Cursor, wildDir: bool) returns (d: Cursor)
    requires c.ptr < c.top <= a.Length && Framed(base, ViewOf(a[..], c)) && a[c.ptr] == '/'
    requires c.state == Dot1 || c.state == Dot2 || c.state == Slash
    requires wildDir == (c.wildDir || c.wildName)
    modifies a
    ensures d.ptr <= d.top <= a.Length
    ensures ViewOf(a[..], d) == SlashStep(base, ViewOf(old(a[..]), c))
  {
    ghost var v := ViewOf(a[..], c);
    var del, ptr := CutPoints(a, base, c, c.ptr + 1, v);
    ghost var kept, rest := a[..del], a[ptr..c.top];
    SlashCut(base, v, del, ptr - c.ptr);
    assert kept == v.out[..del] && rest == v.rest[ptr - c.ptr..];
    var top;
    ptr, top := CutAt(a, del, ptr, c.top);
    d := Cursor(ptr, top, Slash, ptr, c.ext, true, false, false, wildDir, false);
    assert ViewOf(a[..], d).out == kept && ViewOf(a[..], d).rest == rest;
  }

  /** Lines 284-308: where the cut after `.`, `..` or `/` starts and ends. */
  method CutPoints(a: array<char>, base: nat, c: Cursor, ptr0: nat, ghost v: Scan)
    returns (del: nat, ptr: nat)
    requires c.ptr < c.top <= a.Length && ptr0 == c.ptr + 1 && v == ViewOf(a[..], c)
    requires Framed(base, v) && |v.rest| > 0 && v.rest[0] == '/' && (c.state == Dot1 || c.state == Dot2 || c.state == Slash)
    ensures c.ptr < ptr <= c.top
    ensures c.state == Dot1 ==> del == |v.out| - 1 && ptr == ptr0
    ensures c.state == Dot2 ==> del == Climb(base, v.out, |v.out| - 3) && ptr == ptr0
    ensures c.state == Slash ==> del == |v.out| && ptr - c.ptr == SlashRunEnd(v.rest, 1)
  {
    ptr := ptr0;
    if c.state == Dot1 {
      del := ptr - 2;
    } else if c.state == Dot2 {
      del := ClimbBack(a, base, ptr - 4, v.out);
    } else {
      del := ptr - 1;
      ptr := SkipSlashes(a, ptr, c.top, c.ptr);
    }
  }

  /** Lines 310-313: `memmove(del, ptr, top - ptr)` and both pointers moved back by
      the length cut out. */
  method CutAt(a: array<char>, del: nat, ptr0: nat, top0: nat) returns (ptr: nat, top: nat)
    requires del <= ptr0 <= top0 <= a.Length
    modifies a
    ensures a[..] == Moved(old(a[..]), del, ptr0, top0 - ptr0)
    ensures ptr == del && top == del + (top0 - ptr0)
    ensures a[..ptr] == old(a[..del]) && a[ptr..top] == old(a[ptr0..top0])
  {
    Move(a, del, ptr0, top0 - ptr0);
    var diff := ptr0 - del;
    ptr := ptr0 - diff;
    top := top0 - diff;
  }

  /** A `/` after `.`, `..` or `/` cuts the buffer at `del` and resumes after `skip`. */
  lemma SlashCut(base: nat, v: Scan, del: nat, skip: nat)
    requires Framed(base, v) && |v.rest| > 0 && v.rest[0] == '/' && (v.state == Dot1 || v.state == Dot2 || v.state == Slash)
    requires v.state == Dot1 ==> del == |v.out| - 1 && skip == 1
    requires v.state == Dot2 ==> del == Climb(base, v.out, |v.out| - 3) && skip == 1
    requires v.state == Slash ==> del == |v.out| && skip == SlashRunEnd(v.rest, 1)
    ensures del <= |v.out| && skip <= |v.rest|
    ensures SlashStep(base, v) == Scan(v.out[..del], v.rest[skip..], Slash, del, v.ext,
                                       true, false, false, v.wildDir || v.wildName, false)
  {
  }

  /** The run of `/` skipped at lines 306-307. */
  method SkipSlashes(a: array<char>, from: nat, top: nat, ghost at: nat) returns (ptr: nat)
    requires at < from <= top <= a.Length
    ensures ptr == at + SlashRunEnd(a[at..top], from - at)
  {
    ghost var r := a[at..top];
    ptr := from;
    while ptr < top && a[ptr] == '/'
      invariant from <= ptr <= top
      invariant SlashRunEnd(r, ptr - at) == SlashRunEnd(r, from - at)
    {
      ptr := ptr + 1;
    }
  }

  /** Lines 317-332 on the buffer: reads the name up to the next `/`; the buffer is
      only read. `hasext` and `wildname` are clear here, as no name precedes. */
  method NameAt(a: array<char>, base: nat, c: Cursor) returns (d: Cursor)
    requires c.ptr < c.top <= a.Length && a[c.ptr] != '/'
    ensures d.ptr <= d.top <= a.Length
    ensures ViewOf(a[..], d) == NameStep(base, ViewOf(a[..], c))
  {
    ghost var rest := a[c.ptr..c.top];
    var ptr, hasExt, ext, wildName := NameScan(a, c.ptr, c.top, c.hasExt, c.ext, c.wildName, rest);
    ghost var k := ptr - c.ptr;
    assert a[..ptr] == a[..c.ptr] + rest[..k];
    assert a[ptr..c.top] == rest[k..];
    d := Cursor(ptr, c.top, Name, c.name, ext, c.hasDir, true, hasExt, c.wildDir, wildName);
  }

  /** One character of a name: what reading it adds to the dot, wildcard and end. */
  lemma NameChar(r: seq<char>, i: nat)
    requires i < |r| && r[i] != '/'
    ensures LastDot(r, i + 1) == if r[i] == '.' then i else LastDot(r, i)
    ensures WildIn(r, 0, i + 1) == (WildIn(r, 0, i) || IsWild(r[i]))
    ensures NameEnd(r, i + 1) == NameEnd(r, i)
  {
    if IsWild(r[i]) {
      assert WildIn(r, 0, i + 1);
    }
  }

  /** The inner loop of lines 319-331: reads a name up to the next `/`, noting its last dot
      and whether it holds a wildcard. */
  method NameScan(a: array<char>, from: nat, top: nat, hasExt0: bool, ext0: nat, wild0: bool,
                  ghost rest: seq<char>)
    returns (ptr: nat, hasExt: bool, ext: nat, wild: bool)
    requires from <= top <= a.Length && rest == a[from..top]
    ensures ptr == from + NameEnd(rest, 0)
    ensures hasExt == (hasExt0 || LastDot(rest, ptr - from) >= 0)
    ensures ext == (if LastDot(rest, ptr - from) >= 0 then from + LastDot(rest, ptr - from) else ext0)
    ensures wild == (wild0 || WildIn(rest, 0, ptr - from))
  {
    ptr, hasExt, ext, wild := from, hasExt0, ext0, wild0;
    ghost var i: nat := 0;
    while ptr < top && a[ptr] != '/'
      invariant ptr == from + i && i <= |rest|
      invariant NameEnd(rest, i) == NameEnd(rest, 0)
      invariant hasExt == (hasExt0 || LastDot(rest, i) >= 0)
      invariant ext == (if LastDot(rest, i) >= 0 then from + LastDot(rest, i) else ext0)
      invariant wild == (wild0 || WildIn(rest, 0, i))
      decreases |rest| - i
    {
      var ch := a[ptr];
      assert ch == rest[i];
      NameChar(rest, i);
      if ch == '.' {
        hasExt := true;
        ext := ptr;
      } else if ch == '?' || ch == '*' {
        wild := true;
      }
      ptr, i := ptr + 1, i + 1;
    }
  }


  /** Lines 270-273: a dot only moves the pointer and the state. */
  method DotAt(a: array<char>, c: Cursor, ghost v: Scan) returns (d: Cursor)
    requires c.ptr < c.top <= a.Length && v == ViewOf(a[..], c) && a[c.ptr] == '.'
    ensures d.ptr <= d.top <= a.Length
    ensures ViewOf(a[..], d) == DotStep(v)
  {
    d := c.(ptr := c.ptr + 1,
            state := if c.state == Dot1 then (if c.state == Dot2 then Name else Dot2) else Dot1);
    assert a[..d.ptr] == v.out + ['.'];
  }

  /** One turn of the loop of lines 267-334 on the buffer. */
  method StepAt(a: array<char>, base: nat, c: Cursor, ghost v: Scan) returns (d: Cursor)
    requires c.ptr < c.top <= a.Length && v == ViewOf(a[..], c) && Framed(base, v)
    modifies a
    ensures d.ptr <= d.top <= a.Length
    ensures ViewOf(a[..], d) == Step(base, v)
  {
    if a[c.ptr] == '.' {
      d := DotAt(a, c, v);
    } else if a[c.ptr] == '/' {
      d := SlashAt(a, base, c);
    } else {
      d := NameAt(a, base, c);
    }
  }

  /** The whole scan, lines 265-360, in place on the buffer `a[..top0]`, starting at
      `start` and never reaching before `base`. */
  method CanonScan(a: array<char>, base: nat, start: nat, top0: nat) returns (c: Cursor)
    requires start <= top0 <= a.Length && top0 > base
    requires Wf(base, Start(a[..start], a[start..top0]))
    modifies a
    ensures c.ptr <= c.top <= a.Length
    ensures ViewOf(a[..], c) == Canonical(base, old(a[..start]), old(a[start..top0]))
  {
    ghost var s0 := Start(a[..start], a[start..top0]);
    c := Cursor(start, top0, NoState, start, 0, false, false, false, false, false);
    assert ViewOf(a[..], c) == s0;
    c := ScanLoop(a, base, c);
    c := FinishAt(a, base, c, ViewOf(a[..], c));
  }

  /** The loop of lines 267-334 on the buffer. */
  method ScanLoop(a: array<char>, base: nat, c0: Cursor) returns (c: Cursor)
    requires c0.ptr <= c0.top <= a.Length && Framed(base, ViewOf(a[..], c0))
    modifies a
    ensures c.ptr <= c.top <= a.Length && c.ptr == c.top
    ensures ViewOf(a[..], c) == Run(base, ViewOf(old(a[..]), c0))
  {
    ghost var v := ViewOf(a[..], c0);
    ghost var goal := Run(base, v);
    c := c0;
    while c.ptr < c.top
      invariant c.ptr <= c.top <= a.Length && v == ViewOf(a[..], c)
      invariant Framed(base, v) && Run(base, v) == goal
      decreases |v.rest|
    {
      c := StepAt(a, base, c, v);
      v := Step(base, v);
    }
  }

  /** Lines 336-360 on the buffer. */
  method FinishAt(a: array<char>, base: nat, c0: Cursor, ghost v: Scan) returns (c: Cursor)
    requires c0.ptr == c0.top <= a.Length && base < c0.ptr
    requires v == ViewOf(a[..], c0) && Framed(base, v)
    ensures c.ptr <= c.top <= a.Length
    ensures ViewOf(a[..], c) == Finish(base, v)
  {
    c := c0;
    if c.state == Slash {
      c := c.(hasDir := true);
    } else if c.state == Dot1 {
      c := c.(hasDir := true, top := c.top - 1, ptr := c.ptr - 1);
      assert a[..c.ptr] == v.out[..|v.out| - 1];
    } else if c.state == Dot2 {
      c := ParentAtEnd(a, base, c0, v);
    }
  }

  /** Lines 345-356: a trailing `..` goes with the directory before it. */
  method ParentAtEnd(a: array<char>, base: nat, c0: Cursor, ghost v: Scan) returns (c: Cursor)
    requires c0.ptr == c0.top <= a.Length && base < c0.ptr && c0.state == Dot2
    requires v == ViewOf(a[..], c0) && Framed(base, v)
    ensures c.ptr <= c.top <= a.Length
    ensures ViewOf(a[..], c) == Finish(base, v)
  {
    var del := ClimbBack(a, base, c0.ptr - 3, v.out);
    c := c0.(hasDir := true, ptr := del, top := del, name := del);
    assert a[..del] == v.out[..del];
  }

}
