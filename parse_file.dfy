/** `parse_file` (sr_unix/parse_file.c) on values: how a file specification becomes the
    text in the parse buffer and the offsets and flags of the parse block.

    The order of the checks is the order of the C code: the logical-name translation
    first, then the default specification (parsed by the same function with syntax
    checking only), then the node prefix and the current directory, the canonicalising
    scan of module `ParseScan`, the missing parts taken from the default, the offsets
    and flags, and last the directory check. */
module ParsePath {

  import opened ParseScan

  /** `MAX_FN_LEN`: the size of the buffer of the default parse, and the largest
      `buff_size` a caller may pass (line 80). */
  const MaxFnLen: nat := 255

  /** What the parse asks of the outside world: the translation of logical names
      (`trans_log_name`, line 86), the current directory (`setzdir`, line 113), whether a
      node name resolves to this host (the address lookups of lines 166-225) and whether
      a path names a directory (`STAT_FILE`, line 419). */
  datatype Env = Env(translate: seq<char> -> seq<char>, cwd: seq<char>,
                     isLocalHost: seq<char> -> bool, isDir: seq<char> -> bool)

  /** The current directory is absolute and ends in `/` (line 260). */
  predicate EnvOk(env: Env)
  {
    |env.cwd| > 0 && env.cwd[0] == '/' && env.cwd[|env.cwd| - 1] == '/'
  }

  /** The two bits of `fop` the parse reads: `F_SYNTAXO` and `F_PARNODE`. */
  datatype Fop = Fop(syntaxOnly: bool, parNode: bool)

  /** The `fnb` bits: `V_HAS_NODE`, `V_HAS_DIR`, `V_HAS_NAME`, `V_HAS_EXT`,
      `V_WILD_NAME`, `V_WILD_DIR`. */
  datatype Fnb = Fnb(node: bool, dir: bool, name: bool, ext: bool, wildName: bool, wildDir: bool)

  const NoBits := Fnb(false, false, false, false, false, false)

  datatype Status = ParNormal | ParBufSm | FileNotFnd

  /** The result fields of `parse_blk`; the `l_` pointers are offsets into the buffer. */
  datatype Blk = Blk(fnb: Fnb, lNode: nat, bNode: nat, lDir: nat, bDir: nat,
                     lName: nat, bName: nat, lExt: nat, bExt: nat, bEsl: nat)

  /** The block of the default parse, cleared by `memset` (line 90). */
  const ZeroBlk := Blk(NoBits, 0, 0, 0, 0, 0, 0, 0, 0, 0)

  /** What a parse returns: the status, the result fields and the text at the start of
      the buffer. The text is what the parse left there when the status is `ParNormal` or
      `FileNotFnd`; after `ParBufSm` it is empty and carries nothing. */
  datatype Outcome = Outcome(status: Status, blk: Blk, content: seq<char>)

  /** The parts of the default specification and whether each is there (lines 103-105). */
  datatype Defaults = Defaults(hasDir: bool, hasName: bool, hasExt: bool,
                               dir: seq<char>, name: seq<char>, ext: seq<char>)

  const NoDefaults := Defaults(false, false, false, [], [], [])

  /** The parts of a parsed local specification lie one after the other from `lDir`:
      directory, name, extension (lines 403-407). */
  predicate Laid(o: Outcome)
  {
    && o.blk.lName == o.blk.lDir + o.blk.bDir
    && o.blk.lExt == o.blk.lName + o.blk.bName
    && o.blk.bEsl == o.blk.bDir + o.blk.bName + o.blk.bExt
    && o.blk.lDir + o.blk.bEsl <= |o.content|
  }

  /** The directory, name and extension of a parse. */
  function DirOf(o: Outcome): (r: seq<char>)
    requires Laid(o)
    ensures |r| == o.blk.bDir
  {
    o.content[o.blk.lDir..o.blk.lName]
  }

  function NameOf(o: Outcome): (r: seq<char>)
    requires Laid(o)
    ensures |r| == o.blk.bName
  {
    o.content[o.blk.lName..o.blk.lExt]
  }

  function ExtOf(o: Outcome): (r: seq<char>)
    requires Laid(o)
    ensures |r| == o.blk.bExt
  {
    o.content[o.blk.lExt..o.blk.lExt + o.blk.bExt]
  }

  /** Lines 102-105: a part of the default is there when its bit is set or its length is
      not zero. */
  function DefaultsOf(o: Outcome): (d: Defaults)
    requires Laid(o)
    ensures d.hasDir <==> o.blk.fnb.dir || o.blk.bDir > 0
    ensures d.dir == DirOf(o) && d.name == NameOf(o) && d.ext == ExtOf(o)
  {
    Defaults(o.blk.fnb.dir || o.blk.bDir > 0, o.blk.fnb.name || o.blk.bName > 0,
             o.blk.fnb.ext || o.blk.bExt > 0, DirOf(o), NameOf(o), ExtOf(o))
  }

  /** Where the node scan of lines 138-148 stops: just past the first `:`, or at the end
      when a `/` comes first or there is no `:`. */
  function NodeEnd(u: seq<char>, i: nat): (k: nat)
    requires i <= |u|
    ensures i <= k <= |u|
    ensures k < |u| ==> i < k && u[k - 1] == ':'
    ensures k < |u| ==> forall j :: i <= j < k - 1 ==> u[j] != ':' && u[j] != '/'
    decreases |u| - i
  {
    if i == |u| then i
    else if u[i] == ':' then i + 1
    else if u[i] == '/' then |u|
    else NodeEnd(u, i + 1)
  }

  /** Where the translated name `t` goes in the buffer (lines 107-263). */
  datatype Placing =
    | TooLong
      /** A remote node: `at` is 1 after a leading `@`, `nodeLen` counts the `:`. */
    | Remote(at: nat, nodeLen: nat)
      /** The text to scan, the offset of its root `/` and where the scan starts. */
    | Local(content: seq<char>, base: nat, start: nat)

  function Place(env: Env, t: seq<char>, parNode: bool, buffSize: nat): (p: Placing)
    requires EnvOk(env) && |t| <= buffSize
    ensures p.Remote? ==> parNode && p.at + p.nodeLen < |t|
    ensures p.Local? ==> p.base <= 1 && p.base <= p.start <= |p.content| <= buffSize + p.base
    ensures p.Local? ==> Wf(p.base, Start(p.content[..p.start], p.content[p.start..]))
    ensures p.Local? ==> |p.content| > p.base
  {
    if |t| > 0 && t[0] == '/' then
      LocalText([], [], t)
    else if !parNode then
      if |env.cwd| + |t| > buffSize then TooLong else LocalText([], env.cwd, t)
    else
      var at := if |t| > 0 && t[0] == '@' then 1 else 0;
      PlaceNode(env, t, at, NodeEnd(t[at..], 0), buffSize)
  }

  /** Lines 149-263, once the node scan has stopped `k` characters past
      `at`: a node there is remote after `@` or when it is not this host, and is removed
      otherwise; then the current directory goes in front. */
  function PlaceNode(env: Env, t: seq<char>, at: nat, k: nat, buffSize: nat): (p: Placing)
    requires EnvOk(env) && |t| <= buffSize && at <= 1 && at + k <= |t|
    requires at == 1 ==> t[0] == '@'
    requires at == 0 ==> |t| == 0 || t[0] != '/'
    requires at + k < |t| ==> 0 < k
    ensures p.Remote? ==> p.at + p.nodeLen < |t|
    ensures p.Local? ==> p.base <= 1 && p.base <= p.start <= |p.content| <= buffSize + p.base
    ensures p.Local? ==> Wf(p.base, Start(p.content[..p.start], p.content[p.start..]))
    ensures p.Local? ==> |p.content| > p.base
  {
    if at + k < |t| && (at == 1 || !env.isLocalHost(t[at..at + k - 1])) then
      Remote(at, k)
    else if at + k < |t| then
      var r := t[at + k..];
      var cwd := if r[0] == '/' then [] else env.cwd;
      if |cwd| + |r| > buffSize then TooLong else LocalText([], cwd, r)
    else
      var u := t[at..];
      if |env.cwd| + |u| > buffSize then TooLong else LocalText(t[..at], env.cwd, u)
  }

  /** The text `lead + cwd + r` in the buffer, the root `/` just after `lead` and the scan
      starting after `cwd`. */
  function LocalText(lead: seq<char>, cwd: seq<char>, r: seq<char>): (p: Placing)
    requires |lead| <= 1
    requires |cwd| > 0 ==> cwd[0] == '/'
    requires |cwd| == 0 ==> |r| > 0 && r[0] == '/'
    ensures p.Local? && p.base == |lead| && p.start == |lead| + |cwd|
    ensures p.content == lead + cwd + r
    ensures Wf(p.base, Start(p.content[..p.start], p.content[p.start..]))
  {
    var c := lead + cwd + r;
    assert c[..|lead| + |cwd|] == lead + cwd && c[|lead| + |cwd|..] == r;
    Local(c, |lead|, |lead| + |cwd|)
  }

  /** Lines 253-263: without a node, a name that is not a full path gets the current
      directory in front, and a buffer too small for both is an error. */
  lemma CwdPrefix(env: Env, t: seq<char>, buffSize: nat)
    requires EnvOk(env) && |t| <= buffSize
    ensures var full := |t| > 0 && t[0] == '/';
            var p := Place(env, t, false, buffSize);
            && (p.TooLong? <==> !full && |env.cwd| + |t| > buffSize)
            && (p.Local? ==> p.base == 0 && p.content[p.start..] == t
                             && p.content[..p.start] == if full then [] else env.cwd)
  {
  }

  /** Lines 138-148: the node scan stops just past the first `:` when neither `:` nor `/`
      comes before it. */
  lemma {:induction false} NodeAtColon(u: seq<char>, i: nat, j: nat)
    requires i <= j < |u| && u[j] == ':'
    requires forall k :: i <= k < j ==> u[k] != ':' && u[k] != '/'
    ensures NodeEnd(u, i) == j + 1
    decreases j - i
  {
    if i < j {
      NodeAtColon(u, i + 1, j);
    }
  }

  /** Lines 138-148: a `/` before any `:`, or no `:` at all, runs the node scan to the
      end. */
  lemma {:induction false} NoNodeBefore(u: seq<char>, i: nat, j: nat)
    requires i <= j <= |u| && (j < |u| ==> u[j] == '/')
    requires forall k :: i <= k < j ==> u[k] != ':' && u[k] != '/'
    ensures NodeEnd(u, i) == |u|
    decreases j - i
  {
    if i < j {
      NoNodeBefore(u, i + 1, j);
    }
  }

  /** Lines 129-135 and 149-150: after `@` a node is always remote, even one that names
      this host. */
  lemma AtNodeRemote(env: Env, t: seq<char>, buffSize: nat, j: nat)
    requires EnvOk(env) && |t| <= buffSize
    requires |t| > 0 && t[0] == '@' && j + 2 < |t| && t[j + 1] == ':'
    requires forall k :: 1 <= k <= j ==> t[k] != ':' && t[k] != '/'
    ensures Place(env, t, true, buffSize) == Remote(1, j + 1)
  {
    var u := t[1..];
    assert forall k :: 0 <= k < j ==> u[k] == t[k + 1];
    NodeAtColon(u, 0, j);
  }

  /** Lines 149-165 and 224-250: a node that names this host is removed with its `:`, and
      what follows is placed as if no node had been asked for. */
  lemma LocalNodeRemoved(env: Env, t: seq<char>, buffSize: nat, j: nat)
    requires EnvOk(env) && |t| <= buffSize
    requires j + 1 < |t| && t[0] != '@' && t[j] == ':'
    requires forall k :: 0 <= k < j ==> t[k] != ':' && t[k] != '/'
    requires env.isLocalHost(t[..j])
    ensures Place(env, t, true, buffSize) == Place(env, t[j + 1..], false, buffSize)
  {
    NodeAtColon(t, 0, j);
    assert t[0..] == t;
    var r := t[j + 1..];
    assert [] + r == r;
  }

  /** Lines 251-254: text the node scan does not take for a node is placed as if no node
      had been asked for. */
  lemma NoNodeAsPlain(env: Env, t: seq<char>, buffSize: nat)
    requires EnvOk(env) && |t| <= buffSize
    requires (|t| == 0 || t[0] != '@') && NodeEnd(t, 0) == |t|
    ensures Place(env, t, true, buffSize) == Place(env, t, false, buffSize)
  {
    assert t[0..] == t && t[..0] + env.cwd + t == env.cwd + t;
  }

  /** Line 148: a name whose only `:` is its last character holds no node. */
  lemma TrailingColonNotNode(env: Env, t: seq<char>, buffSize: nat)
    requires EnvOk(env) && |t| <= buffSize
    requires |t| > 0 && t[0] != '@' && t[|t| - 1] == ':'
    requires forall k :: 0 <= k < |t| - 1 ==> t[k] != ':' && t[k] != '/'
    ensures Place(env, t, true, buffSize) == Place(env, t, false, buffSize)
  {
    NodeAtColon(t, 0, |t| - 1);
    NoNodeAsPlain(env, t, buffSize);
  }

  /** Lines 142-146: a name with a `/` before any `:` holds no node. */
  lemma SlashFirstNotNode(env: Env, t: seq<char>, buffSize: nat, j: nat)
    requires EnvOk(env) && |t| <= buffSize
    requires j < |t| && t[0] != '@' && t[j] == '/'
    requires forall k :: 0 <= k < j ==> t[k] != ':' && t[k] != '/'
    ensures Place(env, t, true, buffSize) == Place(env, t, false, buffSize)
  {
    NoNodeBefore(t, 0, j);
    NoNodeAsPlain(env, t, buffSize);
  }

  /** Lines 129-135 and 251-263: after `@` without a node, the `@` stays in front of the
      buffer and the current directory goes between it and the rest, even before a full
      path. The scan starts after the prefix, so a directory ending in `/` followed by the
      user's `/` keeps both slashes. */
  lemma AtWithoutNode(env: Env, t: seq<char>, buffSize: nat, j: nat)
    requires EnvOk(env) && |t| <= buffSize
    requires |t| > 0 && t[0] == '@' && 1 <= j <= |t| && (j < |t| ==> t[j] == '/')
    requires forall k :: 1 <= k < j ==> t[k] != ':' && t[k] != '/'
    ensures Place(env, t, true, buffSize) ==
            if |env.cwd| + |t| - 1 > buffSize then TooLong
            else Local("@" + env.cwd + t[1..], 1, 1 + |env.cwd|)
  {
    var u := t[1..];
    assert forall k :: 0 <= k < j - 1 ==> u[k] == t[k + 1];
    NoNodeBefore(u, 0, j - 1);
    assert t[..1] == "@";
  }

  /** Lines 227-237: a remote node keeps the text as it is, the node with its `:` first
      and all the rest as the directory; no defaults and no name or extension. */
  function RemoteBlk(blk0: Blk, t: seq<char>, at: nat, nodeLen: nat): (b: Blk)
    requires at + nodeLen <= |t|
    ensures b.bEsl == b.bNode + b.bDir && b.bName == 0 && b.bExt == 0
    ensures b.lDir + b.bDir == |t| && b.fnb == NoBits.(node := true)
  {
    blk0.(fnb := NoBits.(node := true), lNode := at, bNode := nodeLen,
          lDir := at + nodeLen, bDir := |t| - at - nodeLen,
          lName := |t|, lExt := |t|, bName := 0, bExt := 0, bEsl := |t| - at)
  }

  /** Lines 361-373: the missing name comes from the default when the scan found none
      and the default has one, and only when the buffer has room; `AddExt` does the
      rest. */
  function Complete(base: nat, s: Scan, d: Defaults, buffSize: nat, blk0: Blk): (o: Outcome)
    requires Final(base, s) && base <= 1 && |s.out| <= buffSize + base
    ensures o.status != FileNotFnd
    ensures o.status == ParNormal ==> Laid(o) && o.blk.lDir == base && |o.content| <= buffSize + 1
    ensures o.status == ParNormal ==> o.blk.bEsl <= buffSize
    ensures o.status == ParNormal ==>
      o.blk.fnb == Fnb(false, s.hasDir, s.hasName, s.hasExt, s.wildName, s.wildDir)
    ensures o.status == ParBufSm ==>
      (!s.hasName && d.hasName) || (!s.hasExt && d.hasExt) || (!s.hasDir && d.hasDir)
  {
    var name := NamePos(base, s);
    var useName := !s.hasName && d.hasName;
    if useName && |d.name| + (name - base) > buffSize then
      Outcome(ParBufSm, blk0, [])
    else
      var c1 := if useName then s.out + d.name else s.out;
      AddExt(base, c1, name, if s.hasExt then s.ext else |c1|, !s.hasExt && d.hasExt, d,
             Fnb(false, s.hasDir, s.hasName, s.hasExt, s.wildName, s.wildDir), buffSize, blk0)
  }

  /** Lines 374-386: the missing extension comes from the default in the same way, at the
      end of the text; `Lay` does the rest, with the default directory when the scan
      found none. */
  function AddExt(base: nat, c: seq<char>, name: nat, ext: nat, useExt: bool, d: Defaults, fnb: Fnb,
                  buffSize: nat, blk0: Blk): (o: Outcome)
    requires base <= name <= ext <= |c| <= buffSize + base && base <= 1
    requires useExt ==> ext == |c|
    ensures o.status != FileNotFnd
    ensures o.status == ParNormal ==>
      Laid(o) && o.blk.lDir == base && o.blk.fnb == fnb && |o.content| <= buffSize + 1
    ensures o.status == ParNormal ==> o.blk.bEsl <= buffSize
    ensures o.status == ParBufSm ==> useExt || (!fnb.dir && d.hasDir)
  {
    if useExt && |d.ext| + (ext - base) > buffSize then
      Outcome(ParBufSm, blk0, [])
    else
      Lay(base, if useExt then c + d.ext else c, name, ext, !fnb.dir && d.hasDir, d.dir, fnb, buffSize, blk0)
  }

  /** Lines 387-412: the lengths of name and extension are set; the missing directory
      comes from the default when there is room, the name and extension moving to follow
      it; then the offsets and the flags are set. */
  function Lay(base: nat, c: seq<char>, name: nat, ext: nat, useDir: bool, dir: seq<char>,
               fnb: Fnb, buffSize: nat, blk0: Blk): (o: Outcome)
    requires base <= name <= ext <= |c| <= buffSize + base && base <= 1
    ensures o.status != FileNotFnd
    ensures o.status == ParNormal ==>
      Laid(o) && o.blk.lDir == base && o.blk.fnb == fnb && |o.content| <= buffSize + 1
    ensures o.status == ParNormal ==> o.blk.bEsl <= buffSize
    ensures o.status == ParBufSm ==> useDir
    ensures o.status == ParBufSm ==>
      o.blk.bName == ext - name && o.blk.bExt == |c| - ext &&
      o.blk.(bName := blk0.bName, bExt := blk0.bExt) == blk0
  {
    var bName := ext - name;
    var bExt := |c| - ext;
    if useDir && bName + bExt + |dir| > buffSize then
      Outcome(ParBufSm, blk0.(bName := bName, bExt := bExt), [])
    else
      var c3 := if useDir then c[..base] + dir + c[name..] else c;
      var name3 := if useDir then base + |dir| else name;
      var blk := blk0.(fnb := fnb, lDir := base, bDir := name3 - base, lName := name3, bName := bName,
                       lExt := name3 + bName, bExt := bExt, bEsl := |c3| - base);
      Outcome(ParNormal, blk, c3)
  }

  /** Lines 413-424: without `F_SYNTAXO` and without a wildcard in the directory, a
      directory longer than `/` must exist. Its last character is replaced by a NUL for the
      `stat` and then by `/` again. */
  function DirChecked(env: Env, syntaxOnly: bool, o: Outcome): (r: Outcome)
    requires o.status == ParNormal && Laid(o)
    ensures r.blk == o.blk && |r.content| == |o.content|
    ensures r.status == FileNotFnd <==>
      !syntaxOnly && !o.blk.fnb.wildDir && o.blk.bDir > 1
      && !env.isDir(o.content[o.blk.lDir..o.blk.lName - 1])
    ensures r.status != FileNotFnd ==> r.status == ParNormal
    ensures forall k :: 0 <= k < |r.content| && k != o.blk.lName - 1 ==> r.content[k] == o.content[k]
    ensures r.content != o.content ==>
      o.blk.bDir > 1 && r.content[o.blk.lName - 1] == '/' != o.content[o.blk.lName - 1]
  {
    if !syntaxOnly && !o.blk.fnb.wildDir && o.blk.bDir > 1 then
      var i := o.blk.lName - 1;
      var c := o.content[..i] + "/" + o.content[i + 1..];
      Outcome(if env.isDir(o.content[o.blk.lDir..i]) then ParNormal else FileNotFnd, o.blk, c)
    else
      o
  }

  /** The parse once the name is translated and the default is known (lines 107-425). */
  function Placed(env: Env, fop: Fop, buffSize: nat, t: seq<char>, d: Defaults, blk1: Blk): (o: Outcome)
    requires EnvOk(env) && |t| <= buffSize
    ensures o.status == ParNormal && !o.blk.fnb.node ==> Laid(o)
    ensures o.status == ParNormal && o.blk.fnb.node ==>
      && fop.parNode && o.blk.bEsl == o.blk.bNode + o.blk.bDir
      && o.blk.bName == 0 && o.blk.bExt == 0 && o.blk.lDir + o.blk.bDir == |o.content|
    ensures o.status != ParBufSm ==> |o.content| <= buffSize + 1
    ensures o.status == ParNormal ==> o.blk.bEsl <= buffSize
    ensures o.status == FileNotFnd ==> !fop.syntaxOnly
  {
    match Place(env, t, fop.parNode, buffSize)
    case TooLong => Outcome(ParBufSm, blk1, [])
    case Remote(at, nodeLen) => Outcome(ParNormal, RemoteBlk(blk1, t, at, nodeLen), t)
    case Local(content, base, start) => ParseLocal(env, fop, buffSize, content, base, start, d, blk1)
  }

  /** Lines 265-425 on a local specification: scan, complete, check the directory. */
  function ParseLocal(env: Env, fop: Fop, buffSize: nat, content: seq<char>, base: nat, start: nat,
                      d: Defaults, blk1: Blk): (o: Outcome)
    requires base <= 1 && base <= start <= |content| <= buffSize + base && |content| > base
    requires Wf(base, Start(content[..start], content[start..]))
    ensures o.status == ParNormal ==> Laid(o) && !o.blk.fnb.node
    ensures o.status != ParBufSm ==> |o.content| <= buffSize + 1
    ensures o.status == ParNormal ==> o.blk.bEsl <= buffSize
    ensures o.status == FileNotFnd ==> !fop.syntaxOnly
  {
    assert |content[..start]| + |content[start..]| == |content|;
    var s := Canonical(base, content[..start], content[start..]);
    var o2 := Complete(base, s, d, buffSize, blk1);
    if o2.status == ParNormal then DirChecked(env, fop.syntaxOnly, o2) else o2
  }

  /** How many default parses lie below this one: the default parse gets the second
      default as its own first and none as its second (lines 93-97). */
  function DefDepth(def1: seq<char>, def2: seq<char>): nat
  {
    (if |def1| > 0 then 1 else 0) + (if |def2| > 0 then 1 else 0)
  }

  /** `parse_file(file, pblk)`, with the fields of `pblk` before the call as `blk0`. */
  function Parse(env: Env, file: seq<char>, fop: Fop, buffSize: nat, def1: seq<char>, def2: seq<char>,
                 blk0: Blk): (o: Outcome)
    requires EnvOk(env) && buffSize <= MaxFnLen
    ensures o.status == ParNormal && !o.blk.fnb.node ==> Laid(o)
    ensures o.status == ParNormal && o.blk.fnb.node ==>
      && fop.parNode && o.blk.bEsl == o.blk.bNode + o.blk.bDir
      && o.blk.bName == 0 && o.blk.bExt == 0 && o.blk.lDir + o.blk.bDir == |o.content|
    ensures o.status != ParBufSm ==> |o.content| <= buffSize + 1
    ensures o.status == ParNormal ==> o.blk.bEsl <= buffSize
    ensures |env.translate(file)| > buffSize ==> o.status == ParBufSm
    ensures o.status == FileNotFnd ==> !fop.syntaxOnly
    decreases DefDepth(def1, def2)
  {
    var blk1 := blk0.(fnb := NoBits);
    var t := env.translate(file);
    if |t| > buffSize then
      Outcome(ParBufSm, blk1, [])
    else
      var o1 := if |def1| > 0 then Parse(env, def1, Fop(true, false), MaxFnLen, def2, [], ZeroBlk)
                else Outcome(ParNormal, ZeroBlk, []);
      if o1.status != ParNormal then
        Outcome(o1.status, blk1, [])
      else
        var d := if |def1| > 0 then DefaultsOf(o1) else NoDefaults;
        Placed(env, fop, buffSize, t, d, blk1)
  }

  /** No `/` in `c`. */
  predicate NoSlash(c: seq<char>)
  {
    forall k :: 0 <= k < |c| ==> c[k] != '/'
  }

  /** An extension is empty, or a `.` followed by neither `.` nor `/`. */
  predicate ExtOk(c: seq<char>)
  {
    && NoSlash(c)
    && (|c| > 0 ==> c[0] == '.')
    && forall k :: 0 < k < |c| ==> c[k] != '.'
  }

  /** How every local parse lays out its result: the directory starts at the root `/`,
      the name holds no `/`, the extension starts at the name's last dot. */
  predicate Split(o: Outcome)
  {
    && Laid(o)
    && o.blk.bDir > 0 && o.content[o.blk.lDir] == '/'
    && NoSlash(NameOf(o)) && ExtOk(ExtOf(o))
  }

  /** The same of the parts of a default. */
  predicate DefaultsOk(d: Defaults)
  {
    && (d.hasDir ==> |d.dir| > 0 && d.dir[0] == '/')
    && NoSlash(d.name) && ExtOk(d.ext)
  }

  lemma DefaultsOfOk(o: Outcome)
    requires Split(o)
    ensures DefaultsOk(DefaultsOf(o))
  {
  }

  /** Where the name starts once the scan is over: where the scan found it, or at the
      end (line 364). */
  function NamePos(base: nat, s: Scan): (n: nat)
    requires Final(base, s)
    ensures base < n <= |s.out|
  {
    if s.hasName then s.name else |s.out|
  }

  /** Each part as the scan found it, or else as the default has it, or else empty. */
  function ChosenName(base: nat, s: Scan, d: Defaults): seq<char>
    requires Final(base, s)
  {
    if s.hasName then s.out[s.name..if s.hasExt then s.ext else |s.out|]
    else if d.hasName then d.name
    else []
  }

  function ChosenExt(base: nat, s: Scan, d: Defaults): seq<char>
    requires Final(base, s)
  {
    if s.hasExt then s.out[s.ext..] else if d.hasExt then d.ext else []
  }

  function ChosenDir(base: nat, s: Scan, d: Defaults): seq<char>
    requires Final(base, s)
  {
    if !s.hasDir && d.hasDir then d.dir else s.out[base..NamePos(base, s)]
  }

  /** The buffer before the directory default (lines 361-388): the directory as the scan
      left it, then the chosen name, then the chosen extension. */
  lemma NameExtParts(base: nat, s: Scan, d: Defaults)
    requires Final(base, s)
    ensures var name := NamePos(base, s);
            var c1 := if !s.hasName && d.hasName then s.out + d.name else s.out;
            var ext := if s.hasExt then s.ext else |c1|;
            var c2 := if !s.hasExt && d.hasExt then c1 + d.ext else c1;
            && name <= ext <= |c2| && c2[base..name] == s.out[base..name]
            && c2[name..ext] == ChosenName(base, s, d) && c2[ext..] == ChosenExt(base, s, d)
  {
    var name := NamePos(base, s);
    var c1 := if !s.hasName && d.hasName then s.out + d.name else s.out;
    var ext := if s.hasExt then s.ext else |c1|;
    var c2 := if !s.hasExt && d.hasExt then c1 + d.ext else c1;
    assert c2[base..name] == s.out[base..name];
    if s.hasName {
      assert c2[name..ext] == s.out[name..ext];
    } else {
      assert c2[name..ext] == c1[|s.out|..];
    }
    if s.hasExt {
      assert c2[ext..] == s.out[ext..];
    } else {
      assert c2[ext..] == c2[|c1|..];
    }
  }

  /** Where `Lay` puts each part: the directory from the default or as it was, then the
      name and the extension as they were. */
  lemma LayParts(base: nat, c: seq<char>, name: nat, ext: nat, useDir: bool, dir: seq<char>,
                 fnb: Fnb, buffSize: nat, blk0: Blk)
    requires base <= name <= ext <= |c| <= buffSize + base && base <= 1
    ensures var o := Lay(base, c, name, ext, useDir, dir, fnb, buffSize, blk0);
            o.status == ParNormal ==>
            && DirOf(o) == (if useDir then dir else c[base..name])
            && NameOf(o) == c[name..ext] && ExtOf(o) == c[ext..]
  {
    var o := Lay(base, c, name, ext, useDir, dir, fnb, buffSize, blk0);
    if o.status == ParNormal {
      if useDir {
        var p := c[..base] + dir;
        var q := c[name..];
        assert o.content == p + q && |p| == base + |dir|;
        SliceOfTail(p, q, 0, ext - name);
        SliceOfTail(p, q, ext - name, |q|);
        assert q[0..ext - name] == c[name..ext] && q[ext - name..|q|] == c[ext..];
        assert DirOf(o) == dir;
      }
    }
  }

  /** Lines 361-402: each part is taken from the default only when the scan found none,
      and the scan's own parts are kept as they were. */
  lemma CompleteParts(base: nat, s: Scan, d: Defaults, buffSize: nat, blk0: Blk)
    requires Final(base, s) && base <= 1 && |s.out| <= buffSize + base
    ensures var o := Complete(base, s, d, buffSize, blk0);
            o.status == ParNormal ==>
            && DirOf(o) == ChosenDir(base, s, d)
            && NameOf(o) == ChosenName(base, s, d) && ExtOf(o) == ChosenExt(base, s, d)
  {
    var name := NamePos(base, s);
    var c1 := if !s.hasName && d.hasName then s.out + d.name else s.out;
    var ext := if s.hasExt then s.ext else |c1|;
    var c2 := if !s.hasExt && d.hasExt then c1 + d.ext else c1;
    NameExtParts(base, s, d);
    if |c2| <= buffSize + base {
      LayParts(base, c2, name, ext, !s.hasDir && d.hasDir, d.dir,
               Fnb(false, s.hasDir, s.hasName, s.hasExt, s.wildName, s.wildDir), buffSize, blk0);
    }
  }

  /** The chosen parts are shaped as `Split` says when the default's are. */
  lemma ChosenOk(base: nat, s: Scan, d: Defaults)
    requires Final(base, s) && DefaultsOk(d)
    ensures var dir := ChosenDir(base, s, d);
            |dir| > 0 && dir[0] == '/' && NoSlash(ChosenName(base, s, d)) && ExtOk(ChosenExt(base, s, d))
  {
  }

  /** Every part `Complete` leaves is laid out as `Split` says, given a default that is. */
  lemma CompleteSplit(base: nat, s: Scan, d: Defaults, buffSize: nat, blk0: Blk)
    requires Final(base, s) && base <= 1 && |s.out| <= buffSize + base && DefaultsOk(d)
    ensures Complete(base, s, d, buffSize, blk0).status == ParNormal ==>
            Split(Complete(base, s, d, buffSize, blk0))
  {
    CompleteParts(base, s, d, buffSize, blk0);
    ChosenOk(base, s, d);
    var o := Complete(base, s, d, buffSize, blk0);
    if o.status == ParNormal {
      assert o.content[o.blk.lDir] == DirOf(o)[0];
    }
  }

  lemma SliceOfTail(p: seq<char>, q: seq<char>, i: nat, j: nat)
    requires i <= j <= |q|
    ensures (p + q)[|p| + i..|p| + j] == q[i..j]
  {
  }

  /** The directory check touches only the last character of the directory. */
  lemma DirCheckedSplit(env: Env, syntaxOnly: bool, o: Outcome)
    requires o.status == ParNormal && Split(o)
    ensures Split(DirChecked(env, syntaxOnly, o))
  {
    var r := DirChecked(env, syntaxOnly, o);
    if r != o {
      var i := o.blk.lName - 1;
      assert r.content == o.content[..i] + "/" + o.content[i + 1..];
      assert r.content[o.blk.lName..] == o.content[o.blk.lName..];
      assert NameOf(r) == NameOf(o) && ExtOf(r) == ExtOf(o);
    }
  }

  /** A local parse that succeeds is laid out as `Split` says, whichever parts came from
      the default: the default parse is one, by the same argument one level down. */
  lemma {:induction false} ParseSplit(env: Env, file: seq<char>, fop: Fop, buffSize: nat,
                                      def1: seq<char>, def2: seq<char>, blk0: Blk)
    requires EnvOk(env) && buffSize <= MaxFnLen
    ensures var o := Parse(env, file, fop, buffSize, def1, def2, blk0);
            o.status == ParNormal && !o.blk.fnb.node ==> Split(o)
    decreases DefDepth(def1, def2)
  {
    var t := env.translate(file);
    if |t| <= buffSize {
      var o1 := if |def1| > 0 then Parse(env, def1, Fop(true, false), MaxFnLen, def2, [], ZeroBlk)
                else Outcome(ParNormal, ZeroBlk, []);
      if o1.status == ParNormal {
        if |def1| > 0 {
          ParseSplit(env, def1, Fop(true, false), MaxFnLen, def2, [], ZeroBlk);
          assert !o1.blk.fnb.node;
          DefaultsOfOk(o1);
        }
        var d := if |def1| > 0 then DefaultsOf(o1) else NoDefaults;
        PlacedSplit(env, fop, buffSize, t, d, blk0.(fnb := NoBits));
      }
    }
  }

  lemma PlacedSplit(env: Env, fop: Fop, buffSize: nat, t: seq<char>, d: Defaults, blk1: Blk)
    requires EnvOk(env) && |t| <= buffSize && DefaultsOk(d)
    ensures var o := Placed(env, fop, buffSize, t, d, blk1);
            o.status == ParNormal && !o.blk.fnb.node ==> Split(o)
  {
    match Place(env, t, fop.parNode, buffSize)
    case TooLong =>
    case Remote(at, nodeLen) =>
    case Local(content, base, start) =>
      assert |content[..start]| + |content[start..]| == |content|;
      var s := Canonical(base, content[..start], content[start..]);
      CompleteSplit(base, s, d, buffSize, blk1);
      var o2 := Complete(base, s, d, buffSize, blk1);
      if o2.status == ParNormal {
        DirCheckedSplit(env, fop.syntaxOnly, o2);
      }
  }
}
