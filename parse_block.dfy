/** `parse_file` (sr_unix/parse_file.c) as the C code runs it: in place on the buffer of a
    parse block, whose result fields it sets. Each step is proved to leave the buffer and
    the fields as the functions of module `ParsePath` say. */
module ParseBlock {

  import opened Buffers
  import opened ParseScan
  import opened ParsePath

  /** `parse_blk`: the caller's buffer of `buff_size + 1` characters, the options, the
      two default specifications, and the result fields the parse sets. */
  class ParseBlk {
    const buffer: array<char>
    const buffSize: nat
    const fop: Fop
    const def1: seq<char>
    const def2: seq<char>
    var fnb: Fnb
    var lNode: nat
    var bNode: nat
    var lDir: nat
    var bDir: nat
    var lName: nat
    var bName: nat
    var lExt: nat
    var bExt: nat
    var bEsl: nat

    /** The result fields as one value. */
    function Fields(): Blk
      reads this
    {
      Blk(fnb, lNode, bNode, lDir, bDir, lName, bName, lExt, bExt, bEsl)
    }

    /** The buffer holds `buff_size + 1` characters and `buff_size` is at most
        `MAX_FN_LEN` (lines 80-85). */
    predicate Valid()
    {
      buffer.Length == buffSize + 1 && buffSize <= MaxFnLen
    }

    /** A block with cleared result fields, as the default parse gets (lines 90-97). */
    constructor (buffSize: nat, fop: Fop, def1: seq<char>, def2: seq<char>)
      requires buffSize <= MaxFnLen
      ensures Valid() && fresh(buffer) && Fields() == ZeroBlk
      ensures this.buffSize == buffSize && this.fop == fop && this.def1 == def1 && this.def2 == def2
    {
      this.buffer := new char[buffSize + 1](_ => ' ');
      this.buffSize := buffSize;
      this.fop := fop;
      this.def1 := def1;
      this.def2 := def2;
      fnb := NoBits;
      lNode, bNode, lDir, bDir, lName, bName, lExt, bExt, bEsl := 0, 0, 0, 0, 0, 0, 0, 0, 0;
    }
  }

  /** Where the name ended up once the node and the current directory are dealt with:
      `Place` without the text, which the buffer now holds. */
  datatype Spot = NoRoom | Far(at: nat, nodeLen: nat) | Near(base: nat, start: nat, top: nat)

  function SpotOf(p: Placing): Spot
  {
    match p
    case TooLong => NoRoom
    case Remote(at, nodeLen) => Far(at, nodeLen)
    case Local(content, base, start) => Near(base, start, |content|)
  }

  /** `parse_file(file, pblk)`: the status it returns, the fields it sets and the text it
      leaves at the start of the buffer are those of `Parse`. */
  method ParseFile(env: Env, file: seq<char>, pblk: ParseBlk) returns (status: Status)
    requires EnvOk(env) && pblk.Valid()
    modifies pblk, pblk.buffer
    ensures var o := Parse(env, file, pblk.fop, pblk.buffSize, pblk.def1, pblk.def2, old(pblk.Fields()));
            && status == o.status && pblk.Fields() == o.blk
            && (status != ParBufSm ==> |o.content| <= pblk.buffer.Length
                                       && pblk.buffer[..|o.content|] == o.content)
    decreases DefDepth(pblk.def1, pblk.def2)
  {
    pblk.fnb := NoBits;
    var t := env.translate(file);
    if |t| > pblk.buffSize {
      return ParBufSm;
    }
    Put(pblk.buffer, 0, t);
    assert pblk.buffer[..|t|] == t;
    var d := NoDefaults;
    ghost var o1 := Outcome(ParNormal, ZeroBlk, []);
    if |pblk.def1| > 0 {
      o1 := Parse(env, pblk.def1, Fop(true, false), MaxFnLen, pblk.def2, [], ZeroBlk);
      var def := new ParseBlk(MaxFnLen, Fop(true, false), pblk.def2, []);
      var st := ParseFile(env, pblk.def1, def);
      if st != ParNormal {
        return st;
      }
      d := DefaultsIn(def, o1);
    }
    status := PlacedIn(env, pblk, t, d);
  }

  /** Lines 102-105: the parts of the default, read from the default's block. */
  method DefaultsIn(def: ParseBlk, ghost o: Outcome) returns (d: Defaults)
    requires o.status == ParNormal && !o.blk.fnb.node && def.Fields() == o.blk
    requires |o.content| <= def.buffer.Length && def.buffer[..|o.content|] == o.content
    requires Laid(o)
    ensures d == DefaultsOf(o)
  {
    ghost var n := |o.content|;
    var lDir, lName, lExt, bExt := def.lDir, def.lName, def.lExt, def.bExt;
    assert lDir == o.blk.lDir && lName == o.blk.lName && lExt == o.blk.lExt && bExt == o.blk.bExt;
    assert lDir <= lName <= lExt <= lExt + bExt <= n;
    var buf := def.buffer;
    assert buf[..n] == buf[..][..n];
    SliceOfPrefix(buf[..], n, lDir, lName);
    SliceOfPrefix(buf[..], n, lName, lExt);
    SliceOfPrefix(buf[..], n, lExt, lExt + bExt);
    d := Defaults(def.fnb.dir || def.bDir > 0, def.fnb.name || def.bName > 0, def.fnb.ext || bExt > 0,
                  buf[lDir..lName], buf[lName..lExt], buf[lExt..lExt + bExt]);
  }

  /** Lines 107-425 once the buffer holds the translated name `t`. */
  method PlacedIn(env: Env, pblk: ParseBlk, t: seq<char>, d: Defaults) returns (status: Status)
    requires EnvOk(env) && pblk.Valid() && |t| <= pblk.buffSize && pblk.buffer[..|t|] == t
    modifies pblk, pblk.buffer
    ensures var o := Placed(env, pblk.fop, pblk.buffSize, t, d, old(pblk.Fields()));
            && status == o.status && pblk.Fields() == o.blk
            && (status != ParBufSm ==> |o.content| <= pblk.buffer.Length
                                       && pblk.buffer[..|o.content|] == o.content)
  {
    var spot := PlaceIn(env, pblk.buffer, t, pblk.fop.parNode, pblk.buffSize);
    match spot
    case NoRoom =>
      status := ParBufSm;
    case Far(at, nodeLen) =>
      SetRemote(pblk, |t|, at, nodeLen);
      status := ParNormal;
    case Near(base, start, top) =>
      status := LocalIn(env, pblk, base, start, top, d, pblk.buffer[..top]);
  }

  /** Lines 227-237: a remote node keeps the text as it is. */
  method SetRemote(pblk: ParseBlk, len: nat, at: nat, nodeLen: nat)
    requires at + nodeLen <= len
    modifies pblk
    ensures forall t: seq<char> | |t| == len :: pblk.Fields() == RemoteBlk(old(pblk.Fields()), t, at, nodeLen)
  {
    pblk.fnb := NoBits.(node := true);
    pblk.lNode, pblk.bNode := at, nodeLen;
    pblk.lDir, pblk.bDir := at + nodeLen, len - at - nodeLen;
    pblk.lName, pblk.lExt, pblk.bName, pblk.bExt := len, len, 0, 0;
    pblk.bEsl := len - at;
  }

  /** Lines 107-263 on the buffer, which holds `t`: the node is found and, when it is
      this host, removed; the current directory is put in front where `Place` says. */
  method PlaceIn(env: Env, a: array<char>, t: seq<char>, parNode: bool, buffSize: nat) returns (spot: Spot)
    requires EnvOk(env) && |t| <= buffSize && a.Length == buffSize + 1 && a[..|t|] == t
    modifies a
    ensures spot == SpotOf(Place(env, t, parNode, buffSize))
    ensures spot.Near? ==> spot.top <= a.Length && a[..spot.top] == Place(env, t, parNode, buffSize).content
    ensures spot.Far? ==> a[..] == old(a[..])
  {
    if |t| > 0 && a[0] == '/' {
      return Near(0, 0, |t|);
    }
    if !parNode {
      spot := CwdIn(a, 0, |t|, buffSize, env.cwd);
    } else {
      spot := NodeIn(env, a, t, buffSize);
    }
  }

  /** Lines 129-148 when a node may be given: a leading `@` is skipped and the node
      scan run. */
  method NodeIn(env: Env, a: array<char>, t: seq<char>, buffSize: nat) returns (spot: Spot)
    requires EnvOk(env) && |t| <= buffSize && a.Length == buffSize + 1 && a[..|t|] == t
    requires |t| == 0 || t[0] != '/'
    modifies a
    ensures spot == SpotOf(Place(env, t, true, buffSize))
    ensures spot.Near? ==> spot.top <= a.Length && a[..spot.top] == Place(env, t, true, buffSize).content
    ensures spot.Far? ==> a[..] == old(a[..])
  {
    var at := if |t| > 0 && a[0] == '@' then 1 else 0;
    assert a[at..|t|] == t[at..];
    var k := NodeScan(a, at, |t|);
    spot := NodeAt(env, a, t, at, k, buffSize);
  }

  /** Lines 149-263 once the node scan has stopped. */
  method NodeAt(env: Env, a: array<char>, t: seq<char>, at: nat, k: nat, buffSize: nat) returns (spot: Spot)
    requires EnvOk(env) && |t| <= buffSize && a.Length == buffSize + 1 && a[..|t|] == t
    requires at <= 1 && at + k <= |t| && (at == 1 ==> t[0] == '@')
    requires at == 0 ==> |t| == 0 || t[0] != '/'
    requires at + k < |t| ==> 0 < k
    modifies a
    ensures spot == SpotOf(PlaceNode(env, t, at, k, buffSize))
    ensures spot.Near? ==> spot.top <= a.Length && a[..spot.top] == PlaceNode(env, t, at, k, buffSize).content
    ensures spot.Far? ==> a[..] == old(a[..])
  {
    if at + k < |t| {
      spot := NodeFound(env, a, t, at, k, buffSize);
    } else {
      assert a[..|t|] == a[..][..|t|];
      SliceOfPrefix(a[..], |t|, at, |t|);
      assert a[..at] == t[..at] && a[at..at + (|t| - at)] == t[at..];
      spot := CwdIn(a, at, |t| - at, buffSize, env.cwd);
    }
  }

  /** Lines 149-250: the node scan found a node, `k` characters with its `:`. */
  method NodeFound(env: Env, a: array<char>, t: seq<char>, at: nat, k: nat, buffSize: nat) returns (spot: Spot)
    requires EnvOk(env) && |t| <= buffSize && a.Length == buffSize + 1 && a[..|t|] == t
    requires at <= 1 && 0 < k && at + k < |t| && (at == 1 ==> t[0] == '@')
    requires at == 0 ==> t[0] != '/'
    modifies a
    ensures var p := PlaceNode(env, t, at, k, buffSize);
            && spot == SpotOf(p)
            && (spot.Near? ==> spot.top <= a.Length && a[..spot.top] == p.content)
            && (spot.Far? ==> a[..] == old(a[..]))
  {
    assert a[..|t|] == a[..][..|t|];
    SliceOfPrefix(a[..], |t|, at, at + k - 1);
    var query := a[at..at + k - 1];
    if at == 1 || !env.isLocalHost(query) {
      return Far(at, k);
    }
    ghost var r := t[k..];
    ghost var cwd := if r[0] == '/' then [] else env.cwd;
    assert PlaceNode(env, t, at, k, buffSize) ==
           if |cwd| + |r| > buffSize then TooLong else LocalText([], cwd, r);
    spot := DropNode(env, a, t, k, buffSize);
  }

  /** Lines 239-263: the node of this host is removed with its `:`, and the
      current directory goes in front unless a full path follows. */
  method DropNode(env: Env, a: array<char>, t: seq<char>, k: nat, buffSize: nat) returns (spot: Spot)
    requires EnvOk(env) && |t| <= buffSize && a.Length == buffSize + 1 && a[..|t|] == t
    requires 0 < k < |t|
    modifies a
    ensures var r := t[k..];
            var cwd := if r[0] == '/' then [] else env.cwd;
            && spot == (if |cwd| + |r| > buffSize then NoRoom else Near(0, |cwd|, |cwd| + |r|))
            && (spot.Near? ==> a[..spot.top] == cwd + r)
  {
    ghost var r := t[k..];
    assert a[k..|t|] == r;
    Shift(a, k, |t| - k);
    var first := a[0];
    assert first == r[0];
    var cwd := if first == '/' then [] else env.cwd;
    assert a[..0] + cwd + a[0..|r|] == cwd + r;
    spot := CwdIn(a, 0, |t| - k, buffSize, cwd);
  }

  /** Line 241: `memmove` of the `n` characters at `k` to the start of the buffer. */
  method Shift(a: array<char>, k: nat, n: nat)
    requires k + n <= a.Length
    modifies a
    ensures a[0..n] == old(a[k..k + n])
  {
    Move(a, 0, k, n);
  }

  /** Lines 253-263: the `n` characters at `at` get `cwd` in front when the buffer has
      room for both. */
  method CwdIn(a: array<char>, at: nat, n: nat, buffSize: nat, cwd: seq<char>) returns (spot: Spot)
    requires a.Length == buffSize + 1 && at <= 1 && at + n <= a.Length
    modifies a
    ensures spot == (if |cwd| + n > buffSize then NoRoom else Near(at, at + |cwd|, at + |cwd| + n))
    ensures spot.Near? ==> a[..spot.top] == old(a[..at]) + cwd + old(a[at..at + n])
  {
    if |cwd| + n > buffSize {
      return NoRoom;
    }
    Prefix(a, at, cwd, n);
    return Near(at, at + |cwd|, at + |cwd| + n);
  }

  /** The node scan of lines 138-148 over `a[from..top]`. */
  method NodeScan(a: array<char>, from: nat, top: nat) returns (k: nat)
    requires from <= top <= a.Length
    ensures k == NodeEnd(a[from..top], 0)
  {
    ghost var u := a[from..top];
    var i := from;
    while i < top
      invariant from <= i <= top
      invariant NodeEnd(u, i - from) == NodeEnd(u, 0)
    {
      var ch := a[i];
      assert ch == u[i - from];
      if ch == ':' {
        return i + 1 - from;
      }
      if ch == '/' {
        return top - from;
      }
      i := i + 1;
    }
    return top - from;
  }

  /** Lines 256-262: the `n` characters at `at` move up to make room for `prefix`, which
      is copied in front of them. */
  method Prefix(a: array<char>, at: nat, prefix: seq<char>, n: nat)
    requires at + |prefix| + n <= a.Length
    modifies a
    ensures a[..at + |prefix| + n] == old(a[..at]) + prefix + old(a[at..at + n])
  {
    Splice(a, at, at, prefix, n);
  }

  /** `memmove(at + |part|, src, n)` then `memcpy(at, part, |part|)`: `part` followed by
      the `n` characters that stood at `src`, from `at` on. */
  method Splice(a: array<char>, at: nat, src: nat, part: seq<char>, n: nat)
    requires at <= src && src + n <= a.Length && at + |part| + n <= a.Length
    modifies a
    ensures a[..at + |part| + n] == old(a[..at]) + part + old(a[src..src + n])
  {
    Relocate(a, at, at + |part|, src, n);
    ghost var moved := a[..];
    Put(a, at, part);
    assert a[..at + |part| + n] == moved[..at] + part + moved[at + |part|..at + |part| + n];
  }

  /** `memmove(dst, src, n)`: what lies before `keep` stays. */
  method Relocate(a: array<char>, keep: nat, dst: nat, src: nat, n: nat)
    requires keep <= dst && keep <= src && src + n <= a.Length && dst + n <= a.Length
    modifies a
    ensures a[..keep] == old(a[..keep]) && a[dst..dst + n] == old(a[src..src + n])
  {
    ghost var a0 := a[..];
    Move(a, dst, src, n);
    assert a[..keep] == a[..dst][..keep] && a0[..keep] == a0[..dst][..keep];
  }

  /** Lines 265-425 on a local specification whose text, `content`, the buffer holds. */
  method LocalIn(env: Env, pblk: ParseBlk, base: nat, start: nat, top: nat, d: Defaults,
                 ghost content: seq<char>) returns (status: Status)
    requires pblk.Valid() && top <= pblk.buffer.Length && content == pblk.buffer[..top]
    requires base <= 1 && base <= start <= |content| <= pblk.buffSize + base && |content| > base
    requires Wf(base, Start(content[..start], content[start..]))
    modifies pblk, pblk.buffer
    ensures var o := ParseLocal(env, pblk.fop, pblk.buffSize, content, base, start, d, old(pblk.Fields()));
            && status == o.status && pblk.Fields() == o.blk
            && (status != ParBufSm ==> |o.content| <= pblk.buffer.Length
                                       && pblk.buffer[..|o.content|] == o.content)
  {
    var c := ScanIn(pblk.buffer, base, start, top, content);
    status := FinishIn(env, pblk, base, c, Canonical(base, content[..start], content[start..]), d);
  }

  /** Lines 265-360: the scan of the text the buffer holds. */
  method ScanIn(a: array<char>, base: nat, start: nat, top: nat, ghost content: seq<char>) returns (c: Cursor)
    requires top <= a.Length && content == a[..top]
    requires base <= start <= |content| && |content| > base
    requires Wf(base, Start(content[..start], content[start..]))
    modifies a
    ensures c.ptr <= c.top <= a.Length
    ensures ViewOf(a[..], c) == Canonical(base, content[..start], content[start..])
  {
    ghost var a0 := a[..];
    SliceOfPrefix(a0, top, 0, start);
    SliceOfPrefix(a0, top, start, top);
    assert content[..start] == a[..start] && content[start..] == a[start..top];
    c := CanonScan(a, base, start, top);
  }

  /** Lines 361-425 once the scan is over: the defaults, then the directory check. */
  method FinishIn(env: Env, pblk: ParseBlk, base: nat, c: Cursor, ghost s: Scan, d: Defaults)
    returns (status: Status)
    requires pblk.Valid() && c.ptr <= c.top <= pblk.buffer.Length
    requires s == ViewOf(pblk.buffer[..], c)
    requires Final(base, s) && base <= 1 && |s.out| <= pblk.buffSize + base
    modifies pblk, pblk.buffer
    ensures var o := Complete(base, s, d, pblk.buffSize, old(pblk.Fields()));
            var r := if o.status == ParNormal then DirChecked(env, pblk.fop.syntaxOnly, o) else o;
            && status == r.status && pblk.Fields() == r.blk
            && (status != ParBufSm ==> |r.content| <= pblk.buffer.Length
                                       && pblk.buffer[..|r.content|] == r.content)
  {
    ghost var o := Complete(base, s, d, pblk.buffSize, pblk.Fields());
    status := CompleteIn(pblk, base, c, s, d);
    if status == ParNormal {
      status := DirCheck(env, pblk, o);
    }
  }

  /** Lines 361-373: the name from the default where the scan found none. */
  method CompleteIn(pblk: ParseBlk, base: nat, c: Cursor, ghost s: Scan, d: Defaults) returns (status: Status)
    requires pblk.Valid() && c.ptr <= c.top <= pblk.buffer.Length
    requires s == ViewOf(pblk.buffer[..], c)
    requires Final(base, s) && base <= 1 && |s.out| <= pblk.buffSize + base
    modifies pblk, pblk.buffer
    ensures var o := Complete(base, s, d, pblk.buffSize, old(pblk.Fields()));
            && status == o.status && pblk.Fields() == o.blk
            && (status == ParNormal ==> |o.content| <= pblk.buffer.Length
                                        && pblk.buffer[..|o.content|] == o.content)
  {
    var name := if c.hasName then c.name else c.ptr;
    var ptr := c.ptr;
    if !c.hasName && d.hasName {
      var room := PutDefault(pblk.buffer, base, ptr, d.name, pblk.buffSize, s.out);
      if !room {
        return ParBufSm;
      }
      ptr := ptr + |d.name|;
    }
    ghost var c1 := if !s.hasName && d.hasName then s.out + d.name else s.out;
    status := ExtIn(pblk, base, ptr, name, if c.hasExt then c.ext else ptr, !c.hasExt && d.hasExt, d,
                    Fnb(false, c.hasDir, c.hasName, c.hasExt, c.wildName, c.wildDir), c1);
  }

  /** Lines 374-386: the extension from the default where the scan found none. */
  method ExtIn(pblk: ParseBlk, base: nat, ptr: nat, name: nat, ext: nat, useExt: bool, d: Defaults,
               fnb: Fnb, ghost c: seq<char>) returns (status: Status)
    requires pblk.Valid() && ptr <= pblk.buffer.Length && c == pblk.buffer[..ptr]
    requires base <= name <= ext <= |c| <= pblk.buffSize + base && base <= 1
    requires useExt ==> ext == |c|
    modifies pblk, pblk.buffer
    ensures var o := AddExt(base, c, name, ext, useExt, d, fnb, pblk.buffSize, old(pblk.Fields()));
            && status == o.status && pblk.Fields() == o.blk
            && (status == ParNormal ==> |o.content| <= pblk.buffer.Length
                                        && pblk.buffer[..|o.content|] == o.content)
  {
    var top := ptr;
    if useExt {
      var room := PutDefault(pblk.buffer, base, ptr, d.ext, pblk.buffSize, c);
      if !room {
        return ParBufSm;
      }
      top := ptr + |d.ext|;
    }
    ghost var c2 := if useExt then c + d.ext else c;
    status := LayIn(pblk, base, top, name, ext, !fnb.dir && d.hasDir, d.dir, fnb, c2);
  }

  /** Lines 366-371 and 377-382: a part of the default is copied to the end of the text
      when the buffer has room for it counting from `base`. */
  method PutDefault(a: array<char>, base: nat, ptr: nat, part: seq<char>, buffSize: nat,
                    ghost c: seq<char>) returns (room: bool)
    requires a.Length == buffSize + 1 && base <= 1 && base <= ptr <= a.Length && c == a[..ptr]
    modifies a
    ensures room == (|part| + (ptr - base) <= buffSize)
    ensures room ==> a[..ptr + |part|] == c + part
  {
    if |part| + (ptr - base) > buffSize {
      return false;
    }
    Put(a, ptr, part);
    return true;
  }

  /** Lines 387-412: the lengths, the directory from the default when there is room, then
      the offsets and the flags. */
  method LayIn(pblk: ParseBlk, base: nat, ptr: nat, name: nat, ext: nat, useDir: bool, dir: seq<char>,
               fnb: Fnb, ghost c: seq<char>) returns (status: Status)
    requires pblk.Valid() && ptr <= pblk.buffer.Length && c == pblk.buffer[..ptr]
    requires base <= name <= ext <= |c| <= pblk.buffSize + base && base <= 1
    modifies pblk, pblk.buffer
    ensures var o := Lay(base, c, name, ext, useDir, dir, fnb, pblk.buffSize, old(pblk.Fields()));
            && status == o.status && pblk.Fields() == o.blk
            && (status == ParNormal ==> |o.content| <= pblk.buffer.Length
                                        && pblk.buffer[..|o.content|] == o.content)
  {
    var a := pblk.buffer;
    pblk.bName := ext - name;
    pblk.bExt := ptr - ext;
    var name3, ptr3 := name, ptr;
    if useDir {
      if pblk.bName + pblk.bExt + |dir| > pblk.buffSize {
        return ParBufSm;
      }
      DirInto(a, base, name, ptr, dir, c);
      name3 := base + |dir|;
      ptr3 := name3 + pblk.bName + pblk.bExt;
    }
    pblk.fnb := fnb;
    pblk.lDir := base;
    pblk.bDir := name3 - base;
    pblk.lName := name3;
    pblk.lExt := name3 + pblk.bName;
    pblk.bEsl := ptr3 - base;
    status := ParNormal;
  }

  /** Lines 389-402: the name and extension move to follow the default directory, which
      replaces the one the buffer held. */
  method DirInto(a: array<char>, base: nat, name: nat, ptr: nat, dir: seq<char>, ghost c: seq<char>)
    requires base <= name <= ptr <= a.Length && c == a[..ptr]
    requires base + |dir| + (ptr - name) <= a.Length
    modifies a
    ensures a[..base + |dir| + (ptr - name)] == c[..base] + dir + c[name..]
  {
    ghost var a0 := a[..];
    SliceOfPrefix(a0, ptr, 0, base);
    SliceOfPrefix(a0, ptr, name, ptr);
    assert c[..base] == a[..base] && c[name..] == a[name..ptr];
    Splice(a, base, name, dir, ptr - name);
  }

  /** Lines 413-424: the last `/` of the directory is replaced by a NUL while the
      directory is looked up, and by `/` again after. */
  method DirCheck(env: Env, pblk: ParseBlk, ghost o: Outcome) returns (status: Status)
    requires pblk.Valid() && o.status == ParNormal && Laid(o) && pblk.Fields() == o.blk
    requires |o.content| <= pblk.buffer.Length && pblk.buffer[..|o.content|] == o.content
    modifies pblk.buffer
    ensures var r := DirChecked(env, pblk.fop.syntaxOnly, o);
            && status == r.status && pblk.buffer[..|r.content|] == r.content
  {
    var a := pblk.buffer;
    if !pblk.fop.syntaxOnly && !pblk.fnb.wildDir && pblk.bDir > 1 {
      var i := pblk.lName - 1;
      a[i] := 0 as char;
      assert a[pblk.lDir..i] == o.content[o.blk.lDir..i];
      var found := env.isDir(a[pblk.lDir..i]);
      a[i] := '/';
      assert a[..|o.content|] == o.content[..i] + "/" + o.content[i + 1..];
      status := if found then ParNormal else FileNotFnd;
    } else {
      status := ParNormal;
    }
  }
}
