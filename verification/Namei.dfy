/** The in-place canonicaliser of src/filesystems/vfs_namei.c: a growing result buffer, a
    buffer of unread bytes and a splice buffer for link targets. */
module Namei {
  import opened Common
  import opened CText
  import opened NameiSpec

  /** A buffer holds a C string from index i up to its terminator. */
  ghost predicate Terminated(a: array<char>, i: nat, nul: nat)
    reads a
  {
    i <= nul < a.Length && a[nul] == '\0' && NulFree(a[i..nul])
  }

  /** The first dest bytes spell the stack, possibly with a separator behind it. */
  ghost predicate Spells(text: string, stack: seq<string>) {
    (stack != [] && text == Joined(stack)) || text == Joined(stack) + "/"
  }

  /** empty_path (lines 38-45). */
  method EmptyPath(a: array<char>, i: nat, ghost nul: nat) returns (empty: bool)
    requires Terminated(a, i, nul)
    ensures empty == OnlySlashes(a[i..nul])
  {
    var p := i;
    while a[p] != '\0'
      invariant i <= p <= nul
      invariant forall k :: i <= k < p ==> a[k] == '/'
      decreases nul - p
    {
      assert a[p] == a[i..nul][p - i];
      if a[p] != '/' {
        return false;
      }
      p := p + 1;
    }
    return true;
  }

  /** Skip separators, then find the end of the component (lines 94-100). */
  method NextComponent(a: array<char>, i: nat, ghost nul: nat) returns (start: nat, end: nat)
    requires Terminated(a, i, nul)
    ensures i <= start <= end <= nul
    ensures a[start..nul] == SkipSlashes(a[i..nul])
    ensures end - start == ComponentLength(a[start..nul])
  {
    start := i;
    while a[start] == '/'
      invariant i <= start <= nul
      invariant SkipSlashes(a[start..nul]) == SkipSlashes(a[i..nul])
      decreases nul - start
    {
      assert a[start..nul][1..] == a[start + 1..nul];
      start := start + 1;
    }
    end := start;
    while a[end] != '\0' && a[end] != '/'
      invariant start <= end <= nul
      invariant end - start + ComponentLength(a[end..nul]) == ComponentLength(a[start..nul])
      decreases nul - end
    {
      assert a[end..nul][1..] == a[end + 1..nul];
      end := end + 1;
    }
    if end < nul {
      assert a[end] in a[i..nul];
    }
  }

  /** `while ((--dest)[-1] != '/');` stops right behind the separator at index k. */
  method BackUp(rpath: array<char>, dest: nat, ghost k: nat) returns (d: nat)
    requires k + 1 < dest <= rpath.Length
    requires rpath[k] == '/' && forall j :: k < j < dest - 1 ==> rpath[j] != '/'
    ensures d == k + 1
  {
    d := dest - 1;
    while rpath[d - 1] != '/'
      invariant k < d < dest
      decreases d
    {
      d := d - 1;
    }
  }

  lemma Popped(text: string, stack: seq<string>)
    requires ValidStack(stack) && Spells(text, stack)
    ensures stack == [] <==> |text| <= 1
    ensures stack != [] ==>
              var k := |Joined(Init(stack))|;
              && k + 1 < |text| && text[k] == '/'
              && (forall j :: k < j < |text| - 1 ==> text[j] != '/')
              && text[..k + 1] == Joined(Init(stack)) + "/"
  {
    if stack != [] {
      var pre, c := Joined(Init(stack)), Last(stack);
      assert ValidComponent(c);
      var k := |pre|;
      assert Joined(stack) == pre + "/" + c;
      assert text[k] == '/' && text[..k + 1] == pre + "/";
      forall j | k < j < |text| - 1 ensures text[j] != '/' {
        assert text[j] == c[j - k - 1];
        assert text[j] in c;
      }
    }
  }

  /** `..`, and the way back from a relative link: drop the last component unless at root. */
  method Parent(rpath: array<char>, dest: nat, ghost stack: seq<string>) returns (d: nat)
    requires dest <= rpath.Length
    requires ValidStack(stack) && Spells(rpath[..dest], stack)
    ensures 1 <= d <= dest && Spells(rpath[..d], Pop(stack))
  {
    ghost var text := rpath[..dest];
    Popped(text, stack);
    d := dest;
    if dest > 1 {
      ghost var k := |Joined(Init(stack))|;
      d := BackUp(rpath, dest, k);
      assert rpath[..d] == text[..k + 1];
    }
  }

  /** Realloc by at least PATH_MAX when need more bytes and a terminator do not fit behind d
      (lines 118-131). */
  method MakeRoom(rpath: array<char>, d: nat, need: nat) returns (r: array<char>)
    requires d <= rpath.Length
    ensures d + need < r.Length && r.Length >= rpath.Length
    ensures r == rpath || (fresh(r) && r[..d] == rpath[..d])
  {
    r := rpath;
    if d + need >= rpath.Length {
      var newSize := rpath.Length;
      if need + 1 > PATH_MAX {
        newSize := newSize + need + 1;
      } else {
        newSize := newSize + PATH_MAX;
      }
      r := new char[newSize];
      MemMove(r, 0, rpath, 0, rpath.Length);
    }
  }

  /** Append one component, growing the buffer when it would not fit (lines 114-135). */
  method Append(rpath: array<char>, dest: nat, src: array<char>, start: nat, end: nat, ghost stack: seq<string>)
    returns (r: array<char>, d: nat)
    requires 1 <= dest < rpath.Length && rpath.Length >= PATH_MAX
    requires start <= end <= src.Length && src != rpath
    requires ValidStack(stack) && Spells(rpath[..dest], stack)
    requires ValidComponent(src[start..end])
    modifies rpath
    ensures r == rpath || fresh(r)
    ensures dest < d < r.Length && r.Length >= PATH_MAX
    ensures r[..d] == Render(stack + [src[start..end]]) && r[d] == '\0'
  {
    ghost var c := src[start..end];
    RenderMore(stack, c);
    ghost var goal := Render(stack + [c]);
    ghost var head := Joined(stack) + "/";
    d := AddSlash(rpath, dest, stack);
    r, d := AppendBytes(rpath, d, src, start, end, head, c);
    assert r[..d] == goal;
  }

  /** The bytes of a component behind d, in a buffer that is large enough (lines 118-135). */
  method AppendBytes(rpath: array<char>, d0: nat, src: array<char>, start: nat, end: nat, ghost head: string, ghost c: string)
    returns (r: array<char>, d: nat)
    requires d0 <= rpath.Length && rpath.Length >= PATH_MAX && src != rpath && start <= end <= src.Length
    requires rpath[..d0] == head && src[start..end] == c
    modifies rpath
    ensures r == rpath || fresh(r)
    ensures d == d0 + |c| < r.Length && r.Length >= PATH_MAX && r[..d] == head + c && r[d] == '\0' && src[start..end] == c
  {
    r := MakeRoom(rpath, d0, end - start);
    assert r[..d0] == head && src[start..start + (end - start)] == c;
    CopyBehind(r, d0, src, start, end - start);
    d := d0 + (end - start);
  }

  /** A separator behind the result, unless there is one (lines 115-116). */
  method AddSlash(rpath: array<char>, dest: nat, ghost stack: seq<string>) returns (d: nat)
    requires 1 <= dest < rpath.Length && ValidStack(stack) && Spells(rpath[..dest], stack)
    modifies rpath
    ensures dest <= d <= dest + 1 && rpath[..d] == Joined(stack) + "/"
  {
    SlashBehind(rpath[..dest], stack);
    d := dest;
    if rpath[d - 1] != '/' {
      rpath[d] := '/';
      d := d + 1;
    }
  }

  lemma RenderMore(stack: seq<string>, c: string)
    ensures Render(stack + [c]) == Joined(stack) + "/" + c
  {
    assert Init(stack + [c]) == stack;
  }

  /** okfs_mempcpy and the terminator behind it (lines 134-135). */
  method CopyBehind(r: array<char>, d: nat, src: array<char>, start: nat, n: nat)
    requires d + n < r.Length && start + n <= src.Length && src != r
    modifies r
    ensures r[..d + n] == old(r[..d]) + old(src[start..start + n]) && r[d + n] == '\0'
  {
    MemMove(r, d, src, start, n);
    assert r[..d + n] == old(r[..d]) + old(src[start..start + n]);
    r[d + n] := '\0';
  }

  lemma SlashBehind(text: string, stack: seq<string>)
    requires ValidStack(stack) && Spells(text, stack)
    ensures text != "" && (if text[|text| - 1] == '/' then text == Joined(stack) + "/" else text == Joined(stack))
  {
    if stack != [] {
      var last := Last(stack);
      assert ValidComponent(last);
      assert last[|last| - 1] in last;
    }
  }

  /** Put the target, n bytes of buf, in front of the unread rest, which may already live in the
      splice buffer (lines 164-173). */
  method Splice(extra: array<char>, src: array<char>, end: nat, len: nat, buf: array<char>, n: nat)
    requires Terminated(src, end, end + len) && n <= buf.Length && buf != extra
    requires extra.Length == PATH_MAX && n + len < PATH_MAX
    requires NulFree(buf[..n])
    modifies extra
    ensures Terminated(extra, 0, n + len)
    ensures extra[..n + len] == old(buf[..n]) + old(src[end..end + len])
  {
    ghost var rest, target, e0 := src[end..end + len], buf[..n], extra[..];
    assert src[end..end + len + 1] == rest + ['\0'];
    MemMove(extra, n, src, end, len + 1);
    ghost var e1 := extra[..];
    MemMove(extra, 0, buf, 0, n);
    Spliced(e0, e1, extra[..], target, rest);
    assert extra[..n + len] == extra[..][..n + len];
  }

  /** The rest put behind n bytes, then the target in front of it. */
  lemma Spliced(e0: string, e1: string, e2: string, target: string, rest: string)
    requires |target| + |rest| < |e0| && NulFree(target) && NulFree(rest)
    requires e1 == e0[..|target|] + (rest + ['\0']) + e0[|target| + |rest| + 1..]
    requires e2 == e1[..0] + target + e1[|target|..]
    ensures |e2| == |e0| && e2[..|target| + |rest|] == target + rest && e2[|target| + |rest|] == '\0'
    ensures NulFree(e2[..|target| + |rest|])
  {
  }

  /** strlen. */
  method StrLen(a: array<char>, i: nat, ghost nul: nat) returns (len: nat)
    requires Terminated(a, i, nul)
    ensures len == nul - i
  {
    len := 0;
    while a[i + len] != '\0'
      invariant i + len <= nul
      decreases nul - len
    {
      len := len + 1;
    }
  }

  /** Splice a link's target in front of the unread rest and step back to the directory it
      is resolved from (lines 164-182). */
  method FollowLink(rpath: array<char>, dest: nat, extra: array<char>, src: array<char>, end: nat, len: nat,
                    buf: array<char>, n: nat, ghost stack: seq<string>, ghost c: string)
    returns (d: nat)
    requires Terminated(src, end, end + len) && n < buf.Length && buf != extra && buf[n] == '\0'
    requires extra.Length == PATH_MAX && n + len < PATH_MAX && NulFree(buf[..n])
    requires dest < rpath.Length && rpath != extra
    requires ValidStack(stack + [c]) && rpath[..dest] == Joined(stack + [c])
    modifies extra
    ensures Terminated(extra, 0, n + len)
    ensures extra[..n + len] == old(buf[..n]) + old(src[end..end + len])
    ensures 1 <= d <= dest && Spells(rpath[..d], LinkBase(stack, old(buf[..n])))
    ensures ValidStack(LinkBase(stack, old(buf[..n])))
  {
    ghost var target := buf[..n];
    Splice(extra, src, end, len, buf, n);
    assert Pop(stack + [c]) == stack;
    assert forall i :: 0 <= i < |stack| ==> stack[i] == (stack + [c])[i];
    assert n > 0 ==> target[0] == buf[0];
    if buf[0] == '/' {
      d := 1;
      RootOf(rpath[..], stack + [c]);
      assert rpath[..1] == "/";
    } else {
      d := Parent(rpath, dest, stack + [c]);
    }
  }

  /** okfs_argreadlink and the terminator behind it (lines 156-159). Back ends differ in whether they
      stop at the end of the buffer; either way a target of PATH_MAX bytes or more puts the
      terminator outside. The bytes outside are not modelled; that they are written is. */
  method ReadLink(fs: FileSystem, here: string, buf: array<char>) returns (r: Result<nat>, overrun: bool)
    requires buf.Length == PATH_MAX
    modifies buf
    ensures r.Err? ==> fs.readlink(here) == Err(r.error) && !overrun
    ensures r.Ok? ==> fs.readlink(here).Ok? && r.value == |fs.readlink(here).value| && (overrun <==> r.value >= PATH_MAX)
    ensures r.Ok? && !overrun ==> buf[..r.value] == fs.readlink(here).value && buf[r.value] == '\0'
  {
    var answer := fs.readlink(here);
    if answer.Err? {
      return Err(answer.error), false;
    }
    var n := |answer.value|;
    if n >= PATH_MAX {
      Store(buf, 0, answer.value[..PATH_MAX]);
      return Ok(n), true;
    }
    Store(buf, 0, answer.value);
    assert buf[..n] == answer.value;
    buf[n] := '\0';
    assert buf[..n] == answer.value;
    return Ok(n), false;
  }

  /** What is known of a component: it is kept, it ends the walk, or it is a link whose target, n
      bytes long, is in the buffer. */
  datatype Seen = Kept | Ended(error: Errno) | Linked(n: nat, overrun: bool)

  ghost predicate Says(seen: Seen, v: Verdict, buf: array<char>)
    reads buf
  {
    match v
    case Keep => seen == Kept
    case Stop(e) => seen == Ended(e)
    case Follow(target) =>
      && seen == Linked(|target|, |target| >= PATH_MAX)
      && (|target| < PATH_MAX ==> buf.Length == PATH_MAX && buf[..|target|] == target && buf[|target|] == '\0')
  }

  /** The decision of lines 137-159, with the link counter. */
  method Inspect(fs: FileSystem, here: string, last: bool, links: nat, readLast: bool, buf: array<char>)
    returns (seen: Seen, numLinks: nat)
    requires buf.Length == PATH_MAX
    modifies buf
    ensures Says(seen, Look(fs, here, last, links, readLast), buf)
    ensures numLinks == if seen.Linked? then links + 1 else links
  {
    numLinks := links;
    if !readLast && last {
      return Kept, links;
    }
    var st := fs.lstat(here);
    if st.Failed? {
      if st.error == ENOENT && last {
        return Kept, links;
      }
      return Ended(st.error), links;
    }
    if !st.Link? {
      return Kept, links;
    }
    if links + 1 > MAXSYMLINKS {
      return Ended(ELOOP), links;
    }
    var n, overrun := ReadLink(fs, here, buf);
    if n.Err? {
      return Ended(n.error), links;
    }
    return Linked(n.value, overrun), links + 1;
  }

  /** A component that is neither "." nor "..": append it, look at it, and follow it when it
      is a link (lines 113-184). */
  method Visit(fs: FileSystem, rpath0: array<char>, dest0: nat, src0: array<char>, start: nat, end0: nat,
               extra: array<char>, numLinks0: nat, readLast: bool, ghost nul0: nat, ghost stack0: seq<string>,
               ghost c: string, ghost rest: string)
    returns (failure: Option<End>, rpath: array<char>, dest: nat, src: array<char>, end: nat, numLinks: nat,
             ghost nul: nat, ghost stack: seq<string>, ghost text: string)
    requires WellFormed(fs)
    requires 1 <= dest0 < rpath0.Length && rpath0.Length >= PATH_MAX
    requires src0 != rpath0 && extra != rpath0 && extra.Length == PATH_MAX
    requires ValidStack(stack0) && Spells(rpath0[..dest0], stack0)
    requires start <= end0 && Terminated(src0, end0, nul0) && numLinks0 <= MAXSYMLINKS
    requires c == src0[start..end0] && rest == src0[end0..nul0] && ValidComponent(c)
    modifies rpath0, extra
    ensures Enter(fs, stack0, c, rest, numLinks0, readLast) ==
            if failure.Some? then AsMove(failure.value) else Next(stack, text, numLinks)
    ensures failure.None? ==>
              && Terminated(src, end, nul) && text == src[end..nul]
              && src != rpath && extra != rpath && src in {src0, extra}
              && (rpath == rpath0 || fresh(rpath))
              && 1 <= dest < rpath.Length && rpath.Length >= PATH_MAX
              && ValidStack(stack) && Spells(rpath[..dest], stack)
    ensures failure.Some? ==> !failure.value.Reached?
  {
    src, end, nul := src0, end0, nul0;
    text := rest;
    rpath, dest := Append(rpath0, dest0, src, start, end, stack0);
    stack := stack0 + [c];
    CStrOfPath(rpath, dest, stack);
    var last := EmptyPath(src, end, nul);
    var buf := new char[PATH_MAX];
    var seen;
    seen, numLinks := Inspect(fs, CStr(rpath[..]), last, numLinks0, readLast, buf);
    match seen {
      case Kept =>
        failure := None;
      case Ended(e) =>
        failure := Some(Stopped(e));
      case Linked(n, overrun) =>
        FollowedNulFree(fs, Render(stack), last, numLinks0, readLast);
        var len := StrLen(src, end, nul);
        if n + len >= PATH_MAX {
          failure := Some(GaveUp(overrun));
          return;
        }
        ghost var target := buf[..n];
        dest := FollowLink(rpath, dest, extra, src, end, len, buf, n, stack0, c);
        src, end, nul, stack := extra, 0, n + len, LinkBase(stack0, target);
        text := target + rest;
        assert text == src[end..nul];
        failure := None;
    }
  }

  /** The end of a walk as the last move of it. */
  function AsMove(e: End): Move {
    match e
    case Reached(_) => Arrived
    case Stopped(error) => Refused(error)
    case GaveUp(overrun) => TooLong(overrun)
  }

  lemma FollowedNulFree(fs: FileSystem, path: string, last: bool, links: nat, readLast: bool)
    requires WellFormed(fs)
    ensures var v := Look(fs, path, last, links, readLast);
            v.Follow? ==> NulFree(v.target) && links < MAXSYMLINKS
  {
    var v := Look(fs, path, last, links, readLast);
    if v.Follow? {
      assert forall x :: x in v.target ==> x in fs.readlink(path).value;
    }
  }

  /** One step of the walk, by the kind of component found. */
  lemma Turn(fs: FileSystem, stack: seq<string>, text: string, t: string, n: nat, links: nat, readLast: bool)
    requires links <= MAXSYMLINKS && NulFree(text)
    requires t == SkipSlashes(text) && n == ComponentLength(t)
    ensures |t| <= |text|
    ensures var m := Step(fs, stack, text, links, readLast);
            if n == 0 then m == Arrived
            else if n == 1 && t[0] == '.' then m == Next(stack, t[n..], links)
            else if n == 2 && t[0] == '.' && t[1] == '.' then m == Next(Pop(stack), t[n..], links)
            else ValidComponent(t[..n]) && m == Enter(fs, stack, t[..n], t[n..], links, readLast)
  {
    SkipShrinks(text);
    ComponentIsClean(t);
    DotNames(t, n);
    var c := t[..n];
    assert NulFree(c) by { assert forall i :: 0 <= i < n ==> c[i] == text[|text| - |t| + i]; }
  }

  lemma NothingLeft(fs: FileSystem, stack: seq<string>, links: nat, readLast: bool)
    requires links <= MAXSYMLINKS
    ensures WalkText(fs, stack, "", links, readLast) == Reached(stack)
  {
    assert Step(fs, stack, "", links, readLast) == Arrived;
  }

  lemma DotNames(t: string, n: nat)
    requires n <= |t|
    ensures t[..n] == "." <==> n == 1 && t[0] == '.'
    ensures t[..n] == ".." <==> n == 2 && t[0] == '.' && t[1] == '.'
  {
    if n == 1 && t[0] == '.' { assert t[..n] == "."; }
    if n == 2 && t[0] == '.' && t[1] == '.' { assert t[..n] == ".."; }
  }

  /** canonical (lines 56-194), for a working directory that is canonical and shorter than
      PATH_MAX. The result is the one the resolution over bytes defines, for every file
      system, cyclic links included, and every error is the same error. Every access to the result,
      the name and the splice buffer is in bounds; `overrun` says whether the buffer for link
      targets was written past its end. */
  method Canonical(fs: FileSystem, cwd: Option<string>, name: Option<string>, readLast: bool) returns (r: Result<string>, overrun: bool)
    requires WellFormed(fs)
    requires name.Some? ==> NulFree(name.value)
    requires cwd.Some? ==> |cwd.value| < PATH_MAX && ValidStack(Split(cwd.value)) && cwd.value == Render(Split(cwd.value))
    ensures r == CanonicalName(fs, cwd, name, readLast)
    ensures overrun <==> Overruns(fs, cwd, name, readLast)
  {
    if name.None? {
      return Err(EINVAL), false;
    }
    if name.value == "" {
      return Err(ENOENT), false;
    }
    var rpath := new char[PATH_MAX];
    var dest: nat;
    ghost var stack: seq<string>;
    if name.value[0] != '/' {
      if cwd.None? {
        return Err(EINVAL), false;
      }
      Store(rpath, 0, cwd.value);
      dest := |cwd.value|;
      stack := Split(cwd.value);
      assert rpath[..dest] == cwd.value;
      JoinedStart(stack);
    } else {
      rpath[0] := '/';
      dest := 1;
      stack := [];
      assert rpath[..1] == "/";
    }
    var src := new char[|name.value| + 1];
    Store(src, 0, name.value);
    src[|name.value|] := '\0';
    assert src[..|name.value|] == name.value;
    assert stack == Base(cwd, name.value);
    var failure;
    failure, rpath, dest, stack := Walk(fs, rpath, dest, src, readLast, name.value, stack);
    match failure {
      case Some(Stopped(e)) => return Err(e), false;
      case Some(GaveUp(o)) => return Err(ENAMETOOLONG), o;
      case None =>
        var path := Finish(rpath, dest, stack);
        return Ok(path), false;
    }
  }

  /** Drop a separator left behind the last component and terminate (lines 186-189). */
  method Finish(rpath: array<char>, dest0: nat, ghost stack: seq<string>) returns (path: string)
    requires 1 <= dest0 < rpath.Length
    requires ValidStack(stack) && Spells(rpath[..dest0], stack)
    modifies rpath
    ensures path == Render(stack)
  {
    ghost var text := rpath[..dest0];
    SlashBehind(text, stack);
    Popped(text, stack);
    var dest := dest0;
    if dest > 1 && rpath[dest - 1] == '/' {
      dest := dest - 1;
    }
    assert text[..dest] == Render(stack);
    rpath[dest] := '\0';
    assert rpath[..dest] == text[..dest];
    CStrOfPath(rpath, dest, stack);
    path := CStr(rpath[..]);
  }

  datatype Progress = Going | Done | Failing(end: End)

  /** One turn of the main loop (lines 94-184). */
  method OneTurn(fs: FileSystem, rpath0: array<char>, dest0: nat, src0: array<char>, start0: nat, extra: array<char>,
                 numLinks0: nat, readLast: bool, ghost nul0: nat, ghost stack0: seq<string>, ghost text0: string)
    returns (progress: Progress, rpath: array<char>, dest: nat, src: array<char>, start: nat, numLinks: nat,
             ghost nul: nat, ghost stack: seq<string>, ghost text: string)
    requires WellFormed(fs)
    requires 1 <= dest0 < rpath0.Length && rpath0.Length >= PATH_MAX
    requires src0 != rpath0 && extra != rpath0 && extra.Length == PATH_MAX
    requires ValidStack(stack0) && Spells(rpath0[..dest0], stack0)
    requires Terminated(src0, start0, nul0) && numLinks0 <= MAXSYMLINKS && text0 == src0[start0..nul0]
    modifies rpath0, extra
    ensures Step(fs, stack0, text0, numLinks0, readLast) ==
            match progress
            case Failing(e) => AsMove(e)
            case Done => Arrived
            case Going => Next(stack, text, numLinks)
    ensures progress.Going? ==> Terminated(src, start, nul) && text == src[start..nul] && src != rpath && extra != rpath
    ensures progress.Done? ==> stack == stack0
    ensures progress.Failing? ==> !progress.end.Reached?
    ensures !progress.Failing? ==>
              && (rpath == rpath0 || fresh(rpath))
              && 1 <= dest < rpath.Length && rpath.Length >= PATH_MAX
              && ValidStack(stack) && Spells(rpath[..dest], stack)
  {
    rpath, dest, src, numLinks, nul, stack := rpath0, dest0, src0, numLinks0, nul0, stack0;
    var end, found;
    ghost var c, rest;
    start, end, found, c, rest := Classify(fs, src, start0, nul, text0, stack, numLinks, readLast);
    text := rest;
    progress := Going;
    match found {
      case Nothing =>
        progress := Done;
      case Dot =>
      case DotDot =>
        dest := Parent(rpath, dest, stack);
        stack := Pop(stack);
      case Name =>
        var failure;
        failure, rpath, dest, src, end, numLinks, nul, stack, text :=
          Visit(fs, rpath, dest, src, start, end, extra, numLinks, readLast, nul, stack, c, rest);
        if failure.Some? {
          progress := Failing(failure.value);
        }
    }
    start := end;
  }

  lemma Cut(src: array<char>, i: nat, j: nat, nul: nat)
    requires i <= j <= nul < src.Length
    ensures var t, n := src[i..nul], j - i;
            t[..n] == src[i..j] && t[n..] == src[j..nul] && (n > 0 ==> src[i] == t[0]) && (n > 1 ==> src[i + 1] == t[1])
  {
  }

  lemma Behind(src: array<char>, i: nat, j: nat, nul: nat)
    requires Terminated(src, i, nul) && i <= j <= nul
    ensures Terminated(src, j, nul)
  {
    assert forall k :: j <= k < nul ==> src[k] == src[i..nul][k - i];
  }

  datatype Found = Nothing | Dot | DotDot | Name

  /** The next component and what it is (lines 94-113). */
  method Classify(fs: FileSystem, src: array<char>, start0: nat, ghost nul: nat, ghost text: string, ghost stack: seq<string>,
                  ghost links: nat, ghost readLast: bool)
    returns (start: nat, end: nat, found: Found, ghost c: string, ghost rest: string)
    requires Terminated(src, start0, nul) && links <= MAXSYMLINKS && text == src[start0..nul]
    ensures start <= end <= nul && c == src[start..end] && rest == src[end..nul] && Terminated(src, end, nul)
    ensures Step(fs, stack, text, links, readLast) ==
            match found
            case Nothing => Arrived
            case Dot => Next(stack, rest, links)
            case DotDot => Next(Pop(stack), rest, links)
            case Name => Enter(fs, stack, c, rest, links, readLast)
    ensures found.Name? ==> ValidComponent(c)
  {
    start, end := NextComponent(src, start0, nul);
    ghost var t, n := src[start..nul], end - start;
    Cut(src, start, end, nul);
    Behind(src, start0, end, nul);
    c, rest := t[..n], t[n..];
    Turn(fs, stack, text, t, n, links, readLast);
    found := if end - start == 0 then Nothing
             else if end - start == 1 && src[start] == '.' then Dot
             else if end - start == 2 && src[start] == '.' && src[start + 1] == '.' then DotDot
             else Name;
  }

  /** The main loop (lines 90-185): ends for every file system because each turn either uses
      up a link or reads some bytes. */
  method Walk(fs: FileSystem, rpath0: array<char>, dest0: nat, src0: array<char>, readLast: bool,
              ghost name: string, ghost stack0: seq<string>)
    returns (failure: Option<End>, rpath: array<char>, dest: nat, ghost stack: seq<string>)
    requires |name| < src0.Length && name == src0[..|name|]
    requires WellFormed(fs) && Terminated(src0, 0, |name|) && src0 != rpath0
    requires 1 <= dest0 < rpath0.Length && rpath0.Length >= PATH_MAX
    requires ValidStack(stack0) && Spells(rpath0[..dest0], stack0)
    modifies rpath0
    ensures WalkText(fs, stack0, name, 0, readLast) == if failure.Some? then failure.value else Reached(stack)
    ensures failure.Some? ==> !failure.value.Reached?
    ensures failure.None? ==>
              && (rpath == rpath0 || fresh(rpath))
              && 1 <= dest < rpath.Length
              && ValidStack(stack) && Spells(rpath[..dest], stack)
  {
    rpath, dest, stack := rpath0, dest0, stack0;
    var src, start, numLinks := src0, 0, 0;
    ghost var nul, text := |name|, name;
    var extra := new char[PATH_MAX];
    while src[start] != '\0'
      invariant 0 <= start && 0 <= nul && Terminated(src, start, nul) && text == src[start..nul]
      invariant rpath == rpath0 || fresh(rpath)
      invariant src != rpath && extra != rpath && fresh(extra) && extra.Length == PATH_MAX
      invariant 1 <= dest < rpath.Length && rpath.Length >= PATH_MAX
      invariant ValidStack(stack) && Spells(rpath[..dest], stack)
      invariant 0 <= numLinks <= MAXSYMLINKS
      invariant WalkText(fs, stack0, name, 0, readLast) == WalkText(fs, stack, text, numLinks, readLast)
      decreases MAXSYMLINKS - numLinks, nul - start
    {
      var progress;
      progress, rpath, dest, src, start, numLinks, nul, stack, text :=
        OneTurn(fs, rpath, dest, src, start, extra, numLinks, readLast, nul, stack, text);
      if progress.Failing? {
        return Some(progress.end), rpath, dest, stack;
      } else if progress.Done? {
        return None, rpath, dest, stack;
      }
    }
    assert text == "";
    NothingLeft(fs, stack, numLinks, readLast);
    failure := None;
  }

  lemma RootOf(text: seq<char>, stack: seq<string>)
    requires stack != [] && |Joined(stack)| <= |text| && text[..|Joined(stack)|] == Joined(stack)
    ensures text != [] && text[0] == '/'
  {
    JoinedStart(stack);
  }

  /** A terminated, rendered path reads back as the C string OKFS passes on. */
  lemma CStrOfPath(rpath: array<char>, dest: nat, stack: seq<string>)
    requires dest < rpath.Length && rpath[dest] == '\0'
    requires ValidStack(stack) && rpath[..dest] == Render(stack)
    ensures CStr(rpath[..]) == Render(stack)
  {
    JoinedNulFree(stack);
    assert rpath[..][..dest] == rpath[..dest];
    CStrAt(rpath[..], dest);
  }

  lemma {:induction false} JoinedNulFree(stack: seq<string>)
    requires ValidStack(stack)
    ensures NulFree(Joined(stack))
  {
    if stack != [] {
      assert ValidComponent(Last(stack));
      JoinedNulFree(Init(stack));
    }
  }
}
