/** Pathname resolution as a component stack, in the style of section 4.13 (Pathname
    Resolution) of IEEE Std 1003.1-2017, XBD, and the same resolution over unread bytes. */
module NameiSpec {
  import opened Common
  import opened CText

  const PATH_MAX: nat := 4096
  const MAXSYMLINKS: nat := 20

  datatype Stat = Failed(error: Errno) | Link | NotLink

  /** okfs_arglstat and okfs_argreadlink as a pure oracle on path strings. What readlink gives is
      what it writes into the buffer: the kernel cuts it to the size of the buffer, the remote file
      system does not. */
  datatype FileSystem = FileSystem(lstat: string -> Stat, readlink: string -> Result<string>)

  /** Link targets are C strings. */
  ghost predicate WellFormed(fs: FileSystem) {
    forall p :: fs.readlink(p).Ok? ==> NulFree(fs.readlink(p).value)
  }

  // ----- text and components -----

  function SkipSlashes(s: string): string {
    if s != [] && s[0] == '/' then SkipSlashes(s[1..]) else s
  }

  /** Length of the component at the front of s. */
  function ComponentLength(s: string): (n: nat)
    ensures n <= |s|
  {
    if s == [] || s[0] == '/' then 0 else 1 + ComponentLength(s[1..])
  }

  lemma {:induction false} SkipShrinks(s: string)
    ensures |SkipSlashes(s)| <= |s| && SkipSlashes(s) == s[|s| - |SkipSlashes(s)|..]
    ensures SkipSlashes(s) != [] ==> SkipSlashes(s)[0] != '/'
  {
    if s != [] && s[0] == '/' { SkipShrinks(s[1..]); }
  }

  /** The '/'-separated components of s; runs of separators count once. */
  function Split(s: string): seq<string>
    decreases |s|
  {
    if s == "" then []
    else if s[0] == '/' then Split(s[1..])
    else [s[..ComponentLength(s)]] + Split(s[ComponentLength(s)..])
  }

  lemma {:induction false} SplitSkip(s: string)
    ensures Split(s) == Split(SkipSlashes(s))
  {
    if s != [] && s[0] == '/' {
      SplitSkip(s[1..]);
    }
  }

  /** empty_path: nothing but separators is left. */
  predicate OnlySlashes(s: string) {
    forall i :: 0 <= i < |s| ==> s[i] == '/'
  }

  predicate ValidComponent(c: string) {
    c != "" && c != "." && c != ".." && '/' !in c && NulFree(c)
  }

  predicate ValidStack(stack: seq<string>) {
    forall i :: 0 <= i < |stack| ==> ValidComponent(stack[i])
  }

  /** Each component with a separator in front. */
  function Joined(stack: seq<string>): string {
    if stack == [] then "" else Joined(Init(stack)) + "/" + Last(stack)
  }

  function Init<T>(s: seq<T>): seq<T> requires s != [] { s[..|s| - 1] }
  function Last<T>(s: seq<T>): T requires s != [] { s[|s| - 1] }
  function Pop<T>(s: seq<T>): seq<T> { if s == [] then [] else Init(s) }

  function Render(stack: seq<string>): string {
    if stack == [] then "/" else Joined(stack)
  }

  // ----- the simple resolver: a stack and a list of components still to walk -----

  function Resolve(fs: FileSystem, stack: seq<string>, todo: seq<string>, links: nat, readLast: bool)
    : Result<seq<string>>
    requires links <= MAXSYMLINKS
    decreases MAXSYMLINKS - links, |todo|
  {
    if todo == [] then Ok(stack) else
    var c, rest := todo[0], todo[1..];
    if c == "." then Resolve(fs, stack, rest, links, readLast)
    else if c == ".." then Resolve(fs, Pop(stack), rest, links, readLast)
    else if !readLast && rest == [] then Ok(stack + [c])
    else
      match fs.lstat(Render(stack + [c]))
      case Failed(e) => if e == ENOENT && rest == [] then Ok(stack + [c]) else Err(e)
      case NotLink => Resolve(fs, stack + [c], rest, links, readLast)
      case Link =>
        if links == MAXSYMLINKS then Err(ELOOP) else
        match fs.readlink(Render(stack + [c]))
        case Err(e) => Err(e)
        case Ok(target) =>
          Resolve(fs, LinkBase(stack, target), Split(target) + rest, links + 1, readLast)
  }

  /** Where a link's target is resolved from. */
  function LinkBase(stack: seq<string>, target: string): seq<string> {
    if target != "" && target[0] == '/' then [] else stack
  }

  // ----- the same walk over the unread bytes, with the PATH_MAX limits of the code -----

  /** `overrun`: the target, with its terminator, has been written past the end of its buffer. */
  datatype Move = Next(stack: seq<string>, text: string, links: nat) | Arrived | Refused(error: Errno) | TooLong(overrun: bool)

  /** One component of the walk. */
  function Step(fs: FileSystem, stack: seq<string>, text: string, links: nat, readLast: bool): (m: Move)
    requires links <= MAXSYMLINKS
    ensures m.Next? ==> links <= m.links <= MAXSYMLINKS && (m.links > links || |m.text| < |text|)
  {
    SkipShrinks(text);
    var t := SkipSlashes(text);
    var n := ComponentLength(t);
    if n == 0 then Arrived
    else if t[..n] == "." then Next(stack, t[n..], links)
    else if t[..n] == ".." then Next(Pop(stack), t[n..], links)
    else Enter(fs, stack, t[..n], t[n..], links, readLast)
  }

  /** An ordinary component c with end still unread behind it. */
  function Enter(fs: FileSystem, stack: seq<string>, c: string, end: string, links: nat, readLast: bool): (m: Move)
    ensures m.Next? ==> (m.links == links && m.text == end) || (m.links == links + 1 && links < MAXSYMLINKS)
  {
    match Look(fs, Render(stack + [c]), OnlySlashes(end), links, readLast)
    case Keep => Next(stack + [c], end, links)
    case Stop(e) => Refused(e)
    case Follow(buf) =>
      if |buf| + |end| >= PATH_MAX then TooLong(|buf| >= PATH_MAX)
      else Next(LinkBase(stack, buf), buf + end, links + 1)
  }

  /** How a walk ends. */
  datatype End = Reached(stack: seq<string>) | Stopped(error: Errno) | GaveUp(overrun: bool)

  function WalkText(fs: FileSystem, stack: seq<string>, text: string, links: nat, readLast: bool): End
    requires links <= MAXSYMLINKS
    decreases MAXSYMLINKS - links, |text|
  {
    match Step(fs, stack, text, links, readLast)
    case Arrived => Reached(stack)
    case Refused(e) => Stopped(e)
    case TooLong(overrun) => GaveUp(overrun)
    case Next(s, t, l) => WalkText(fs, s, t, l, readLast)
  }

  function Answer(e: End): Result<seq<string>> {
    match e
    case Reached(stack) => Ok(stack)
    case Stopped(error) => Err(error)
    case GaveUp(_) => Err(ENAMETOOLONG)
  }

  function ResolveText(fs: FileSystem, stack: seq<string>, text: string, links: nat, readLast: bool): Result<seq<string>>
    requires links <= MAXSYMLINKS
  {
    Answer(WalkText(fs, stack, text, links, readLast))
  }

  /** What is done with a component once its name is known. */
  datatype Verdict = Keep | Stop(error: Errno) | Follow(target: string)

  function Look(fs: FileSystem, path: string, last: bool, links: nat, readLast: bool): Verdict {
    if !readLast && last then Keep
    else
      match fs.lstat(path)
      case Failed(e) => if e == ENOENT && last then Keep else Stop(e)
      case NotLink => Keep
      case Link =>
        if links >= MAXSYMLINKS then Stop(ELOOP)
        else
          match fs.readlink(path)
          case Err(e) => Stop(e)
          case Ok(target) => Follow(target)
  }

  /** What `canonical` promises: a path, or the error it reports. */
  function CanonicalName(fs: FileSystem, cwd: Option<string>, name: Option<string>, readLast: bool)
    : Result<string>
  {
    if name.None? then Err(EINVAL)
    else if name.value == "" then Err(ENOENT)
    else if name.value[0] != '/' && cwd.None? then Err(EINVAL)
    else
      match ResolveText(fs, Base(cwd, name.value), name.value, 0, readLast)
      case Ok(stack) => Ok(Render(stack))
      case Err(e) => Err(e)
  }

  /** Where the walk of `canonical` starts. */
  function Base(cwd: Option<string>, name: string): seq<string>
    requires name != "" && (name[0] == '/' || cwd.Some?)
  {
    if name[0] == '/' then [] else Split(cwd.value)
  }

  /** `canonical` writes past the end of a buffer. */
  predicate Overruns(fs: FileSystem, cwd: Option<string>, name: Option<string>, readLast: bool) {
    && name.Some? && name.value != "" && (name.value[0] == '/' || cwd.Some?)
    && WalkText(fs, Base(cwd, name.value), name.value, 0, readLast) == GaveUp(true)
  }

  // ----- splitting and joining -----

  lemma {:induction false} ComponentIsClean(s: string)
    ensures '/' !in s[..ComponentLength(s)]
    ensures ComponentLength(s) < |s| ==> s[ComponentLength(s)] == '/'
  {
    if s != [] && s[0] != '/' {
      ComponentIsClean(s[1..]);
      var n := ComponentLength(s);
      assert s[..n] == [s[0]] + s[1..][..n - 1];
    }
  }

  /** A component followed by a separator or the end is found whole. */
  lemma {:induction false} ComponentFound(c: string, rest: string)
    requires '/' !in c
    requires rest == "" || rest[0] == '/'
    ensures ComponentLength(c + rest) == |c|
  {
    if c != [] {
      assert c[0] in c;
      assert (c + rest)[1..] == c[1..] + rest;
      ComponentFound(c[1..], rest);
    } else {
      assert c + rest == rest;
    }
  }

  lemma {:induction false} SplitEmptyIff(s: string)
    ensures Split(s) == [] <==> OnlySlashes(s)
    ensures SkipSlashes(s) == [] <==> OnlySlashes(s)
  {
    if s != [] && s[0] == '/' {
      SplitEmptyIff(s[1..]);
      assert SkipSlashes(s) == SkipSlashes(s[1..]);
      assert Split(s) == Split(s[1..]);
      assert OnlySlashes(s) <==> OnlySlashes(s[1..]) by {
        assert forall i :: 1 <= i < |s| ==> s[i] == s[1..][i - 1];
      }
    }
  }

  /** Splitting distributes over a join at a separator or at the end. */
  lemma {:induction false} SplitJoin(a: string, b: string)
    requires b == "" || b[0] == '/'
    ensures Split(a + b) == Split(a) + Split(b)
    decreases |a|
  {
    if a == "" {
      assert a + b == b;
    } else if a[0] == '/' {
      SplitJoin(a[1..], b);
      SplitJoinSlash(a, b);
    } else {
      var n := ComponentLength(a);
      ComponentIsClean(a);
      SplitJoin(a[n..], b);
      assert a == a[..n] + a[n..];
      FirstComponent(a, a[..n], a[n..]);
      JoinedComponent(a, a[..n], a[n..], b, a[n..] + b);
      OneInFront(a[..n], Split(a[n..]), Split(b), Split(a[n..] + b));
    }
  }

  lemma SplitJoinSlash(a: string, b: string)
    requires a != "" && a[0] == '/' && Split(a[1..] + b) == Split(a[1..]) + Split(b)
    ensures Split(a + b) == Split(a) + Split(b)
  {
    assert (a + b)[1..] == a[1..] + b;
  }

  lemma JoinedComponent(a: string, c: string, rest: string, b: string, restb: string)
    requires a == c + rest && restb == rest + b && c != "" && '/' !in c && (restb == "" || restb[0] == '/')
    ensures Split(a + b) == [c] + Split(restb)
  {
    assert a + b == c + restb;
    FirstComponent(a + b, c, restb);
  }

  lemma OneInFront(c: string, x: seq<string>, y: seq<string>, xy: seq<string>)
    requires xy == x + y
    ensures [c] + xy == ([c] + x) + y
  {
  }

  /** A component in front is split off. */
  lemma FirstComponent(s: string, c: string, rest: string)
    requires s == c + rest && c != "" && '/' !in c && (rest == "" || rest[0] == '/')
    ensures Split(s) == [c] + Split(rest)
  {
    ComponentFound(c, rest);
    assert c[0] in c;
    assert s[..|c|] == c && s[|c|..] == rest;
  }

  lemma {:induction false} JoinedAppend(a: seq<string>, b: seq<string>)
    ensures Joined(a + b) == Joined(a) + Joined(b)
  {
    if b == [] {
      assert a + b == a;
    } else {
      var l := "/" + Last(b);
      assert Init(a + b) == a + Init(b);
      JoinedAppend(a, Init(b));
      assert Joined(b) == Joined(Init(b)) + l;
      assert Joined(a + b) == (Joined(a) + Joined(Init(b))) + l;
    }
  }

  lemma JoinedCons(c: string, rest: seq<string>)
    ensures Joined([c] + rest) == "/" + c + Joined(rest)
  {
    JoinedAppend([c], rest);
    assert Joined([c]) == "/" + c by { assert Init([c]) == []; assert "" + "/" + c == "/" + c; }
  }

  lemma {:induction false} JoinedStart(stack: seq<string>)
    ensures Joined(stack) == "" || Joined(stack)[0] == '/'
    ensures Joined(stack) == "" <==> stack == []
  {
    if stack != [] { JoinedStart(Init(stack)); }
  }

  /** One step into a joined path. */
  lemma StepInto(c: string, rest: seq<string>)
    requires ValidComponent(c)
    ensures var text := Joined([c] + rest);
            SkipSlashes(text) == c + Joined(rest) && ComponentLength(c + Joined(rest)) == |c|
  {
    JoinedCons(c, rest);
    JoinedStart(rest);
    var text := Joined([c] + rest);
    assert text[1..] == c + Joined(rest);
    assert c[0] in c;
    assert SkipSlashes(text) == SkipSlashes(text[1..]);
    ComponentFound(c, Joined(rest));
  }

  /** Rendering a stack and splitting it gives the stack back. */
  lemma {:induction false} SplitRender(stack: seq<string>)
    requires ValidStack(stack)
    ensures Split(Render(stack)) == stack
  {
    if stack == [] {
      assert OnlySlashes("/");
      SplitEmptyIff("/");
    } else {
      SplitJoined(stack);
    }
  }

  lemma {:induction false} SplitJoined(stack: seq<string>)
    requires ValidStack(stack)
    ensures Split(Joined(stack)) == stack
  {
    if stack == [] {
    } else {
      var c, rest := stack[0], stack[1..];
      assert stack == [c] + rest;
      JoinedCons(c, rest);
      JoinedStart(rest);
      SplitJoined(rest);
      var t := c + Joined(rest);
      assert Joined(stack) == "/" + t && Joined(stack)[1..] == t;
      FirstComponent(t, c, Joined(rest));
    }
  }
}
