/** Laws of pathname resolution: the byte-level walk refines the component resolver, its
    results are canonical, and canonical names are fixed points. */
module NameiLaws {
  import opened Common
  import opened CText
  import opened NameiSpec

  /** Nothing but separators left: the walk is over. */
  lemma WalkEnds(fs: FileSystem, stack: seq<string>, text: string, links: nat, readLast: bool)
    requires links <= MAXSYMLINKS && OnlySlashes(text)
    ensures ResolveText(fs, stack, text, links, readLast) == Ok(stack)
  {
    SplitEmptyIff(text);
  }

  // ----- the walk over bytes is the walk over components -----

  /** Walking the unread bytes gives exactly what the component resolver gives, errors included,
      unless the code gives up at a link whose target and rest reach PATH_MAX; then it says so. */
  lemma {:induction false} TextRefinesComponents(fs: FileSystem, stack: seq<string>, text: string, links: nat, readLast: bool)
    requires links <= MAXSYMLINKS
    ensures ResolveText(fs, stack, text, links, readLast) ==
            if WalkText(fs, stack, text, links, readLast).GaveUp? then Err(ENAMETOOLONG)
            else Resolve(fs, stack, Split(text), links, readLast)
    decreases MAXSYMLINKS - links, |text|
  {
    StepRefines(fs, stack, text, links, readLast);
    var m := Step(fs, stack, text, links, readLast);
    if m.Next? {
      TextRefinesComponents(fs, m.stack, m.text, m.links, readLast);
    }
  }

  /** One component of the byte walk is one step of the resolver. */
  lemma StepRefines(fs: FileSystem, stack: seq<string>, text: string, links: nat, readLast: bool)
    requires links <= MAXSYMLINKS
    ensures var m, goal := Step(fs, stack, text, links, readLast), Resolve(fs, stack, Split(text), links, readLast);
            && (m.Arrived? ==> goal == Ok(stack))
            && (m.Refused? ==> goal == Err(m.error))
            && (m.Next? ==> goal == Resolve(fs, m.stack, Split(m.text), m.links, readLast))
  {
    SkipShrinks(text);
    SplitSkip(text);
    var t := SkipSlashes(text);
    var n := ComponentLength(t);
    if n > 0 {
      var c, end := t[..n], t[n..];
      var todo := Split(text);
      assert todo == [c] + Split(end);
      assert todo[0] == c && todo[1..] == Split(end);
      if c != "." && c != ".." {
        ComponentIsClean(t);
        EnterRefines(fs, stack, c, end, todo, links, readLast);
      }
    }
  }

  lemma EnterRefines(fs: FileSystem, stack: seq<string>, c: string, end: string, todo: seq<string>, links: nat, readLast: bool)
    requires links <= MAXSYMLINKS && c != "." && c != ".." && (end == "" || end[0] == '/')
    requires todo != [] && todo[0] == c && todo[1..] == Split(end)
    ensures var m, goal := Enter(fs, stack, c, end, links, readLast), Resolve(fs, stack, todo, links, readLast);
            && !m.Arrived?
            && (m.Refused? ==> goal == Err(m.error))
            && (m.Next? ==> m.links <= MAXSYMLINKS && goal == Resolve(fs, m.stack, Split(m.text), m.links, readLast))
  {
    var v, m := Look(fs, Render(stack + [c]), OnlySlashes(end), links, readLast), Enter(fs, stack, c, end, links, readLast);
    match v
    case Stop(e) =>
      StopRefines(fs, stack, c, end, todo, links, readLast);
      assert m == Refused(e);
    case Keep =>
      KeepRefines(fs, stack, c, end, todo, links, readLast);
      assert m == Next(stack + [c], end, links);
    case Follow(buf) =>
      FollowRefines(fs, stack, c, end, todo, links, readLast, buf);
      assert m.TooLong? || m == Next(LinkBase(stack, buf), buf + end, links + 1);
  }

  lemma FollowRefines(fs: FileSystem, stack: seq<string>, c: string, end: string, todo: seq<string>, links: nat, readLast: bool, buf: string)
    requires links <= MAXSYMLINKS && c != "." && c != ".." && (end == "" || end[0] == '/')
    requires todo != [] && todo[0] == c && todo[1..] == Split(end)
    requires Look(fs, Render(stack + [c]), OnlySlashes(end), links, readLast) == Follow(buf)
    ensures links < MAXSYMLINKS
    ensures Resolve(fs, stack, todo, links, readLast) == Resolve(fs, LinkBase(stack, buf), Split(buf + end), links + 1, readLast)
  {
    SplitEmptyIff(end);
    SplitJoin(buf, end);
  }

  lemma StopRefines(fs: FileSystem, stack: seq<string>, c: string, end: string, todo: seq<string>, links: nat, readLast: bool)
    requires links <= MAXSYMLINKS && c != "." && c != ".." && todo != [] && todo[0] == c && todo[1..] == Split(end)
    ensures var v := Look(fs, Render(stack + [c]), OnlySlashes(end), links, readLast);
            v.Stop? ==> Resolve(fs, stack, todo, links, readLast) == Err(v.error)
  {
    SplitEmptyIff(end);
  }

  lemma KeepRefines(fs: FileSystem, stack: seq<string>, c: string, end: string, todo: seq<string>, links: nat, readLast: bool)
    requires links <= MAXSYMLINKS && c != "." && c != ".." && todo != [] && todo[0] == c && todo[1..] == Split(end)
    ensures Look(fs, Render(stack + [c]), OnlySlashes(end), links, readLast).Keep? ==>
              Resolve(fs, stack, todo, links, readLast) == Resolve(fs, stack + [c], Split(end), links, readLast)
  {
    SplitEmptyIff(end);
    if OnlySlashes(end) {
      assert Resolve(fs, stack + [c], [], links, readLast) == Ok(stack + [c]);
    }
  }

  /** Every link target has at most `longest` bytes. */
  ghost predicate ShortLinks(fs: FileSystem, longest: nat) {
    forall p :: fs.readlink(p).Ok? ==> |fs.readlink(p).value| <= longest
  }

  /** The unread bytes and all the targets that may still be spliced in stay below PATH_MAX. */
  predicate Roomy(text: string, links: nat, longest: nat)
    requires links <= MAXSYMLINKS
  {
    |text| + longest * (MAXSYMLINKS - links) < PATH_MAX
  }

  /** A step in a roomy walk never gives up, and leaves room. */
  lemma ShortStep(fs: FileSystem, stack: seq<string>, text: string, links: nat, readLast: bool, longest: nat)
    requires links <= MAXSYMLINKS && ShortLinks(fs, longest) && Roomy(text, links, longest)
    ensures var m := Step(fs, stack, text, links, readLast);
            !m.TooLong? && (m.Next? ==> Roomy(m.text, m.links, longest))
  {
    SkipShrinks(text);
    var t := SkipSlashes(text);
    var n := ComponentLength(t);
    if n > 0 && t[..n] != "." && t[..n] != ".." {
      var v := Look(fs, Render(stack + [t[..n]]), OnlySlashes(t[n..]), links, readLast);
      if v.Follow? {
        RoomLeft(text, t[n..], v.target, links, longest);
      }
    }
  }

  lemma RoomLeft(text: string, end: string, target: string, links: nat, longest: nat)
    requires links < MAXSYMLINKS && Roomy(text, links, longest) && |end| <= |text| && |target| <= longest
    ensures |target| + |end| < PATH_MAX && Roomy(target + end, links + 1, longest)
  {
    var left := MAXSYMLINKS - links - 1;
    assert longest * (left + 1) == longest + longest * left;
  }

  lemma {:induction false} ShortNeverGivesUp(fs: FileSystem, stack: seq<string>, text: string, links: nat, readLast: bool, longest: nat)
    requires links <= MAXSYMLINKS && ShortLinks(fs, longest) && Roomy(text, links, longest)
    ensures !WalkText(fs, stack, text, links, readLast).GaveUp?
    decreases MAXSYMLINKS - links, |text|
  {
    ShortStep(fs, stack, text, links, readLast, longest);
    var m := Step(fs, stack, text, links, readLast);
    if m.Next? {
      ShortNeverGivesUp(fs, m.stack, m.text, m.links, readLast, longest);
    }
  }

  /** When the name and twenty of the longest targets fit below PATH_MAX, the bytes resolve to
      exactly what the components resolve to, with no exception for long names. */
  lemma ShortNamesResolveExactly(fs: FileSystem, stack: seq<string>, text: string, readLast: bool, longest: nat)
    requires ShortLinks(fs, longest) && Roomy(text, 0, longest)
    ensures ResolveText(fs, stack, text, 0, readLast) == Resolve(fs, stack, Split(text), 0, readLast)
  {
    ShortNeverGivesUp(fs, stack, text, 0, readLast, longest);
    TextRefinesComponents(fs, stack, text, 0, readLast);
  }

  // ----- the buffer for link targets -----

  /** The walk reads a link with this target. */
  ghost predicate ReadsLink(fs: FileSystem, stack: seq<string>, text: string, links: nat, readLast: bool, target: string)
    requires links <= MAXSYMLINKS
    decreases MAXSYMLINKS - links, |text|
  {
    || LinkHere(fs, stack, text, links, readLast) == Some(target)
    || var m := Step(fs, stack, text, links, readLast); m.Next? && ReadsLink(fs, m.stack, m.text, m.links, readLast, target)
  }

  /** The target of the link that the next component is. */
  function LinkHere(fs: FileSystem, stack: seq<string>, text: string, links: nat, readLast: bool): Option<string> {
    SkipShrinks(text);
    var t := SkipSlashes(text);
    var n := ComponentLength(t);
    if n == 0 || t[..n] == "." || t[..n] == ".." then None
    else
      match Look(fs, Render(stack + [t[..n]]), OnlySlashes(t[n..]), links, readLast)
      case Follow(target) => Some(target)
      case _ => None
  }

  lemma LongHere(fs: FileSystem, stack: seq<string>, text: string, links: nat, readLast: bool)
    requires links <= MAXSYMLINKS
    ensures var m, l := Step(fs, stack, text, links, readLast), LinkHere(fs, stack, text, links, readLast);
            && (m == TooLong(true) <==> l.Some? && |l.value| >= PATH_MAX)
            && (l.Some? && |l.value| >= PATH_MAX ==> !m.Next?)
  {
    SkipShrinks(text);
  }

  /** The terminator of a link target is written past the end of its buffer exactly when the walk
      reads a link whose target has PATH_MAX bytes or more. */
  lemma {:induction false} OverrunIffLongTarget(fs: FileSystem, stack: seq<string>, text: string, links: nat, readLast: bool)
    requires links <= MAXSYMLINKS
    ensures WalkText(fs, stack, text, links, readLast) == GaveUp(true) <==>
              exists target :: ReadsLink(fs, stack, text, links, readLast, target) && |target| >= PATH_MAX
    decreases MAXSYMLINKS - links, |text|
  {
    LongHere(fs, stack, text, links, readLast);
    var m, here := Step(fs, stack, text, links, readLast), LinkHere(fs, stack, text, links, readLast);
    if here.Some? && |here.value| >= PATH_MAX {
      assert ReadsLink(fs, stack, text, links, readLast, here.value);
    }
    if m.Next? {
      OverrunIffLongTarget(fs, m.stack, m.text, m.links, readLast);
      forall target | |target| >= PATH_MAX
        ensures ReadsLink(fs, stack, text, links, readLast, target) <==> ReadsLink(fs, m.stack, m.text, m.links, readLast, target)
      {
      }
    }
  }

  /** The same for `canonical`, which then always answers ENAMETOOLONG. */
  lemma CanonicalOverruns(fs: FileSystem, cwd: Option<string>, name: string, readLast: bool)
    requires name != "" && (name[0] == '/' || cwd.Some?)
    ensures Overruns(fs, cwd, Some(name), readLast) <==>
              exists target :: ReadsLink(fs, Base(cwd, name), name, 0, readLast, target) && |target| >= PATH_MAX
    ensures Overruns(fs, cwd, Some(name), readLast) ==> CanonicalName(fs, cwd, Some(name), readLast) == Err(ENAMETOOLONG)
  {
    OverrunIffLongTarget(fs, Base(cwd, name), name, 0, readLast);
  }

  /** Any link in the root directory with so long a target will do. */
  lemma LongTargetOverruns(fs: FileSystem, c: string)
    requires ValidComponent(c) && fs.lstat("/" + c) == Link
    requires fs.readlink("/" + c).Ok? && |fs.readlink("/" + c).value| >= PATH_MAX
    ensures Overruns(fs, None, Some("/" + c), true)
  {
    StepInto(c, []);
    JoinedCons(c, []);
    assert Joined([]) == "" && "/" + c + "" == "/" + c && c + "" == c;
    assert c[..|c|] == c && c[|c|..] == "";
    assert [] + [c] == [c];
  }

  // ----- what a successful resolution has looked at -----

  /** Every directory on the way down to the top of the stack was seen and is not a link. */
  ghost predicate Resolved(fs: FileSystem, stack: seq<string>) {
    forall k :: 0 < k <= |stack| ==> fs.lstat(Render(stack[..k])) == NotLink
  }

  /** What the last component of a result may be. */
  ghost predicate LastAcceptable(fs: FileSystem, stack: seq<string>, readLast: bool) {
    readLast && stack != [] ==> fs.lstat(Render(stack)) in {NotLink, Failed(ENOENT)}
  }

  ghost predicate GoodResult(fs: FileSystem, stack: seq<string>, readLast: bool) {
    && ValidStack(stack)
    && Resolved(fs, Pop(stack))
    && LastAcceptable(fs, stack, readLast)
  }

  lemma ResolvedPush(fs: FileSystem, stack: seq<string>, c: string)
    requires Resolved(fs, stack) && fs.lstat(Render(stack + [c])) == NotLink
    ensures Resolved(fs, stack + [c])
  {
    var s := stack + [c];
    forall k | 0 < k <= |s| ensures fs.lstat(Render(s[..k])) == NotLink {
      if k <= |stack| { assert s[..k] == stack[..k]; } else { assert s[..k] == s; }
    }
  }

  lemma ResolvedPop(fs: FileSystem, stack: seq<string>)
    requires Resolved(fs, stack)
    ensures Resolved(fs, Pop(stack))
  {
    forall k | 0 < k <= |Pop(stack)| ensures fs.lstat(Render(Pop(stack)[..k])) == NotLink {
      assert Pop(stack)[..k] == stack[..k];
    }
  }

  lemma GoodStack(fs: FileSystem, stack: seq<string>, readLast: bool)
    requires ValidStack(stack) && Resolved(fs, stack)
    ensures GoodResult(fs, stack, readLast)
  {
    ResolvedPop(fs, stack);
    if stack != [] { assert stack[..|stack|] == stack; }
  }

  lemma NulFreeParts(s: string)
    requires NulFree(s)
    ensures forall a, b :: 0 <= a <= b <= |s| ==> NulFree(s[a..b])
  {
  }

  /** What every step keeps, and what it leaves when it is the last. */
  ghost predicate WalkInv(fs: FileSystem, stack: seq<string>, text: string, readLast: bool) {
    && NulFree(text)
    && ValidStack(stack)
    && (Resolved(fs, stack) || (OnlySlashes(text) && GoodResult(fs, stack, readLast)))
  }

  lemma StepKeepsInv(fs: FileSystem, stack: seq<string>, text: string, links: nat, readLast: bool)
    requires links <= MAXSYMLINKS && WellFormed(fs) && WalkInv(fs, stack, text, readLast)
    ensures var m := Step(fs, stack, text, links, readLast);
            m.Next? ==> WalkInv(fs, m.stack, m.text, readLast)
  {
    SplitEmptyIff(text);
    SkipShrinks(text);
    NulFreeParts(text);
    var t := SkipSlashes(text);
    ComponentIsClean(t);
    var n := ComponentLength(t);
    if n > 0 {
      var c, end := t[..n], t[n..];
      assert NulFree(c) && NulFree(end) by { NulFreeParts(t); }
      ResolvedPop(fs, stack);
      if c != "." && c != ".." {
        EnterKeepsInv(fs, stack, c, end, links, readLast);
      }
    }
  }

  lemma EnterKeepsInv(fs: FileSystem, stack: seq<string>, c: string, end: string, links: nat, readLast: bool)
    requires WellFormed(fs) && NulFree(end)
    requires ValidStack(stack) && ValidComponent(c) && Resolved(fs, stack)
    ensures var m := Enter(fs, stack, c, end, links, readLast);
            m.Next? ==> WalkInv(fs, m.stack, m.text, readLast)
  {
    var here := stack + [c];
    assert Pop(here) == stack;
    match Look(fs, Render(here), OnlySlashes(end), links, readLast)
    case Stop(_) =>
    case Keep =>
      if fs.lstat(Render(here)) == NotLink {
        ResolvedPush(fs, stack, c);
      }
    case Follow(buf) =>
      assert NulFree(buf) by { NulFreeParts(fs.readlink(Render(here)).value); }
  }

  /** From a resolved starting point every successful walk ends in a good stack. */
  lemma {:induction false} WalkIsGood(fs: FileSystem, stack: seq<string>, text: string, links: nat, readLast: bool)
    requires links <= MAXSYMLINKS && WellFormed(fs) && WalkInv(fs, stack, text, readLast)
    ensures var r := ResolveText(fs, stack, text, links, readLast);
            r.Ok? ==> GoodResult(fs, r.value, readLast)
    decreases MAXSYMLINKS - links, |text|
  {
    match Step(fs, stack, text, links, readLast)
    case Arrived =>
      if Resolved(fs, stack) {
        GoodStack(fs, stack, readLast);
      }
    case Refused(_) =>
    case TooLong(_) =>
    case Next(s, t, l) =>
      StepKeepsInv(fs, stack, text, links, readLast);
      WalkIsGood(fs, s, t, l, readLast);
  }

  /** The working directory a caller may pass: canonical, and resolved on this file system. */
  ghost predicate ResolvedDirectory(fs: FileSystem, cwd: string) {
    exists stack :: ValidStack(stack) && Resolved(fs, stack) && cwd == Render(stack)
  }

  /** No empty, "." or ".." component, no doubled or trailing separator, no NUL. */
  ghost predicate CanonicalText(path: string) {
    path == Render(Split(path)) && ValidStack(Split(path))
  }

  /** A name that canonical returns from a resolved directory is canonical, no proper
      ancestor of it is a link, and when the last link is read the name itself is not one. */
  lemma CanonicalNameIsCanonical(fs: FileSystem, cwd: Option<string>, name: Option<string>, readLast: bool)
    requires WellFormed(fs)
    requires name.Some? ==> NulFree(name.value)
    requires cwd.Some? ==> ResolvedDirectory(fs, cwd.value)
    ensures var r := CanonicalName(fs, cwd, name, readLast);
            r.Ok? ==> CanonicalText(r.value) && GoodResult(fs, Split(r.value), readLast)
  {
    var r := CanonicalName(fs, cwd, name, readLast);
    if r.Ok? {
      var base := Base(cwd, name.value);
      if name.value[0] != '/' {
        var stack :| ValidStack(stack) && Resolved(fs, stack) && cwd.value == Render(stack);
        SplitRender(stack);
      }
      WalkIsGood(fs, base, name.value, 0, readLast);
      SplitRender(ResolveText(fs, base, name.value, 0, readLast).value);
    }
  }

  // ----- canonical names are fixed points -----

  lemma {:induction false} WalkKnownPath(fs: FileSystem, stack: seq<string>, k: nat, readLast: bool)
    requires GoodResult(fs, stack, readLast) && k <= |stack|
    ensures ResolveText(fs, stack[..k], Joined(stack[k..]), 0, readLast) == Ok(stack)
    decreases |stack| - k
  {
    if k == |stack| {
      assert stack[..k] == stack && Joined(stack[k..]) == "";
      WalkEnds(fs, stack, "", 0, readLast);
    } else {
      StepKnownPath(fs, stack, k, readLast);
      WalkKnownPath(fs, stack, k + 1, readLast);
    }
  }

  lemma StepKnownPath(fs: FileSystem, stack: seq<string>, k: nat, readLast: bool)
    requires GoodResult(fs, stack, readLast) && k < |stack|
    ensures Step(fs, stack[..k], Joined(stack[k..]), 0, readLast) == Next(stack[..k + 1], Joined(stack[k + 1..]), 0)
  {
    var c, rest := stack[k], stack[k + 1..];
    assert stack[k..] == [c] + rest;
    StepInto(c, rest);
    var t := c + Joined(rest);
    assert t[..|c|] == c && t[|c|..] == Joined(rest);
    var here := stack[..k + 1];
    assert stack[..k] + [c] == here;
    JoinedSlashes(rest);
    if rest == [] {
      assert here == stack;
    } else {
      assert here == Pop(stack)[..k + 1];
    }
    assert Enter(fs, stack[..k], c, Joined(rest), 0, readLast) == Next(here, Joined(rest), 0);
  }

  lemma JoinedSlashes(rest: seq<string>)
    requires ValidStack(rest)
    ensures OnlySlashes(Joined(rest)) <==> rest == []
  {
    SplitJoined(rest);
    SplitEmptyIff(Joined(rest));
  }

  /** Canonicalising a canonical name again changes nothing, whatever directory it is done from. */
  lemma CanonicalNameIdempotent(fs: FileSystem, cwd: Option<string>, name: Option<string>, readLast: bool, cwd': Option<string>)
    requires WellFormed(fs)
    requires name.Some? ==> NulFree(name.value)
    requires cwd.Some? ==> ResolvedDirectory(fs, cwd.value)
    ensures var r := CanonicalName(fs, cwd, name, readLast);
            r.Ok? ==> CanonicalName(fs, cwd', Some(r.value), readLast) == r
  {
    var r := CanonicalName(fs, cwd, name, readLast);
    if r.Ok? {
      CanonicalNameIsCanonical(fs, cwd, name, readLast);
      var stack := Split(r.value);
      if stack == [] {
        assert r.value == "/" && OnlySlashes("/");
        WalkEnds(fs, [], "/", 0, readLast);
      } else {
        WalkKnownPath(fs, stack, 0, readLast);
        assert stack[..0] == [] && stack[0..] == stack;
        JoinedStart(stack);
      }
    }
  }

  // ----- cyclic links -----

  /** A name that is a link to itself, in the directory the stack stands for. */
  ghost predicate SelfLink(fs: FileSystem, stack: seq<string>, c: string) {
    ValidComponent(c) && fs.lstat(Render(stack + [c])) == Link && fs.readlink(Render(stack + [c])) == Ok(c)
  }

  lemma {:induction false} SelfLinkLoops(fs: FileSystem, stack: seq<string>, c: string, end: string, links: nat, readLast: bool)
    requires SelfLink(fs, stack, c) && (end == "" || end[0] == '/') && |c| + |end| < PATH_MAX && links <= MAXSYMLINKS
    requires readLast || !OnlySlashes(end)
    ensures ResolveText(fs, stack, c + end, links, readLast) == Err(ELOOP)
    decreases MAXSYMLINKS - links
  {
    ComponentFound(c, end);
    assert c[0] in c;
    assert SkipSlashes(c + end) == c + end && (c + end)[..|c|] == c && (c + end)[|c|..] == end;
    if links < MAXSYMLINKS {
      SelfLinkLoops(fs, stack, c, end, links + 1, readLast);
    }
  }

  /** A link to itself is reported and not followed for ever, on every file system, from every
      resolved directory, and with anything behind the name. */
  lemma CycleIsReported(fs: FileSystem, stack: seq<string>, c: string, end: string, readLast: bool)
    requires ValidStack(stack) && SelfLink(fs, stack, c) && (end == "" || end[0] == '/') && |c| + |end| < PATH_MAX
    requires readLast || !OnlySlashes(end)
    ensures CanonicalName(fs, Some(Render(stack)), Some(c + end), readLast) == Err(ELOOP)
  {
    SplitRender(stack);
    assert c[0] in c && (c + end)[0] == c[0];
    SelfLinkLoops(fs, stack, c, end, 0, readLast);
  }
}
