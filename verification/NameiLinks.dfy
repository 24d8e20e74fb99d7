/** Pathname resolution spelled out: what each kind of component does to the answer, where links lead,
    where relative names start, and how many links may follow each other. Nothing here speaks of the
    steps that the two resolvers share. */
module NameiLinks {
  import opened Common
  import opened CText
  import opened NameiSpec
  import opened NameiLaws

  // ----- one component -----

  lemma {:induction false} SkipLead(lead: string, text: string)
    requires OnlySlashes(lead)
    ensures SkipSlashes(lead + text) == SkipSlashes(text)
  {
    if lead == "" {
      assert lead + text == text;
    } else {
      assert (lead + text)[1..] == lead[1..] + text;
      SkipLead(lead[1..], text);
    }
  }

  /** Separators in front change nothing. */
  lemma LeadingSlashes(fs: FileSystem, stack: seq<string>, lead: string, text: string, links: nat, readLast: bool)
    requires links <= MAXSYMLINKS && OnlySlashes(lead)
    ensures ResolveText(fs, stack, lead + text, links, readLast) == ResolveText(fs, stack, text, links, readLast)
  {
    SkipLead(lead, text);
    assert Step(fs, stack, lead + text, links, readLast) == Step(fs, stack, text, links, readLast);
  }

  lemma ComponentAhead(c: string, end: string)
    requires c != "" && '/' !in c && (end == "" || end[0] == '/')
    ensures var t := SkipSlashes(c + end);
            ComponentLength(t) == |c| && t[..|c|] == c && t[|c|..] == end
  {
    assert c[0] in c;
    assert SkipSlashes(c + end) == c + end;
    ComponentFound(c, end);
  }

  /** The answer for a name that goes on with the component c, by what c is. Together with the end of a
      name (`WalkEnds`) these equations leave no choice. */
  lemma WalkComponent(fs: FileSystem, stack: seq<string>, c: string, end: string, links: nat, readLast: bool)
    requires links <= 20 && c != "" && '/' !in c && (end == "" || end[0] == '/')
    ensures var r, last, here := ResolveText(fs, stack, c + end, links, readLast), OnlySlashes(end), Render(stack + [c]);
            if c == "." then r == ResolveText(fs, stack, end, links, readLast)
            else if c == ".." then r == ResolveText(fs, if stack == [] then [] else stack[..|stack| - 1], end, links, readLast)
            else if !readLast && last then r == Ok(stack + [c])
            else
              match fs.lstat(here)
              case Failed(e) => r == if e == ENOENT && last then Ok(stack + [c]) else Err(e)
              case NotLink => r == ResolveText(fs, stack + [c], end, links, readLast)
              case Link =>
                if links == 20 then r == Err(ELOOP) else
                match fs.readlink(here)
                case Err(e) => r == Err(e)
                case Ok(target) =>
                  if |target| + |end| >= 4096 then r == Err(ENAMETOOLONG)
                  else if target != "" && target[0] == '/' then r == ResolveText(fs, [], target + end, links + 1, readLast)
                  else r == ResolveText(fs, stack, target + end, links + 1, readLast)
  {
    ComponentAhead(c, end);
    if OnlySlashes(end) {
      WalkEnds(fs, stack + [c], end, links, readLast);
    }
  }

  // ----- where a name starts -----

  lemma RenderIs(stack: seq<string>, c: string)
    ensures Render([]) == "/" && Render([c]) == "/" + c
    ensures stack != [] ==> Render(stack + [c]) == Render(stack) + "/" + c
  {
    assert Init(stack + [c]) == stack;
    JoinedCons(c, []);
    assert [c] + [] == [c] && Joined([]) == "" && "/" + c + "" == "/" + c;
  }

  function Rendered(r: Result<seq<string>>): Result<string> {
    match r
    case Ok(stack) => Ok(Render(stack))
    case Err(e) => Err(e)
  }

  /** A name is walked from the root or from the working directory, and two kinds of name from nowhere. */
  lemma CanonicalStarts(fs: FileSystem, stack: seq<string>, cwd: Option<string>, name: string, readLast: bool)
    requires ValidStack(stack)
    ensures CanonicalName(fs, cwd, None, readLast) == Err(EINVAL) && CanonicalName(fs, cwd, Some(""), readLast) == Err(ENOENT)
    ensures name != "" && name[0] == '/' ==>
              CanonicalName(fs, cwd, Some(name), readLast) == Rendered(ResolveText(fs, [], name, 0, readLast))
    ensures name != "" && name[0] != '/' ==>
              && CanonicalName(fs, None, Some(name), readLast) == Err(EINVAL)
              && CanonicalName(fs, Some(Render(stack)), Some(name), readLast) == Rendered(ResolveText(fs, stack, name, 0, readLast))
  {
    SplitRender(stack);
  }

  // ----- known directories -----

  /** Directories that are known not to be links are walked through. */
  lemma {:induction false} WalkPrefix(fs: FileSystem, stack: seq<string>, k: nat, end: string, links: nat, readLast: bool)
    requires ValidStack(stack) && Resolved(fs, stack) && k <= |stack| && links <= MAXSYMLINKS && (end == "" || end[0] == '/')
    ensures ResolveText(fs, stack[..k], Joined(stack[k..]) + end, links, readLast) == ResolveText(fs, stack, end, links, readLast)
    decreases |stack| - k
  {
    if k == |stack| {
      assert stack[..k] == stack && stack[k..] == [] && Joined([]) + end == end;
    } else {
      PrefixStep(fs, stack, k, end, links, readLast);
      WalkPrefix(fs, stack, k + 1, end, links, readLast);
    }
  }

  lemma PrefixStep(fs: FileSystem, stack: seq<string>, k: nat, end: string, links: nat, readLast: bool)
    requires ValidStack(stack) && Resolved(fs, stack) && k < |stack| && links <= MAXSYMLINKS && (end == "" || end[0] == '/')
    ensures ResolveText(fs, stack[..k], Joined(stack[k..]) + end, links, readLast) ==
            ResolveText(fs, stack[..k + 1], Joined(stack[k + 1..]) + end, links, readLast)
  {
    var c, rest := stack[k], stack[k + 1..];
    var more := Joined(rest) + end;
    assert stack[k..] == [c] + rest && stack[..k] + [c] == stack[..k + 1];
    JoinedCons(c, rest);
    JoinedStart(rest);
    assert Joined(stack[k..]) + end == "/" + (c + more);
    LeadingSlashes(fs, stack[..k], "/", c + more, links, readLast);
    WalkComponent(fs, stack[..k], c, more, links, readLast);
    if OnlySlashes(more) {
      WalkEnds(fs, stack[..k + 1], more, links, readLast);
    }
  }

  /** What canonicalisation may leave at the end of a path, it leaves there. */
  lemma LastStays(fs: FileSystem, dir: seq<string>, c: string, links: nat, readLast: bool)
    requires ValidComponent(c) && links <= MAXSYMLINKS
    requires readLast ==> fs.lstat(Render(dir + [c])) in {NotLink, Failed(ENOENT)}
    ensures ResolveText(fs, dir, "/" + c, links, readLast) == Ok(dir + [c])
  {
    LeadingSlashes(fs, dir, "/", c, links, readLast);
    assert c + "" == c;
    WalkComponent(fs, dir, c, "", links, readLast);
    WalkEnds(fs, dir + [c], "", links, readLast);
  }

  lemma GoodParts(fs: FileSystem, base: seq<string>, path: seq<string>, readLast: bool)
    requires GoodResult(fs, base + path, readLast) && path != []
    ensures var dir, c := base + Init(path), Last(path);
            && ValidStack(dir) && Resolved(fs, dir) && ValidComponent(c) && dir + [c] == base + path
            && (readLast ==> fs.lstat(Render(dir + [c])) in {NotLink, Failed(ENOENT)})
  {
    var stack, dir := base + path, base + Init(path);
    assert Pop(stack) == dir && dir + [Last(path)] == stack;
    assert stack[|stack| - 1] == Last(path);
    assert forall i :: 0 <= i < |dir| ==> dir[i] == stack[i];
  }

  /** The same for a path that canonicalisation leaves alone. */
  lemma WalkGood(fs: FileSystem, base: seq<string>, path: seq<string>, links: nat, readLast: bool)
    requires GoodResult(fs, base + path, readLast) && links <= MAXSYMLINKS
    ensures ResolveText(fs, base, Joined(path), links, readLast) == Ok(base + path)
  {
    if path == [] {
      WalkEnds(fs, base, "", links, readLast);
      assert base + path == base;
    } else {
      var dir, c := base + Init(path), Last(path);
      GoodParts(fs, base, path, readLast);
      assert dir[..|base|] == base && dir[|base|..] == Init(path);
      assert Joined(path) == Joined(Init(path)) + ("/" + c);
      WalkPrefix(fs, dir, |base|, "/" + c, links, readLast);
      LastStays(fs, dir, c, links, readLast);
    }
  }

  /** A relative name is the name behind the working directory. */
  lemma RelativeName(fs: FileSystem, stack: seq<string>, name: string, readLast: bool, cwd: Option<string>)
    requires ValidStack(stack) && Resolved(fs, stack) && name != "" && name[0] != '/'
    ensures CanonicalName(fs, Some(Render(stack)), Some(name), readLast) ==
            CanonicalName(fs, cwd, Some((if stack == [] then "" else Render(stack)) + "/" + name), readLast)
  {
    var whole := (if stack == [] then "" else Render(stack)) + "/" + name;
    JoinedStart(stack);
    assert whole == Joined(stack) + ("/" + name) && whole[0] == '/';
    CanonicalStarts(fs, stack, cwd, name, readLast);
    CanonicalStarts(fs, stack, cwd, whole, readLast);
    WalkPrefix(fs, stack, 0, "/" + name, 0, readLast);
    assert stack[..0] == [] && stack[0..] == stack;
    LeadingSlashes(fs, stack, "/", name, 0, readLast);
  }

  /** `.` stays, `..` goes to the parent, and the root is its own parent. */
  lemma DotNames(fs: FileSystem, cwd: Option<string>, stack: seq<string>, readLast: bool)
    requires ValidStack(stack) && Resolved(fs, stack)
    ensures CanonicalName(fs, cwd, Some(Joined(stack) + "/."), readLast) == Ok(Render(stack))
    ensures CanonicalName(fs, cwd, Some(Joined(stack) + "/.."), readLast) ==
            Ok(Render(if stack == [] then [] else stack[..|stack| - 1]))
  {
    assert Joined(stack) + "/" + "." == Joined(stack) + "/." && Joined(stack) + "/" + ".." == Joined(stack) + "/..";
    DotName(fs, cwd, stack, ".", readLast);
    DotName(fs, cwd, stack, "..", readLast);
    WalkEnds(fs, stack, "", 0, readLast);
    WalkEnds(fs, if stack == [] then [] else stack[..|stack| - 1], "", 0, readLast);
  }

  lemma DotName(fs: FileSystem, cwd: Option<string>, stack: seq<string>, c: string, readLast: bool)
    requires ValidStack(stack) && Resolved(fs, stack) && c != "" && '/' !in c
    ensures CanonicalName(fs, cwd, Some(Joined(stack) + "/" + c), readLast) == Rendered(ResolveText(fs, stack, c, 0, readLast))
    ensures c == "." ==> ResolveText(fs, stack, c, 0, readLast) == ResolveText(fs, stack, "", 0, readLast)
    ensures c == ".." ==>
              ResolveText(fs, stack, c, 0, readLast) == ResolveText(fs, if stack == [] then [] else stack[..|stack| - 1], "", 0, readLast)
  {
    assert Joined(stack) + "/" + c == Joined(stack) + ("/" + c) && c + "" == c;
    KnownDirectory(fs, cwd, stack, c, readLast);
    WalkComponent(fs, stack, c, "", 0, readLast);
  }

  // ----- where links lead -----

  /** A name with a link at the end of a known directory, and the rest of the name behind it. */
  ghost predicate FollowsLink(fs: FileSystem, stack: seq<string>, c: string, target: string, more: seq<string>, readLast: bool) {
    && ValidStack(stack) && Resolved(fs, stack) && ValidComponent(c) && ValidStack(more)
    && fs.lstat(Render(stack + [c])) == Link && fs.readlink(Render(stack + [c])) == Ok(target)
    && (readLast || more != [])
  }

  /** Up to the last directory that is known, a name is walked through. */
  lemma KnownDirectory(fs: FileSystem, cwd: Option<string>, stack: seq<string>, text: string, readLast: bool)
    requires ValidStack(stack) && Resolved(fs, stack)
    ensures CanonicalName(fs, cwd, Some(Joined(stack) + ("/" + text)), readLast) == Rendered(ResolveText(fs, stack, text, 0, readLast))
  {
    var name := Joined(stack) + ("/" + text);
    JoinedStart(stack);
    assert name[0] == '/';
    CanonicalStarts(fs, stack, cwd, name, readLast);
    assert stack[..0] == [] && stack[0..] == stack;
    WalkPrefix(fs, stack, 0, "/" + text, 0, readLast);
    LeadingSlashes(fs, stack, "/", text, 0, readLast);
  }

  lemma RenderedName(stack: seq<string>, c: string, end: string)
    ensures Render(stack + [c]) + end == Joined(stack) + ("/" + (c + end))
  {
    assert Init(stack + [c]) == stack && Last(stack + [c]) == c;
  }

  /** What is left to walk once the link has been read. */
  lemma LinkAhead(fs: FileSystem, stack: seq<string>, c: string, target: string, end: string, readLast: bool)
    requires ValidComponent(c) && (end == "" || end[0] == '/') && (readLast || !OnlySlashes(end))
    requires fs.lstat(Render(stack + [c])) == Link && fs.readlink(Render(stack + [c])) == Ok(target)
    ensures ResolveText(fs, stack, c + end, 0, readLast) ==
            if |target| + |end| >= 4096 then Err(ENAMETOOLONG)
            else ResolveText(fs, if target != "" && target[0] == '/' then [] else stack, target + end, 1, readLast)
  {
    WalkComponent(fs, stack, c, end, 0, readLast);
  }

  lemma SomethingBehind(more: seq<string>)
    requires ValidStack(more)
    ensures OnlySlashes(Joined(more)) <==> more == []
    ensures Joined(more) == "" || Joined(more)[0] == '/'
  {
    JoinedStart(more);
    SplitJoined(more);
    SplitEmptyIff(Joined(more));
  }

  lemma LinkReached(fs: FileSystem, cwd: Option<string>, stack: seq<string>, c: string, target: string, more: seq<string>, readLast: bool)
    requires FollowsLink(fs, stack, c, target, more, readLast)
    ensures CanonicalName(fs, cwd, Some(Render(stack + [c]) + Joined(more)), readLast) ==
            if |target| + |Joined(more)| >= 4096 then Err(ENAMETOOLONG)
            else Rendered(ResolveText(fs, if target != "" && target[0] == '/' then [] else stack, target + Joined(more), 1, readLast))
  {
    SomethingBehind(more);
    RenderedName(stack, c, Joined(more));
    KnownDirectory(fs, cwd, stack, c + Joined(more), readLast);
    LinkAhead(fs, stack, c, target, Joined(more), readLast);
  }

  /** A link to an absolute path leads to that path, wherever the link is, and what stands behind the link
      is looked up there. */
  lemma AbsoluteLink(fs: FileSystem, cwd: Option<string>, stack: seq<string>, c: string, goal: seq<string>, more: seq<string>, readLast: bool)
    requires FollowsLink(fs, stack, c, Render(goal), more, readLast) && GoodResult(fs, goal + more, readLast)
    ensures CanonicalName(fs, cwd, Some(Render(stack + [c]) + Joined(more)), readLast) ==
            if |Render(goal)| + |Joined(more)| < 4096 then Ok(Render(goal + more)) else Err(ENAMETOOLONG)
  {
    LinkReached(fs, cwd, stack, c, Render(goal), more, readLast);
    JoinedStart(goal);
    assert [] + (goal + more) == goal + more;
    WalkGood(fs, [], goal + more, 1, readLast);
    JoinedAppend(goal, more);
    if goal == [] {
      assert goal + more == more;
      LeadingSlashes(fs, [], "/", Joined(more), 1, readLast);
    }
  }

  /** A link to a relative path leads there from the directory of the link. */
  lemma RelativeLink(fs: FileSystem, cwd: Option<string>, stack: seq<string>, c: string, goal: seq<string>, more: seq<string>, readLast: bool)
    requires goal != [] && GoodResult(fs, stack + (goal + more), readLast)
    requires ValidComponent(goal[0]) && Joined(goal) != "" && FollowsLink(fs, stack, c, Joined(goal)[1..], more, readLast)
    ensures CanonicalName(fs, cwd, Some(Render(stack + [c]) + Joined(more)), readLast) ==
            if |Joined(goal)| - 1 + |Joined(more)| < 4096 then Ok(Render(stack + (goal + more))) else Err(ENAMETOOLONG)
  {
    RelativeText(goal, more);
    LinkReached(fs, cwd, stack, c, Joined(goal)[1..], more, readLast);
    RelativeGoal(fs, stack, goal, more, readLast);
  }

  lemma RelativeGoal(fs: FileSystem, stack: seq<string>, goal: seq<string>, more: seq<string>, readLast: bool)
    requires goal != [] && ValidComponent(goal[0]) && GoodResult(fs, stack + (goal + more), readLast)
    ensures Joined(goal) != "" && ResolveText(fs, stack, Joined(goal)[1..] + Joined(more), 1, readLast) == Ok(stack + (goal + more))
  {
    RelativeText(goal, more);
    SlashedGoal(fs, stack, goal + more, stack + (goal + more), Joined(goal)[1..] + Joined(more), readLast);
  }

  lemma SlashedGoal(fs: FileSystem, base: seq<string>, path: seq<string>, whole: seq<string>, text: string, readLast: bool)
    requires whole == base + path && GoodResult(fs, whole, readLast) && "/" + text == Joined(path)
    ensures ResolveText(fs, base, text, 1, readLast) == Ok(whole)
  {
    LeadingSlashes(fs, base, "/", text, 1, readLast);
    WalkGood(fs, base, path, 1, readLast);
  }

  lemma RelativeText(goal: seq<string>, more: seq<string>)
    requires goal != [] && ValidComponent(goal[0])
    ensures Joined(goal) != ""
    ensures var target := Joined(goal)[1..];
            target != "" && target[0] != '/' && |target| == |Joined(goal)| - 1 && "/" + (target + Joined(more)) == Joined(goal + more)
  {
    var c, rest := goal[0], goal[1..];
    assert goal == [c] + rest;
    JoinedCons(c, rest);
    var t := c + Joined(rest);
    assert Joined(goal) == "/" + t;
    assert c[0] in c && t[0] == c[0];
    JoinedAppend(goal, more);
    Unslashed(Joined(goal), t, Joined(more));
  }

  lemma Unslashed(whole: string, t: string, more: string)
    requires whole == "/" + t
    ensures whole[1..] == t && "/" + (t + more) == whole + more
  {
  }

  // ----- how many links -----

  /** Names in the root directory, each but the last a link to the next. */
  ghost predicate Chain(fs: FileSystem, names: seq<string>) {
    && names != [] && (forall i :: 0 <= i < |names| ==> ValidComponent(names[i]) && |names[i]| < 4096)
    && (forall i :: 0 <= i < |names| - 1 ==> fs.lstat("/" + names[i]) == Link && fs.readlink("/" + names[i]) == Ok(names[i + 1]))
    && fs.lstat("/" + names[|names| - 1]) == NotLink
  }

  lemma {:induction false} ChainWalk(fs: FileSystem, names: seq<string>, k: nat)
    requires Chain(fs, names) && k < |names| && k <= 20
    ensures ResolveText(fs, [], names[k], k, true) == if |names| <= 21 then Ok([names[|names| - 1]]) else Err(ELOOP)
    decreases 20 - k
  {
    var c := names[k];
    RenderIs([], c);
    assert [] + [c] == [c] && c + "" == c && ValidComponent(c);
    WalkComponent(fs, [], c, "", k, true);
    if k < |names| - 1 {
      if k < 20 {
        var t := names[k + 1];
        assert ValidComponent(t) && t[0] in t && t + "" == t;
        ChainWalk(fs, names, k + 1);
      }
    } else {
      WalkEnds(fs, [c], "", k, true);
    }
  }

  /** A chain of links resolves to its end exactly when there are no more than twenty. */
  lemma LinkChain(fs: FileSystem, cwd: Option<string>, names: seq<string>)
    requires Chain(fs, names)
    ensures CanonicalName(fs, cwd, Some("/" + names[0]), true) ==
            if |names| - 1 <= 20 then Ok("/" + names[|names| - 1]) else Err(ELOOP)
  {
    CanonicalStarts(fs, [], cwd, "/" + names[0], true);
    LeadingSlashes(fs, [], "/", names[0], 0, true);
    ChainWalk(fs, names, 0);
    RenderIs([], names[|names| - 1]);
  }
}
