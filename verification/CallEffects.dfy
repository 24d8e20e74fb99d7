/** What the entry and the end of each call leave in the per-call fields of its task, spelled out: which
    handler will run, which paths it finds, whether memory is replaced, what a new task starts with. */
module CallEffects {
  import opened Common
  import opened CallModel
  import opened CallLaws

  /** The path lies under a mount point. */
  ghost predicate OnMount(mounts: seq<string>, a: PathArg) {
    a.Text? && a.canon.Some? && exists i, rel :: 0 <= i < |mounts| && a.canon.value == mounts[i] + rel
  }

  /** The fields hold the text, its canonical form and, when it lies under a mount point, the first one
      and what follows it. */
  ghost predicate Holds(mounts: seq<string>, a: PathArg, r: Resolve) {
    && a.Text? && a.canon.Some? && r.path == Some(a.text) && r.canon == a.canon
    && (if OnMount(mounts, a) then
          && r.fsp.Some? && r.rel.Some? && r.fsp.value < |mounts| && a.canon.value == mounts[r.fsp.value] + r.rel.value
          && (forall i, rel :: 0 <= i < |mounts| && a.canon.value == mounts[i] + rel ==> r.fsp.value <= i)
        else r.fsp == None && r.rel == None)
  }

  lemma ResolvedHolds(mounts: seq<string>, a: PathArg)
    requires Resolves(a)
    ensures Holds(mounts, a, Resolved(mounts, a)) && (Resolved(mounts, a).fsp.Some? <==> OnMount(mounts, a))
  {
    ResolvedSplits(mounts, a);
    CoversIff(mounts, a.canon.value);
  }

  /** One answer only. */
  lemma HoldsOnce(mounts: seq<string>, a: PathArg, r: Resolve, r': Resolve)
    requires Holds(mounts, a, r) && Holds(mounts, a, r')
    ensures r == r'
  {
    if OnMount(mounts, a) {
      var c := a.canon.value;
      assert c == mounts[r.fsp.value] + r.rel.value && c == mounts[r'.fsp.value] + r'.rel.value;
      assert r.fsp.value == r'.fsp.value;
      assert r.rel.value == c[|mounts[r.fsp.value]|..] == r'.rel.value;
    }
  }

  /** Only p is affected. */
  ghost predicate OthersSame(s: State, s': State, p: Pid) {
    forall q :: q in s.tasks && q != p ==> q in s'.tasks && s'.tasks[q] == s.tasks[q]
  }

  /** Entering a call that does not end OKFS: the task is in the call, under a number of its own, and
      only a wait turned into a pause is to be restarted. */
  lemma Entered(setup: Setup, s: State, p: Pid, nr: nat, k: Kind)
    requires s.fault.None? && Inv(s) && Legal(s, Entry(p, nr, k)) && Step(setup, s, Entry(p, nr, k)).fault.None?
    ensures var s' := Step(setup, s, Entry(p, nr, k));
            && s'.tasks.Keys == s.tasks.Keys && OthersSame(s, s', p) && s'.inCall == s.inCall + {p} && s'.calls == s.calls + 1
            && s'.ran == s.ran && s'.stuck == s.stuck && s'.used == s.used
            && var t' := s'.tasks[p];
               t'.during == nr && t'.serial == s.calls && t'.restart == if k.Suspend? then nr else 0
  {
  }

  /** Which handler will run. Calls that neither open, link, fork nor take paths leave no path and no
      patch. */
  lemma HandlerLeft(setup: Setup, s: State, p: Pid, nr: nat, k: Kind)
    requires s.fault.None? && Inv(s) && Legal(s, Entry(p, nr, k)) && Step(setup, s, Entry(p, nr, k)).fault.None?
    requires !k.Open? && !k.LinkRename?
    ensures var t, t' := s.tasks[p], Step(setup, s, Entry(p, nr, k)).tasks[p];
            && t'.arg1 == NO_PATH && t'.arg2 == NO_PATH
            && (t'.rpl <==> t.rpl || k.Fork? || (k.Clone? && k.supported))
            && t'.next == match k
                 case PathCall => OnePath
                 case SymlinkCall => SecondPath
                 case Fork => AfterFork
                 case Clone(supported) => if supported then AfterFork else ReturnSaved
                 case Wait(next) => next
                 case OnDescriptor(next) => next
                 case Fstat64(managed) => if managed then StatHandler else NoHandler
                 case Refused => ReturnSaved
                 case _ => NoHandler
  {
  }

  /** An open goes on exactly when its path can be canonicalised and, under a mount point, OKFS has opened
      the file: then the path is kept and memory replaced for the handler, one for files of OKFS and one
      for files of Linux. Otherwise it is answered with an error and nothing is kept. */
  lemma OpenLeft(setup: Setup, s: State, p: Pid, nr: nat, a: PathArg, fd: int, room: bool)
    requires s.fault.None? && Inv(s) && Legal(s, Entry(p, nr, Open(a, fd, room)))
    requires Step(setup, s, Entry(p, nr, Open(a, fd, room))).fault.None?
    ensures var t, t' := s.tasks[p], Step(setup, s, Entry(p, nr, Open(a, fd, room))).tasks[p];
            && t'.arg2 == NO_PATH
            && if a.Text? && a.canon.Some? && (OnMount(setup.mounts, a) ==> fd >= 0) then
                 && Holds(setup.mounts, a, t'.arg1) && t'.rpl && t'.next == if OnMount(setup.mounts, a) then AfterOkfsOpen else AfterLinuxOpen
               else t'.arg1 == NO_PATH && t'.rpl == t.rpl && t'.next == ReturnSaved
  {
    if Resolves(a) { ResolvedHolds(setup.mounts, a); }
  }

  /** The two paths lie in the same file system: under the same mount point, the first for each, or under
      none. */
  ghost predicate SameSide(mounts: seq<string>, a1: PathArg, a2: PathArg) {
    exists r1, r2 :: Holds(mounts, a1, r1) && Holds(mounts, a2, r2) && r1.fsp == r2.fsp
  }

  /** link and rename go on exactly when both paths can be canonicalised and lie in one file system; then
      both are kept. Otherwise the call is answered with an error and nothing is kept. */
  lemma LinkLeft(setup: Setup, s: State, p: Pid, nr: nat, a1: PathArg, a2: PathArg)
    requires s.fault.None? && Inv(s) && Legal(s, Entry(p, nr, LinkRename(a1, a2)))
    requires Step(setup, s, Entry(p, nr, LinkRename(a1, a2))).fault.None?
    ensures var t, t' := s.tasks[p], Step(setup, s, Entry(p, nr, LinkRename(a1, a2))).tasks[p];
            && t'.rpl == t.rpl
            && if SameSide(setup.mounts, a1, a2) then
                 t'.next == LinkOrRename && Holds(setup.mounts, a1, t'.arg1) && Holds(setup.mounts, a2, t'.arg2)
               else t'.next == ReturnSaved && t'.arg1 == NO_PATH && t'.arg2 == NO_PATH
  {
    if Resolves(a1) && Resolves(a2) {
      ResolvedHolds(setup.mounts, a1);
      ResolvedHolds(setup.mounts, a2);
      var q1, q2 := Resolved(setup.mounts, a1), Resolved(setup.mounts, a2);
      if SameSide(setup.mounts, a1, a2) {
        var r1, r2 :| Holds(setup.mounts, a1, r1) && Holds(setup.mounts, a2, r2) && r1.fsp == r2.fsp;
        HoldsOnce(setup.mounts, a1, q1, r1);
        HoldsOnce(setup.mounts, a2, q2, r2);
      }
    }
  }

  /** Leaving a call that does not end OKFS: its handler has run exactly when one was left, nothing is left
      of the call, a fork that succeeded has made one new task with nothing of its own, and no memory is
      replaced but by a fork that failed, now or before. */
  lemma LeftExactly(setup: Setup, s: State, p: Pid, b: Back)
    requires s.fault.None? && Inv(s) && Legal(s, Exit(p, b)) && Step(setup, s, Exit(p, b)).fault.None?
    ensures var s', t := Step(setup, s, Exit(p, b)), s.tasks[p];
            && OthersSame(s, s', p) && s'.inCall == s.inCall - {p} && s'.calls == s.calls
            && s'.ran == (if t.next == NoHandler then s.ran else s.ran + [t.serial])
            && s'.stuck == (if t.next == AfterFork && b.ret < 0 then s.stuck + {p} else s.stuck)
            && p in s'.tasks && s'.tasks[p] == Task(0, NoHandler, 0, NO_PATH, NO_PATH, p in s'.stuck, t.serial)
            && (if t.next == AfterFork && b.ret > 0 then
                  && b.ret !in s.tasks && s'.tasks.Keys == s.tasks.Keys + {b.ret} && s'.used == s.used + {b.ret}
                  && s'.tasks[b.ret] == Task(0, NoHandler, 0, NO_PATH, NO_PATH, false, 0)
                else s'.tasks.Keys == s.tasks.Keys && s'.used == s.used)
  {
    LeaveKeeps(setup, s.tasks[p], b, p in s.stuck);
  }
}
