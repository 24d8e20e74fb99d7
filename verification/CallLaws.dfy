/** What holds over every run of calls: each entry finds the task clean, handlers run at most once,
    and OKFS gives up exactly when a task patches its memory after a fork of its own has failed or
    gives an address that a handler cannot use. */
module CallLaws {
  import opened Common
  import opened CallModel

  /** Nothing left over from a call. */
  predicate Clean(t: Task) {
    t.arg1 == NO_PATH && t.arg2 == NO_PATH
  }

  /** A task outside a call. */
  predicate Idle(t: Task, stuck: bool) {
    t.during == 0 && t.next == NoHandler && t.restart == 0 && Clean(t) && t.rpl == stuck
  }

  /** A task inside a call: the handler that will run finds what it needs. */
  predicate Busy(t: Task, stuck: bool) {
    && t.during != 0 && (t.restart != 0 ==> t.next == NoHandler)
    && match t.next
       case AfterOkfsOpen => t.rpl && !stuck && t.arg1.fsp.Some? && t.arg2 == NO_PATH
       case AfterLinuxOpen => t.rpl && !stuck && t.arg1.fsp.None? && t.arg2 == NO_PATH
       case AfterFork => t.rpl && !stuck && Clean(t)
       case LinkOrRename => t.rpl == stuck && t.arg1.fsp == t.arg2.fsp
       case _ => t.rpl == stuck && Clean(t)
  }

  /** To cover a path is to stand in front of it, and the whole path stands in front of itself. */
  lemma CoversIff(mounts: seq<string>, canon: string)
    ensures forall i, rel :: 0 <= i < |mounts| && canon == mounts[i] + rel ==> Covers(mounts[i], canon)
    ensures forall i :: 0 <= i < |mounts| && Covers(mounts[i], canon) ==> canon == mounts[i] + canon[|mounts[i]|..]
  {
    forall i, rel | 0 <= i < |mounts| && canon == mounts[i] + rel ensures Covers(mounts[i], canon) {
      assert (mounts[i] + rel)[..|mounts[i]|] == mounts[i];
    }
    forall i | 0 <= i < |mounts| && Covers(mounts[i], canon) ensures canon == mounts[i] + canon[|mounts[i]|..] {
      assert canon == canon[..|mounts[i]|] + canon[|mounts[i]|..];
    }
  }

  /** proc_path: a resolved path is the first mount point that stands in front of it followed by the rest,
      and is left to Linux exactly when none does. A path that is a mount point itself is resolved to it or
      to an earlier one, with an empty rest or a longer one. */
  lemma ResolvedSplits(mounts: seq<string>, a: PathArg)
    requires Resolves(a)
    ensures var r := Resolved(mounts, a);
            && r.path == Some(a.text) && r.canon == a.canon && (r.fsp.Some? <==> r.rel.Some?)
            && (r.fsp.None? <==> forall i :: 0 <= i < |mounts| ==> !Covers(mounts[i], a.canon.value))
            && (r.fsp.Some? ==> r.fsp.value < |mounts| && mounts[r.fsp.value] + r.rel.value == a.canon.value)
            && (r.fsp.Some? ==> forall i :: 0 <= i < r.fsp.value ==> !Covers(mounts[i], a.canon.value))
    ensures var r := Resolved(mounts, a);
            forall i, rel :: 0 <= i < |mounts| && a.canon.value == mounts[i] + rel ==> r.fsp.Some? && r.fsp.value <= i
  {
    CoversIff(mounts, a.canon.value);
  }

  /** Does the handler in front of the call replace memory? */
  predicate Patches(mounts: seq<string>, k: Kind) {
    match k
    case Open(a, fd, _) => Resolves(a) && (FirstMount(mounts, a.canon.value).Some? ==> fd >= 0)
    case Fork => true
    case Clone(supported) => supported
    case _ => false
  }

  /** The handler in front of the call is given an address that it cannot use. */
  predicate BadEntry(mounts: seq<string>, k: Kind) {
    match k
    case Open(a, fd, room) => a.Unreadable? || (Patches(mounts, k) && !room)
    case LinkRename(a1, a2) => a1.Unreadable? || (Resolves(a1) && a2.Unreadable?)
    case _ => false
  }

  /** The handler behind the call is. */
  predicate BadExit(next: Handler, b: Back) {
    match next
    case OnePath => b.arg.Unreadable? || (Resolves(b.arg) && !b.access)
    case SecondPath => b.arg.Unreadable? || (Resolves(b.arg) && !b.access)
    case StatHandler => b.found && !b.access
    case NoPaths => !b.access
    case _ => false
  }

  /** Entering a call makes a clean task ready for its handler, or ends OKFS, which happens exactly
      when memory is to be replaced and a patch is still there, or when an address is bad. */
  lemma EnterKeeps(setup: Setup, t: Task, nr: nat, k: Kind, serial: nat, stuck: bool)
    requires Idle(t, stuck) && nr != 0
    requires k.Wait? || k.OnDescriptor? ==> k.next in {NoHandler, NoPaths, ReturnSaved}
    ensures var o := Enter(setup, t, nr, k, serial);
            && o.task.serial == serial
            && o.quit == (if stuck && Patches(setup.mounts, k) then Some(ReplacedAndNotRestored)
                          else if BadEntry(setup.mounts, k) then Some(NoAccess) else None)
            && (o.quit.None? ==> Busy(o.task, stuck))
  {
  }

  /** Leaving a call leaves the task and a new child clean, and the patch is gone unless this was a
      fork that failed. It ends OKFS exactly when an address is bad or, in the debug build, when fstat64
      has found its file and a patch is there. */
  lemma LeaveKeeps(setup: Setup, t: Task, b: Back, stuck: bool)
    requires Busy(t, stuck)
    ensures var l := Leave(setup, t, b);
            && l.quit == (if setup.asserts && t.next == StatHandler && b.found && stuck then Some(AssertionFailed)
                          else if BadExit(t.next, b) then Some(NoAccess) else None)
            && (l.quit.None? ==> Idle(l.task, stuck || (t.next == AfterFork && b.ret < 0)))
            && (l.child.Some? <==> t.next == AfterFork && b.ret >= 0)
            && (l.child.Some? ==> Idle(l.child.value, false))
            && (l.ran <==> t.next != NoHandler)
  {
  }

  /** Calls are numbered: what has run is behind, what is under way has not run and is told apart. */
  ghost predicate Numbered(s: State) {
    && Distinct(s.ran) && (forall n :: n in s.ran ==> n < s.calls)
    && (forall p :: p in s.inCall ==> p in s.tasks && s.tasks[p].serial < s.calls && s.tasks[p].serial !in s.ran)
    && (forall p, q :: p in s.inCall && q in s.inCall && p != q ==> s.tasks[p].serial != s.tasks[q].serial)
  }

  ghost predicate TasksOk(s: State) {
    && s.stuck <= s.tasks.Keys <= s.used && s.inCall <= s.tasks.Keys
    && (forall p :: p in s.tasks && p in s.inCall ==> Busy(s.tasks[p], p in s.stuck))
    && (forall p :: p in s.tasks && p !in s.inCall ==> Idle(s.tasks[p], p in s.stuck))
  }

  ghost predicate Inv(s: State) {
    s.fault.None? ==> TasksOk(s) && Numbered(s)
  }

  /** The end of an fstat64 that has found its file. */
  predicate StatEnds(s: State, e: Event) {
    e.Exit? && e.back.found && e.pid in s.tasks && s.tasks[e.pid].next == StatHandler
  }

  /** A handler is given an address that it cannot use. */
  predicate BadAddress(setup: Setup, s: State, e: Event) {
    match e
    case Entry(_, _, k) => BadEntry(setup.mounts, k)
    case Exit(p, b) => p in s.tasks && BadExit(s.tasks[p].next, b)
    case Death(_) => false
  }

  /** What a task with a patch left by a failed fork must not do: replace memory again or, in the debug
      build, end an fstat64. */
  predicate NeedsNoPatch(setup: Setup, s: State, e: Event) {
    (e.Entry? && Patches(setup.mounts, e.kind)) || (setup.asserts && StatEnds(s, e))
  }

  /** When an event ends OKFS, and with which error. */
  function GivesUp(setup: Setup, s: State, e: Event): Option<Fault> {
    if e.pid in s.stuck && NeedsNoPatch(setup, s, e) then Some(if e.Entry? then ReplacedAndNotRestored else AssertionFailed)
    else if BadAddress(setup, s, e) then Some(NoAccess)
    else None
  }

  lemma EntryStep(setup: Setup, s: State, e: Event)
    requires e.Entry? && s.fault.None? && Inv(s) && Legal(s, e)
    ensures Inv(Step(setup, s, e))
    ensures Step(setup, s, e).fault == GivesUp(setup, s, e)
  {
    EnterKeeps(setup, s.tasks[e.pid], e.nr, e.kind, s.calls, e.pid in s.stuck);
  }

  lemma ExitTasks(setup: Setup, s: State, e: Event)
    requires e.Exit? && s.fault.None? && Inv(s) && Legal(s, e)
    ensures Step(setup, s, e).fault == GivesUp(setup, s, e)
    ensures GivesUp(setup, s, e).None? ==> TasksOk(Step(setup, s, e))
  {
    LeaveKeeps(setup, s.tasks[e.pid], e.back, e.pid in s.stuck);
  }

  lemma ExitNumbers(setup: Setup, s: State, e: Event)
    requires e.Exit? && s.fault.None? && Inv(s) && Legal(s, e) && GivesUp(setup, s, e).None?
    ensures Numbered(Step(setup, s, e))
  {
    LeaveKeeps(setup, s.tasks[e.pid], e.back, e.pid in s.stuck);
    var s' := Step(setup, s, e);
    assert forall p :: p in s'.inCall ==> p in s.inCall && p != e.pid && s'.tasks[p] == s.tasks[p];
  }

  /** Every step keeps the invariant, and ends OKFS exactly under the condition above. */
  lemma StepKeeps(setup: Setup, s: State, e: Event)
    requires s.fault.None? && Inv(s) && Legal(s, e)
    ensures Inv(Step(setup, s, e))
    ensures Step(setup, s, e).fault == GivesUp(setup, s, e)
  {
    match e {
      case Entry(_, _, _) => EntryStep(setup, s, e);
      case Exit(_, _) =>
        ExitTasks(setup, s, e);
        if GivesUp(setup, s, e).None? {
          ExitNumbers(setup, s, e);
        }
      case Death(_) =>
    }
  }

  lemma {:induction false} RunKeeps(setup: Setup, first: Pid, run: seq<Event>)
    requires LegalRun(setup, first, run)
    ensures Inv(After(setup, first, run))
  {
    if run != [] {
      var before := run[..|run| - 1];
      RunKeeps(setup, first, before);
      var s := After(setup, first, before);
      if s.fault.None? {
        StepKeeps(setup, s, run[|run| - 1]);
      }
    }
  }

  /** After every run, a task that is about to enter a call has empty path fields and no handler
      left, and a patch outstanding only if a fork of its own has failed. */
  lemma EntryFindsClean(setup: Setup, first: Pid, run: seq<Event>, p: Pid)
    requires LegalRun(setup, first, run) && After(setup, first, run).fault.None?
    requires p in After(setup, first, run).tasks && p !in After(setup, first, run).inCall
    ensures var s := After(setup, first, run);
            && s.tasks[p].arg1 == NO_PATH && s.tasks[p].arg2 == NO_PATH && s.tasks[p].next == NoHandler
            && s.tasks[p].restart == 0 && (s.tasks[p].rpl <==> p in s.stuck)
  {
    RunKeeps(setup, first, run);
  }

  /** In every run the next event ends OKFS exactly when it gives a handler a bad address, or when it
      replaces memory (in the debug build, or ends an fstat64) in a task whose fork has failed; no other
      check of these handlers ever fails. */
  lemma FatalExactly(setup: Setup, first: Pid, run: seq<Event>, e: Event)
    requires LegalRun(setup, first, run) && After(setup, first, run).fault.None?
    requires Legal(After(setup, first, run), e)
    ensures var s := After(setup, first, run);
            Step(setup, s, e).fault == GivesUp(setup, s, e)
  {
    RunKeeps(setup, first, run);
    StepKeeps(setup, After(setup, first, run), e);
  }

  /** No fork fails in the run. */
  ghost predicate ForksSucceed(setup: Setup, first: Pid, run: seq<Event>)
    requires LegalRun(setup, first, run)
  {
    run == [] || (ForksSucceed(setup, first, run[..|run| - 1]) && !ForkFails(After(setup, first, run[..|run| - 1]), run[|run| - 1]))
  }

  /** While forks succeed no patch outlives its call, and nothing ends OKFS but a bad address. */
  lemma {:induction false} NeverFatal(setup: Setup, first: Pid, run: seq<Event>)
    requires LegalRun(setup, first, run) && ForksSucceed(setup, first, run)
    ensures After(setup, first, run).fault in {None, Some(NoAccess)} && After(setup, first, run).stuck == {}
  {
    if run != [] {
      var before := run[..|run| - 1];
      NeverFatal(setup, first, before);
      RunKeeps(setup, first, before);
      if After(setup, first, before).fault.None? {
        StepKeeps(setup, After(setup, first, before), run[|run| - 1]);
      }
    }
  }

  /** No call has its handler run twice. */
  lemma HandlersRunOnce(setup: Setup, first: Pid, run: seq<Event>)
    requires LegalRun(setup, first, run) && After(setup, first, run).fault.None?
    ensures Distinct(After(setup, first, run).ran)
  {
    RunKeeps(setup, first, run);
  }

  /** A fork of p has failed somewhere in the run. */
  ghost predicate FailedBefore(setup: Setup, first: Pid, run: seq<Event>, p: Pid)
    requires LegalRun(setup, first, run)
  {
    run != [] &&
    var before, e := run[..|run| - 1], run[|run| - 1];
    FailedBefore(setup, first, before, p) || (e.pid == p && ForkFails(After(setup, first, before), e))
  }

  /** Some task does what it must not after a fork of its own has failed, or gives a bad address. */
  ghost predicate Ends(setup: Setup, first: Pid, run: seq<Event>)
    requires LegalRun(setup, first, run)
  {
    run != [] &&
    var before, e := run[..|run| - 1], run[|run| - 1];
    var s := After(setup, first, before);
    || Ends(setup, first, before)
    || (FailedBefore(setup, first, before, e.pid) && NeedsNoPatch(setup, s, e))
    || BadAddress(setup, s, e)
  }

  /** `stuck` is what the run says it is. */
  lemma {:induction false} StuckByHistory(setup: Setup, first: Pid, run: seq<Event>, p: Pid)
    requires LegalRun(setup, first, run) && After(setup, first, run).fault.None?
    ensures var s := After(setup, first, run);
            && (FailedBefore(setup, first, run, p) ==> p in s.used)
            && (p in s.tasks ==> (p in s.stuck <==> FailedBefore(setup, first, run, p)))
  {
    if run != [] {
      var before, e := run[..|run| - 1], run[|run| - 1];
      RunKeeps(setup, first, before);
      StuckByHistory(setup, first, before, p);
      var s := After(setup, first, before);
      if e.Exit? {
        LeaveKeeps(setup, s.tasks[e.pid], e.back, e.pid in s.stuck);
      }
    }
  }

  /** The whole run: OKFS has given up exactly when some task replaced memory (in the debug build, or
      ended an fstat64) after a fork of its own had failed, or gave a handler a bad address. */
  lemma {:induction false} FatalRunExactly(setup: Setup, first: Pid, run: seq<Event>)
    requires LegalRun(setup, first, run)
    ensures After(setup, first, run).fault.Some? <==> Ends(setup, first, run)
  {
    if run != [] {
      var before, e := run[..|run| - 1], run[|run| - 1];
      FatalRunExactly(setup, first, before);
      var s := After(setup, first, before);
      if s.fault.None? {
        RunKeeps(setup, first, before);
        StuckByHistory(setup, first, before, e.pid);
        StepKeeps(setup, s, e);
      }
    }
  }

  // ----- one failed fork is enough -----

  /** A call comes back with nothing to look at. */
  function Returns(ret: int): Back {
    Back(ret, NullPointer, false, true)
  }

  const NR_PAUSE := 29

  /** A fork fails. Its patch, the loop that calls pause, stays where the task goes on, so that the
      task enters pause; it gets out of the loop only into a signal handler of its own. */
  function Failing(p: Pid): seq<Event> {
    [Entry(p, 2, Fork), Exit(p, Returns(-11)), Entry(p, NR_PAUSE, Plain), Exit(p, Returns(-4))]
  }

  lemma LegalMore(setup: Setup, first: Pid, run: seq<Event>, e: Event)
    requires LegalRun(setup, first, run) && Legal(After(setup, first, run), e)
    ensures LegalRun(setup, first, run + [e])
    ensures After(setup, first, run + [e]) == Step(setup, After(setup, first, run), e)
  {
    assert (run + [e])[..|run|] == run;
  }

  /** The first task after k events of the failing run. */
  ghost predicate FailingAt(setup: Setup, p: Pid, k: nat, s: State) {
    k <= 4 && LegalRun(setup, p, Failing(p)[..k]) && After(setup, p, Failing(p)[..k]) == s
  }

  lemma FailingMore(setup: Setup, p: Pid, k: nat, s: State)
    requires k < 4 && FailingAt(setup, p, k, s) && Legal(s, Failing(p)[k])
    ensures FailingAt(setup, p, k + 1, Step(setup, s, Failing(p)[k]))
  {
    LegalMore(setup, p, Failing(p)[..k], Failing(p)[k]);
    assert Failing(p)[..k] + [Failing(p)[k]] == Failing(p)[..k + 1];
  }

  function Left1(p: Pid, calls: nat, rpl: bool, during: nat, next: Handler, serial: nat, ran: seq<nat>, stuck: set<Pid>): State {
    State(map[p := Task(during, next, 0, NO_PATH, NO_PATH, rpl, serial)], if during == 0 then {} else {p}, calls, ran, stuck, {p}, None)
  }

  lemma ForkHasFailed(setup: Setup, p: Pid)
    ensures FailingAt(setup, p, 2, Left1(p, 1, true, 0, NoHandler, 0, [0], {p}))
  {
    assert Failing(p)[..0] == [];
    var s1 := Left1(p, 1, true, 2, AfterFork, 0, [], {});
    FailingMore(setup, p, 0, Initial(p));
    assert Step(setup, Initial(p), Failing(p)[0]) == s1;
    FailingMore(setup, p, 1, s1);
    assert Step(setup, s1, Failing(p)[1]) == Left1(p, 1, true, 0, NoHandler, 0, [0], {p});
  }

  lemma PauseHasReturned(setup: Setup, p: Pid)
    ensures FailingAt(setup, p, 4, Left1(p, 2, true, 0, NoHandler, 1, [0], {p}))
  {
    ForkHasFailed(setup, p);
    var s2 := Left1(p, 1, true, 0, NoHandler, 0, [0], {p});
    var s3 := Left1(p, 2, true, NR_PAUSE, NoHandler, 1, [0], {p});
    FailingMore(setup, p, 2, s2);
    assert Step(setup, s2, Failing(p)[2]) == s3;
    FailingMore(setup, p, 3, s3);
    assert Step(setup, s3, Failing(p)[3]) == Left1(p, 2, true, 0, NoHandler, 1, [0], {p});
  }

  /** An open of a Linux file by a signal handler of that task ends OKFS, in either build. */
  lemma FailedForkIsFatal(setup: Setup, p: Pid, path: string)
    requires setup.mounts == []
    ensures var run := Failing(p) + [Entry(p, 5, Open(Text(path, Some(path)), 0, true))];
            LegalRun(setup, p, run) && After(setup, p, run).fault == Some(ReplacedAndNotRestored)
  {
    PauseHasReturned(setup, p);
    assert Failing(p)[..4] == Failing(p);
    var s4 := Left1(p, 2, true, 0, NoHandler, 1, [0], {p});
    var e := Entry(p, 5, Open(Text(path, Some(path)), 0, true));
    LegalMore(setup, p, Failing(p), e);
    FatalExactly(setup, p, Failing(p), e);
  }

  /** Its fstat64 of a file of OKFS ends the debug build, though that replaces no memory, and the
      shipped build goes on. */
  lemma FailedForkBreaksStat(setup: Setup, p: Pid)
    ensures var run := Failing(p) + [Entry(p, 197, Fstat64(true)), Exit(p, Back(0, NullPointer, true, true))];
            LegalRun(setup, p, run) && After(setup, p, run).fault == if setup.asserts then Some(AssertionFailed) else None
  {
    PauseHasReturned(setup, p);
    assert Failing(p)[..4] == Failing(p);
    var e, x := Entry(p, 197, Fstat64(true)), Exit(p, Back(0, NullPointer, true, true));
    LegalMore(setup, p, Failing(p), e);
    var s5 := Left1(p, 3, true, 197, StatHandler, 2, [0], {p});
    assert Step(setup, Left1(p, 2, true, 0, NoHandler, 1, [0], {p}), e) == s5;
    LegalMore(setup, p, Failing(p) + [e], x);
    assert Failing(p) + [e] + [x] == Failing(p) + [e, x];
    FatalExactly(setup, p, Failing(p) + [e], x);
  }
}
