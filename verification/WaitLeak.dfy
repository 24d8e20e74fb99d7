/** Dead tasks that the table keeps for ever: how exactly they come about, that they never go, and
    a run after which every process is dead and OKFS has not ended. */
module WaitLeak {
  import opened Common
  import opened Tasks
  import opened WaitModel
  import opened WaitLaws
  import opened WaitTheorems
  import opened WaitRace

  /** A dead task without a parent: nobody is left to report it to. */
  predicate Leaked(tab: Table, c: Pid) {
    c in tab && tab[c].exited && tab[c].ppid == INIT
  }

  /** after_wait_wnohang takes a reaped child off its parent's list and leaves it in the table. */
  predicate ReapsQuietly(s: State, e: Event, c: Pid)
    requires e.pid in s.tasks
  {
    e.Leave? && s.tasks[e.pid].restartCall.None? && s.tasks[e.pid].nextCall == AfterWnohang && e.reply == Reaped(c)
  }

  /** The parent of a dead child that is on record as stopped is removed. */
  predicate OrphansTheDead(s: State, e: Event, c: Pid)
    requires e.pid in s.tasks
  {
    && c in s.tasks && s.tasks[c].exited && s.tasks[c].state != Zombie
    && s.tasks[c].ppid in s.tasks && s.tasks[c].ppid !in Next(s, e).tasks
  }

  /** What a removal does to parents. */
  lemma RemovalOrphans(tab: Table, pid: Pid, c: Pid)
    requires Forest(tab) && pid in tab && tab[pid].ppid == INIT && c in tab
    ensures var r := RemoveSlave(tab, pid);
            && (c in r ==> r[c].exited == tab[c].exited)
            && (c in r && r[c].ppid == INIT <==>
                  c in r && (tab[c].ppid == INIT || tab[c].ppid !in r))
            && (c != pid && tab[c].state != Zombie ==> c in r)
            && (c != pid && tab[c].ppid == INIT ==> c in r)
            && (c in r && tab[c].ppid != INIT && tab[c].ppid !in r ==> tab[c].state != Zombie)
  {
    RemoveExact(tab, pid);
    var r := RemoveSlave(tab, pid);
    var gone := tab.Keys - r.Keys;
    if c != pid && (tab[c].state != Zombie || tab[c].ppid == INIT) {
      assert ZombieClosed(tab, tab.Keys - {c});
    }
    if c in r && tab[c].ppid != INIT {
      var p := tab[c].ppid;
      assert p in tab && c in tab[p].children;
      if p in gone {
        assert ChildOfGone(tab, gone, c);
      } else {
        forall q | q in gone && q in tab ensures c !in tab[q].children {
        }
      }
    }
  }

  /** Nothing but parents, lists and ends matters here. */
  lemma ResumeLeaks(s: State, c: Pid)
    ensures Leaked(Resume(s).tasks, c) <==> Leaked(s.tasks, c)
    ensures Resume(s).tasks.Keys == s.tasks.Keys
  {
  }

  lemma ExitLeaks(s: State, p: Pid, c: Pid)
    requires Inv(s) && p in s.tasks && !s.tasks[p].exited && s.slave == Some(p)
    ensures var tab := ExitSlave(s, p).tasks;
            && (Leaked(s.tasks, c) ==> Leaked(tab, c))
            && (!Leaked(s.tasks, c) ==>
                  (Leaked(tab, c) <==> c in s.tasks && s.tasks[c].exited && s.tasks[c].state != Zombie
                                       && s.tasks[c].ppid in s.tasks && s.tasks[c].ppid !in tab))
  {
    var t' := s.tasks[p].(state := Zombie, exited := true);
    var tab1 := s.tasks[p := s.tasks[p].(exited := true)];
    var tab2 := s.tasks[p := t'];
    assert tab1[p := tab1[p].(state := Zombie)] == tab2;
    BecomesReady(s.tasks, p, t');
    if t'.ppid == INIT {
      if c in s.tasks {
        RemovalOrphans(tab2, p, c);
        assert c != p ==> tab2[c] == s.tasks[c];
      }
    } else {
      assert ExitSlave(s, p).tasks.Keys == s.tasks.Keys;
    }
  }

  lemma ReapLeaks(tab: Table, p: Pid, k: Pid, c: Pid)
    requires InvBut(tab, p) && p in tab && !tab[p].exited && k in tab[p].children && k in tab
    ensures var r := RemoveSlave(RemoveChild(tab, p, k), k);
            && (Leaked(tab, c) ==> Leaked(r, c))
            && (!Leaked(tab, c) ==>
                  (Leaked(r, c) <==> c in tab && tab[c].exited && tab[c].state != Zombie
                                     && tab[c].ppid in tab && tab[c].ppid !in r))
  {
    RemoveChildKeeps(tab, p, k);
    var tab1 := RemoveChild(tab, p, k);
    LivingStay(tab1, k, p);
    if c in tab {
      RemovalOrphans(tab1, k, c);
      assert c != p && c != k ==> tab1[c] == tab[c];
      if c == k {
        assert tab[c].ppid == p;
        RemoveExact(tab1, k);
      }
    }
  }

  /** The dead without a parent after a handler, for the table before and after it. */
  ghost predicate LeaksBy(tab: Table, r: Table, c: Pid, quietly: bool) {
    && (Leaked(tab, c) ==> Leaked(r, c))
    && (!Leaked(tab, c) ==>
          (Leaked(r, c) <==> quietly || (c in tab && tab[c].exited && tab[c].state != Zombie
                                         && tab[c].ppid in tab && tab[c].ppid !in r)))
  }

  lemma HandlerLeaks(s: State, p: Pid, reply: Reply, c: Pid)
    requires Inv(s) && Enabled(s, Leave(p, reply)) && s.tasks[p].restartCall.None? && !BadStatus(s.tasks[p], reply)
    ensures var r := AfterCall(s.tasks, p, reply);
            r.Some? && p in r.value && LeaksBy(s.tasks, r.value, c, ReapsQuietly(s, Leave(p, reply), c))
  {
    var t := s.tasks[p];
    assert InvBut(s.tasks, p);
    LeaveHandler(s, p, reply);
    if reply.Reaped? {
      RemoveChildKeeps(s.tasks, p, reply.child);
      if t.nextCall != AfterWnohang {
        ReapLeaks(s.tasks, p, reply.child, c);
      } else {
        QuietReap(s.tasks, p, reply.child, c);
      }
    }
  }

  lemma LeaveLeaks(s: State, e: Event, c: Pid)
    requires Inv(s) && Enabled(s, e) && e.Leave?
    ensures Leaked(s.tasks, c) ==> Leaked(Next(s, e).tasks, c)
    ensures !Leaked(s.tasks, c) ==> (Leaked(Next(s, e).tasks, c) <==> ReapsQuietly(s, e, c) || OrphansTheDead(s, e, c))
  {
    var p, reply, t := e.pid, e.reply, s.tasks[e.pid];
    var s1 := LeaveCall(s.(slave := Some(p)), p, reply);
    ResumeLeaks(s1, c);
    if t.restartCall.None? && !BadStatus(t, reply) {
      HandlerLeaks(s, p, reply, c);
      var tab := AfterCall(s.tasks, p, reply).value;
      assert s1.tasks.Keys == tab.Keys && (Leaked(s1.tasks, c) <==> Leaked(tab, c));
    }
  }

  lemma QuietReap(tab: Table, p: Pid, k: Pid, c: Pid)
    requires InvBut(tab, p) && p in tab && !tab[p].exited && k in tab[p].children && k in tab && tab[k].exited
    ensures var r := RemoveChild(tab, p, k);
            r.Keys == tab.Keys && (Leaked(r, c) <==> Leaked(tab, c) || c == k)
  {
    RemoveChildKeeps(tab, p, k);
    RemoveChildForest(tab, p, k);
  }

  /** A dead task without a parent comes into the table exactly by a reap behind WNOHANG, or by the
      removal of the parent of a dead child that is on record as stopped. */
  lemma LeakIff(s: State, e: Event, c: Pid)
    requires Inv(s) && Enabled(s, e) && !Leaked(s.tasks, c)
    ensures Leaked(Next(s, e).tasks, c) <==> ReapsQuietly(s, e, c) || OrphansTheDead(s, e, c)
  {
    match e
    case Leave(_, _) => LeaveLeaks(s, e, c);
    case Exit(p) =>
      var s1 := s.(slave := Some(p));
      ExitLeaks(s1, p, c);
      ResumeLeaks(ExitSlave(s1, p), c);
    case SignalStop(q, sig) => SignalLeaks(s, q, sig, c);
    case Send(_, _) =>
    case Sigaction(_, _, _) =>
    case NoProcess(_) =>
    case EnterWait(_, _) =>
    case EnterFork(_) =>
    case EnterOther(_) =>
  }

  lemma ChangeLeaks(tab: Table, q: Pid, st: RunState, c: Pid)
    requires q in tab && st != Zombie
    ensures var r := ChangeState(tab, q, st);
            r.Keys == tab.Keys && (Leaked(r, c) <==> Leaked(tab, c))
  {
  }

  lemma StopLeaks(s: State, q: Pid, c: Pid)
    requires q in s.tasks
    ensures var s' := StopSlave(s, q);
            s'.tasks.Keys == s.tasks.Keys && (Leaked(s'.tasks, c) <==> Leaked(s.tasks, c))
  {
    StopEffect(s, q, q);
    if c in s.tasks {
      StopEffect(s, q, c);
    }
  }

  lemma ProcessLeaks(s: State, q: Pid, sig: Signal, c: Pid)
    requires q in s.tasks
    ensures var s' := ProcessSignal(s, q, sig).0;
            s'.tasks.Keys == s.tasks.Keys && (Leaked(s'.tasks, c) <==> Leaked(s.tasks, c))
  {
    StopLeaks(s, q, c);
    ChangeLeaks(s.tasks, q, Running, c);
  }

  lemma SignalLeaks(s: State, q: Pid, sig: Signal, c: Pid)
    requires Inv(s) && Enabled(s, SignalStop(q, sig))
    ensures var s' := Next(s, SignalStop(q, sig));
            s'.tasks.Keys == s.tasks.Keys && (Leaked(s'.tasks, c) <==> Leaked(s.tasks, c))
  {
    var s1 := Take(s.(slave := Some(q)), q, sig);
    ProcessLeaks(s1, q, sig, c);
    ResumeLeaks(ProcessSignal(s1, q, sig).0, c);
  }

  /** It never leaves again. */
  lemma LeakStays(s: State, e: Event, c: Pid)
    requires Inv(s) && Enabled(s, e) && Leaked(s.tasks, c)
    ensures Leaked(Next(s, e).tasks, c)
  {
    match e
    case Leave(_, _) => LeaveLeaks(s, e, c);
    case Exit(p) =>
      var s1 := s.(slave := Some(p));
      ExitLeaks(s1, p, c);
      ResumeLeaks(ExitSlave(s1, p), c);
    case SignalStop(q, sig) => SignalLeaks(s, q, sig, c);
    case Send(_, _) =>
    case Sigaction(_, _, _) =>
    case NoProcess(_) =>
    case EnterWait(_, _) =>
    case EnterFork(_) =>
    case EnterOther(_) =>
  }

  /** Over every run: once a dead task has leaked, the table is never empty again, so that OKFS
      can no longer end by the removal of its last task. */
  lemma {:induction false} LeakForEver(s: State, run: seq<Event>, c: Pid)
    requires Inv(s) && Legal(s, run) && Leaked(s.tasks, c)
    ensures Inv(After(s, run)) && Leaked(After(s, run).tasks, c) && After(s, run).tasks != map[]
    decreases |run|
  {
    if run != [] {
      StepKeeps(s, run[0]);
      LeakStays(s, run[0], c);
      LeakForEver(Next(s, run[0]), run[1..], c);
    }
  }

  // ----- a run that leaks -----

  const POLL := WaitArgs(-1, true, false, false, Unmapped)

  /** A parent forks and polls for its child, the child ends, the poll reports it, and the parent
      ends. */
  const LEAK_RUN: seq<Event> :=
    [EnterFork(2), Leave(2, Forked(3)), EnterWait(2, POLL), Exit(3), Leave(2, Reaped(3)), Exit(2)]

  /** A parent that polls, told of its child's end. */
  function PollingParent(pending: set<Signal>): Task {
    Parent([3], true, AfterWnohang, None, None, pending)
  }

  lemma Polling()
    ensures var s, e := Both(IdleParent(None, {}), Child(Running, {}, false, false), 2), EnterWait(2, POLL);
            Enabled(s, e) && Next(s, e) == Both(PollingParent({}), Child(Running, {}, false, false), 2)
  {
    NothingHeld({});
    var s := Both(IdleParent(None, {}), Child(Running, {}, false, false), 2);
    var tab := s.tasks[2 := Entered(s.tasks[2], NoHandler)];
    assert Matches(tab[2], 3, tab[3], POLL) && !Reportable(tab, 2, 3, POLL);
    assert FirstReady(tab, 2, [3], POLL) == None;
    assert 3 in [3] && AnyMatch(tab, 2, [3], POLL);
  }

  lemma PollEntered()
    ensures Reached(LEAK_RUN, 3, Both(PollingParent({}), Child(Running, {}, false, false), 2))
  {
    ForkLeft(LEAK_RUN);
    Polling();
    OneMore(LEAK_RUN, 2, Both(IdleParent(None, {}), Child(Running, {}, false, false), 2), Both(PollingParent({}), Child(Running, {}, false, false), 2));
  }

  lemma Dying()
    ensures var s, e := Both(PollingParent({}), Child(Running, {}, false, false), 2), Exit(3);
            Enabled(s, e) && Next(s, e) == Both(PollingParent({SIGUNPAUSE}), Child(Zombie, {}, true, false), 3)
  {
    var none: set<Signal> := {};
    assert none + {SIGUNPAUSE} == {SIGUNPAUSE};
  }

  lemma ChildEnded()
    ensures Reached(LEAK_RUN, 4, Both(PollingParent({SIGUNPAUSE}), Child(Zombie, {}, true, false), 3))
  {
    PollEntered();
    Dying();
    OneMore(LEAK_RUN, 3, Both(PollingParent({}), Child(Running, {}, false, false), 2), Both(PollingParent({SIGUNPAUSE}), Child(Zombie, {}, true, false), 3));
  }

  /** The dead child, off its parent's list. */
  function Orphan(): Task {
    Child(Zombie, {}, true, false).(ppid := INIT)
  }

  lemma Reaping()
    ensures var s, e := Both(PollingParent({SIGUNPAUSE}), Child(Zombie, {}, true, false), 3), Leave(2, Reaped(3));
            && Enabled(s, e) && ReapsQuietly(s, e, 3)
            && Next(s, e) == Both(Parent([], false, NoHandler, None, None, {SIGUNPAUSE}), Orphan(), 2)
  {
    NothingHeld({SIGUNPAUSE});
    assert Without([3], 3) == [];
  }

  lemma ChildReaped()
    ensures Reached(LEAK_RUN, 5, Both(Parent([], false, NoHandler, None, None, {SIGUNPAUSE}), Orphan(), 2))
  {
    ChildEnded();
    Reaping();
    OneMore(LEAK_RUN, 4, Both(PollingParent({SIGUNPAUSE}), Child(Zombie, {}, true, false), 3),
            Both(Parent([], false, NoHandler, None, None, {SIGUNPAUSE}), Orphan(), 2));
  }

  lemma Ending()
    ensures var s, e := Both(Parent([], false, NoHandler, None, None, {SIGUNPAUSE}), Orphan(), 2), Exit(2);
            Enabled(s, e) && Next(s, e) == State(map[3 := Orphan()], None, false)
  {
    var s := Both(Parent([], false, NoHandler, None, None, {SIGUNPAUSE}), Orphan(), 2);
    var tab := s.tasks[2 := s.tasks[2].(exited := true)];
    var tab' := tab[2 := tab[2].(state := Zombie)];
    assert tab' - {2} == map[3 := Orphan()];
    assert RemoveSlave(tab', 2) == map[3 := Orphan()];
  }

  lemma ParentEnded()
    ensures Reached(LEAK_RUN, 6, State(map[3 := Orphan()], None, false))
  {
    ChildReaped();
    Ending();
    OneMore(LEAK_RUN, 5, Both(Parent([], false, NoHandler, None, None, {SIGUNPAUSE}), Orphan(), 2), State(map[3 := Orphan()], None, false));
  }

  /** Every process is dead, a task is left in the table and OKFS has not ended; its own wait then
      fails, and it ends with that error. */
  lemma LeakOutlivesAll()
    ensures Initial(RaceStart()) && Legal(RaceStart(), LEAK_RUN)
    ensures var s := After(RaceStart(), LEAK_RUN);
            && s.tasks.Keys == {3} && Leaked(s.tasks, 3) && !s.halted
            && Enabled(s, NoProcess(3)) && Next(s, NoProcess(3)).halted
  {
    assert 2 > INIT;
    ParentEnded();
    assert LEAK_RUN[..6] == LEAK_RUN;
  }
}
