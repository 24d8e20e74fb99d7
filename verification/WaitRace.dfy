/** A run in which the report of a stopped child overwrites the record of its death; and what follows
    from such a record over every run: a wait for that child alone is never answered. */
module WaitRace {
  import opened Common
  import opened Tasks
  import opened WaitModel
  import opened WaitTheorems

  lemma {:induction false} Extend(s: State, run: seq<Event>, e: Event)
    requires Legal(s, run) && Enabled(After(s, run), e)
    ensures Legal(s, run + [e]) && After(s, run + [e]) == Next(After(s, run), e)
    decreases |run|
  {
    if run == [] {
      assert run + [e] == [e] && [e][1..] == [];
    } else {
      assert (run + [e])[0] == run[0] && (run + [e])[1..] == run[1..] + [e];
      Extend(Next(s, run[0]), run[1..], e);
    }
  }

  function RaceStart(): State {
    State(map[2 := FirstTask(7, {SIGSTOP})], Some(2), false)
  }

  /** The first k events of the run are possible and lead to s. */
  ghost predicate Reached(run: seq<Event>, k: nat, s: State)
    requires k <= |run|
  {
    Legal(RaceStart(), run[..k]) && After(RaceStart(), run[..k]) == s
  }

  lemma OneMore(run: seq<Event>, k: nat, s: State, s': State)
    requires k < |run| && Reached(run, k, s) && Enabled(s, run[k]) && Next(s, run[k]) == s'
    ensures Reached(run, k + 1, s')
  {
    Extend(RaceStart(), run[..k], run[k]);
    assert run[..k] + [run[k]] == run[..k + 1];
  }

  lemma NoneReached(run: seq<Event>)
    ensures Reached(run, 0, RaceStart())
  {
    assert run[..0] == [];
  }

  const RACE_WAIT := WaitArgs(-1, false, true, false, Writable)

  /** The task that starts, with process number 2; its child is 3. */
  function Parent(kids: seq<Pid>, busy: bool, h: Handler, restart: Option<WaitArgs>, stopped: Option<Pid>, pending: set<Signal>): Task {
    Task(INIT, 7, Running, kids, busy, h, restart, stopped, if stopped.Some? then Writable else Unmapped,
         {}, {SIGSTOP}, false, h == AfterFork, pending, false)
  }

  function Child(st: RunState, pending: set<Signal>, exited: bool, rpl: bool): Task {
    Task(2, 7, st, [], false, NoHandler, None, None, Unmapped, {}, {SIGSTOP}, false, rpl, pending, exited)
  }

  function Both(parent: Task, child: Task, slave: Pid): State {
    State(map[2 := parent, 3 := child], Some(slave), false)
  }

  /** A parent outside any call. */
  function IdleParent(stopped: Option<Pid>, pending: set<Signal>): Task {
    Parent([3], false, NoHandler, None, stopped, pending)
  }

  const TOLD: set<Signal> := {SIGUNPAUSE, SIGCHLD}

  /** A parent forks, its child is stopped, the parent enters a wait for stopped children, the
      child is killed, and the wait returns; the parent takes its two signals and waits again. */
  const RACE_RUN: seq<Event> :=
    [EnterFork(2), Leave(2, Forked(3)), Send(3, SIGSTOP), SignalStop(3, SIGSTOP), EnterWait(2, RACE_WAIT), Exit(3),
     Leave(2, Nothing), SignalStop(2, SIGUNPAUSE), SignalStop(2, SIGCHLD), EnterWait(2, RACE_WAIT)]

  lemma NothingHeld(kp: set<Signal>)
    ensures var none: set<Signal> := {}; kp + (none - {LAST_SIGNAL}) == kp && none * {LAST_SIGNAL} == none
  {
  }

  /** Any run that starts with a fork. */
  lemma ForkEntered(run: seq<Event>)
    requires |run| >= 2 && run[0] == EnterFork(2)
    ensures Reached(run, 1, State(map[2 := Parent([], true, AfterFork, None, None, {})], Some(2), false))
  {
    NoneReached(run);
    NothingHeld({});
    OneMore(run, 0, RaceStart(), State(map[2 := Parent([], true, AfterFork, None, None, {})], Some(2), false));
  }

  lemma ForkLeft(run: seq<Event>)
    requires |run| >= 2 && run[0] == EnterFork(2) && run[1] == Leave(2, Forked(3))
    ensures Reached(run, 2, Both(IdleParent(None, {}), Child(Running, {}, false, false), 2))
  {
    ForkEntered(run);
    NothingHeld({});
    assert [3] + [] == [3];
    OneMore(run, 1, State(map[2 := Parent([], true, AfterFork, None, None, {})], Some(2), false),
            Both(IdleParent(None, {}), Child(Running, {}, false, false), 2));
  }

  /** Any run in which the child is then sent SIGSTOP. */
  lemma StopSent(run: seq<Event>)
    requires |run| >= 4 && run[..3] == RACE_RUN[..3]
    ensures Reached(run, 3, Both(IdleParent(None, {}), Child(Running, {SIGSTOP}, false, false), 2))
  {
    assert run[0] == run[..3][0] && run[1] == run[..3][1] && run[2] == run[..3][2];
    ForkLeft(run);
    var none: set<Signal> := {};
    assert none + {SIGSTOP} == {SIGSTOP};
    OneMore(run, 2, Both(IdleParent(None, {}), Child(Running, {}, false, false), 2),
            Both(IdleParent(None, {}), Child(Running, {SIGSTOP}, false, false), 2));
  }

  lemma Stopping()
    ensures var s, e := Both(IdleParent(None, {}), Child(Running, {SIGSTOP}, false, false), 2), SignalStop(3, SIGSTOP);
            Enabled(s, e) && Next(s, e) == Both(IdleParent(None, TOLD), Child(Stopped, {}, false, true), 3)
  {
    NothingHeld({});
    var none: set<Signal> := {};
    assert {SIGSTOP} - {SIGSTOP} == none && none + {SIGUNPAUSE} == {SIGUNPAUSE} && {SIGUNPAUSE} + {SIGCHLD} == TOLD;
  }

  lemma ChildStopped(run: seq<Event>)
    requires |run| >= 4 && run[..4] == RACE_RUN[..4]
    ensures Reached(run, 4, Both(IdleParent(None, TOLD), Child(Stopped, {}, false, true), 3))
  {
    assert run[..3] == run[..4][..3] && run[3] == run[..4][3];
    StopSent(run);
    Stopping();
    OneMore(run, 3, Both(IdleParent(None, {}), Child(Running, {SIGSTOP}, false, false), 2),
            Both(IdleParent(None, TOLD), Child(Stopped, {}, false, true), 3));
  }

  /** A parent in a wait that is to report the stopped child. */
  function ReportingParent(): Task {
    Parent([3], true, AfterIsStopped, None, Some(3), TOLD)
  }

  lemma Waiting1()
    ensures var s, e := Both(IdleParent(None, TOLD), Child(Stopped, {}, false, true), 3), EnterWait(2, RACE_WAIT);
            Enabled(s, e) && Next(s, e) == Both(ReportingParent(), Child(Stopped, {}, false, true), 2)
  {
    NothingHeld(TOLD);
    var s := Both(IdleParent(None, TOLD), Child(Stopped, {}, false, true), 3);
    var tab := s.tasks[2 := Entered(s.tasks[2], NoHandler)];
    assert Reportable(tab, 2, 3, RACE_WAIT);
    assert FirstReady(tab, 2, [3], RACE_WAIT) == Some(3);
  }

  lemma WaitEntered()
    ensures Reached(RACE_RUN, 5, Both(ReportingParent(), Child(Stopped, {}, false, true), 2))
  {
    ChildStopped(RACE_RUN);
    Waiting1();
    OneMore(RACE_RUN, 4, Both(IdleParent(None, TOLD), Child(Stopped, {}, false, true), 3),
            Both(ReportingParent(), Child(Stopped, {}, false, true), 2));
  }

  lemma ChildDied()
    ensures Reached(RACE_RUN, 6, Both(ReportingParent(), Child(Zombie, {}, true, true), 3))
  {
    WaitEntered();
    assert TOLD + {SIGUNPAUSE} == TOLD;
    OneMore(RACE_RUN, 5, Both(ReportingParent(), Child(Stopped, {}, false, true), 2), Both(ReportingParent(), Child(Zombie, {}, true, true), 3));
  }

  /** What OKFS keeps on record of the dead child from then on. */
  function Hidden(): Task {
    Child(StoppedAndNotified, {}, true, true)
  }

  lemma Reporting()
    ensures var s, e := Both(ReportingParent(), Child(Zombie, {}, true, true), 3), Leave(2, Nothing);
            Enabled(s, e) && ReportsTheDead(s, e) && Next(s, e) == Both(IdleParent(Some(3), TOLD), Hidden(), 2)
  {
    NothingHeld(TOLD);
  }

  lemma ChildReported()
    ensures Reached(RACE_RUN, 7, Both(IdleParent(Some(3), TOLD), Hidden(), 2))
  {
    ChildDied();
    Reporting();
    OneMore(RACE_RUN, 6, Both(ReportingParent(), Child(Zombie, {}, true, true), 3), Both(IdleParent(Some(3), TOLD), Hidden(), 2));
  }

  lemma FirstSignalTaken()
    ensures Reached(RACE_RUN, 8, Both(IdleParent(Some(3), {SIGCHLD}), Hidden(), 2))
  {
    ChildReported();
    NothingHeld({SIGCHLD});
    assert TOLD - {SIGUNPAUSE} == {SIGCHLD};
    OneMore(RACE_RUN, 7, Both(IdleParent(Some(3), TOLD), Hidden(), 2), Both(IdleParent(Some(3), {SIGCHLD}), Hidden(), 2));
  }

  lemma SecondSignalTaken()
    ensures Reached(RACE_RUN, 9, Both(IdleParent(Some(3), {}), Hidden(), 2))
  {
    FirstSignalTaken();
    NothingHeld({});
    var none: set<Signal> := {};
    assert {SIGCHLD} - {SIGCHLD} == none;
    OneMore(RACE_RUN, 8, Both(IdleParent(Some(3), {SIGCHLD}), Hidden(), 2), Both(IdleParent(Some(3), {}), Hidden(), 2));
  }

  /** The parent asleep. */
  function SleepingParent(): Task {
    Parent([3], true, NoHandler, Some(RACE_WAIT), Some(3), {})
  }

  lemma Waiting2()
    ensures var s, e := Both(IdleParent(Some(3), {}), Hidden(), 2), EnterWait(2, RACE_WAIT);
            Enabled(s, e) && Next(s, e) == Both(SleepingParent(), Hidden(), 2)
  {
    NothingHeld({});
    var s := Both(IdleParent(Some(3), {}), Hidden(), 2);
    var tab := s.tasks[2 := Entered(s.tasks[2], NoHandler)];
    assert Matches(tab[2], 3, tab[3], RACE_WAIT) && !Reportable(tab, 2, 3, RACE_WAIT);
    assert FirstReady(tab, 2, [3], RACE_WAIT) == None;
    assert 3 in [3] && AnyMatch(tab, 2, [3], RACE_WAIT);
  }

  lemma WaitEnteredAgain()
    ensures Reached(RACE_RUN, 10, Both(SleepingParent(), Hidden(), 2))
  {
    SecondSignalTaken();
    Waiting2();
    OneMore(RACE_RUN, 9, Both(IdleParent(Some(3), {}), Hidden(), 2), Both(SleepingParent(), Hidden(), 2));
  }

  /** The race is real: after this run OKFS takes a dead child for a stopped one, and its parent is
      suspended in a wait for it with no signal pending, so that the wait cannot return as things are. */
  lemma RaceHidesDeadChild()
    ensures Initial(RaceStart()) && Legal(RaceStart(), RACE_RUN)
    ensures var s := After(RaceStart(), RACE_RUN);
            && 3 in s.tasks && s.tasks[3].exited && s.tasks[3].state == StoppedAndNotified && !DeadAreZombies(s)
            && 2 in s.tasks && s.tasks[2].restartCall == Some(RACE_WAIT) && 3 in s.tasks[2].children
            && Matches(s.tasks[2], 3, s.tasks[3], RACE_WAIT)
            && s.tasks[2].kernelPending == {} && forall reply :: !Enabled(s, Leave(2, reply))
  {
    assert 2 > INIT;
    WaitEnteredAgain();
    assert RACE_RUN[..10] == RACE_RUN;
  }
}
