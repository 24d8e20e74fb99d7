/** Runs that reach the less expected ends of OKFS: a wait without a status address, a stop after a fork
    that failed, and a SIGCONT for a child that was reported as stopped while it ran. */
module WaitEnds {
  import opened Common
  import opened Tasks
  import opened WaitModel
  import opened WaitTheorems
  import opened WaitPatch
  import opened WaitRace

  /** The run is possible up to its last event, which ends OKFS. */
  ghost predicate EndsWith(run: seq<Event>, s: State) {
    && run != [] && Reached(run, |run| - 1, s) && !s.halted
    && Enabled(s, run[|run| - 1]) && Legal(RaceStart(), run) && After(RaceStart(), run).halted
  }

  lemma LastOne(run: seq<Event>, s: State)
    requires run != [] && Reached(run, |run| - 1, s) && Enabled(s, run[|run| - 1]) && Next(s, run[|run| - 1]).halted
    ensures EndsWith(run, s)
  {
    OneMore(run, |run| - 1, s, Next(s, run[|run| - 1]));
    assert run[..|run|] == run;
  }

  // ----- waitpid(-1, NULL, WUNTRACED) -----

  const NULL_WAIT := WaitArgs(-1, false, true, false, Unmapped)

  /** A child is stopped, and its parent asks for stopped children without giving a status address. */
  const STATUS_RUN: seq<Event> :=
    [EnterFork(2), Leave(2, Forked(3)), Send(3, SIGSTOP), SignalStop(3, SIGSTOP), EnterWait(2, NULL_WAIT), Leave(2, Nothing)]

  function NullWaiter(): Task {
    ReportingParent().(statAddr := Unmapped)
  }

  lemma NullWaiting()
    ensures var s, e := Both(IdleParent(None, TOLD), Child(Stopped, {}, false, true), 3), EnterWait(2, NULL_WAIT);
            Enabled(s, e) && Next(s, e) == Both(NullWaiter(), Child(Stopped, {}, false, true), 2)
  {
    NothingHeld(TOLD);
    var s := Both(IdleParent(None, TOLD), Child(Stopped, {}, false, true), 3);
    var tab := s.tasks[2 := Entered(s.tasks[2], NoHandler)];
    assert Reportable(tab, 2, 3, NULL_WAIT);
    assert FirstReady(tab, 2, [3], NULL_WAIT) == Some(3);
  }

  lemma NullWaitEntered()
    ensures Reached(STATUS_RUN, 5, Both(NullWaiter(), Child(Stopped, {}, false, true), 2))
  {
    ChildStopped(STATUS_RUN);
    NullWaiting();
    OneMore(STATUS_RUN, 4, Both(IdleParent(None, TOLD), Child(Stopped, {}, false, true), 3),
            Both(NullWaiter(), Child(Stopped, {}, false, true), 2));
  }

  lemma NullStatusEnds()
    ensures Initial(RaceStart()) && EndsWith(STATUS_RUN, Both(NullWaiter(), Child(Stopped, {}, false, true), 2))
    ensures BadStatusAddress(NullWaiter(), Nothing)
  {
    assert 2 > INIT;
    NullWaitEntered();
    LastOne(STATUS_RUN, Both(NullWaiter(), Child(Stopped, {}, false, true), 2));
  }

  // ----- a failed fork -----

  /** The fork of a child fails, and it is sent SIGSTOP. */
  const FORK_RUN: seq<Event> :=
    [EnterFork(2), Leave(2, Forked(3)), EnterFork(3), Leave(3, Failed), Send(3, SIGSTOP), SignalStop(3, SIGSTOP)]

  lemma ForkTried()
    ensures Reached(FORK_RUN, 3, Both(IdleParent(None, {}), Child(Running, {}, false, true).(duringCall := true, nextCall := AfterFork), 3))
  {
    ForkLeft(FORK_RUN);
    NothingHeld({});
    OneMore(FORK_RUN, 2, Both(IdleParent(None, {}), Child(Running, {}, false, false), 2),
            Both(IdleParent(None, {}), Child(Running, {}, false, true).(duringCall := true, nextCall := AfterFork), 3));
  }

  lemma ForkFailed()
    ensures Reached(FORK_RUN, 4, Both(IdleParent(None, {}), Child(Running, {}, false, true), 3))
  {
    ForkTried();
    NothingHeld({});
    OneMore(FORK_RUN, 3, Both(IdleParent(None, {}), Child(Running, {}, false, true).(duringCall := true, nextCall := AfterFork), 3),
            Both(IdleParent(None, {}), Child(Running, {}, false, true), 3));
  }

  lemma FailedForkThenStopEnds()
    ensures EndsWith(FORK_RUN, Both(IdleParent(None, {}), Child(Running, {SIGSTOP}, false, true), 3))
    ensures Child(Running, {SIGSTOP}, false, true).ppid != INIT
  {
    ForkFailed();
    var none: set<Signal> := {};
    assert none + {SIGSTOP} == {SIGSTOP};
    OneMore(FORK_RUN, 4, Both(IdleParent(None, {}), Child(Running, {}, false, true), 3),
            Both(IdleParent(None, {}), Child(Running, {SIGSTOP}, false, true), 3));
    LastOne(FORK_RUN, Both(IdleParent(None, {}), Child(Running, {SIGSTOP}, false, true), 3));
  }

  // ----- a child that goes on -----

  /** A parent waits for its stopped child, the child is continued, the wait reports it as stopped all the
      same, and another SIGCONT comes. */
  const CONT_RUN: seq<Event> :=
    [EnterFork(2), Leave(2, Forked(3)), Send(3, SIGSTOP), SignalStop(3, SIGSTOP), EnterWait(2, RACE_WAIT), Send(3, SIGCONT),
     SignalStop(3, SIGCONT), Leave(2, Nothing), Send(3, SIGCONT), SignalStop(3, SIGCONT)]

  lemma WaitBegun()
    ensures Reached(CONT_RUN, 5, Both(ReportingParent(), Child(Stopped, {}, false, true), 2))
  {
    ChildStopped(CONT_RUN);
    Waiting1();
    OneMore(CONT_RUN, 4, Both(IdleParent(None, TOLD), Child(Stopped, {}, false, true), 3),
            Both(ReportingParent(), Child(Stopped, {}, false, true), 2));
  }

  lemma ContinueSent()
    ensures Reached(CONT_RUN, 6, Both(ReportingParent(), Child(Stopped, {SIGCONT}, false, true), 2))
  {
    WaitBegun();
    var none: set<Signal> := {};
    assert none + {SIGCONT} == {SIGCONT};
    OneMore(CONT_RUN, 5, Both(ReportingParent(), Child(Stopped, {}, false, true), 2),
            Both(ReportingParent(), Child(Stopped, {SIGCONT}, false, true), 2));
  }

  lemma ChildContinued()
    ensures Reached(CONT_RUN, 7, Both(ReportingParent(), Child(Running, {}, false, false), 3))
  {
    ContinueSent();
    NothingHeld({});
    var none: set<Signal> := {};
    assert {SIGCONT} - {SIGCONT} == none;
    OneMore(CONT_RUN, 6, Both(ReportingParent(), Child(Stopped, {SIGCONT}, false, true), 2),
            Both(ReportingParent(), Child(Running, {}, false, false), 3));
  }

  lemma RunningReported()
    ensures ReportsTheRunning(Both(ReportingParent(), Child(Running, {}, false, false), 3), Leave(2, Nothing))
    ensures Reached(CONT_RUN, 8, Both(IdleParent(Some(3), TOLD), Child(StoppedAndNotified, {}, false, false), 2))
  {
    ChildContinued();
    NothingHeld(TOLD);
    OneMore(CONT_RUN, 7, Both(ReportingParent(), Child(Running, {}, false, false), 3),
            Both(IdleParent(Some(3), TOLD), Child(StoppedAndNotified, {}, false, false), 2));
  }

  lemma ContinueAgainEnds()
    ensures EndsWith(CONT_RUN, Both(IdleParent(Some(3), TOLD), Child(StoppedAndNotified, {SIGCONT}, false, false), 2))
  {
    RunningReported();
    var none: set<Signal> := {};
    assert none + {SIGCONT} == {SIGCONT};
    OneMore(CONT_RUN, 8, Both(IdleParent(Some(3), TOLD), Child(StoppedAndNotified, {}, false, false), 2),
            Both(IdleParent(Some(3), TOLD), Child(StoppedAndNotified, {SIGCONT}, false, false), 2));
    LastOne(CONT_RUN, Both(IdleParent(Some(3), TOLD), Child(StoppedAndNotified, {SIGCONT}, false, false), 2));
  }
}
