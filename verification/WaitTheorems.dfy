/** What the event loop guarantees over every run: no lost wake-up, when exactly it ends, no lost signal
    of a stopped task; and the two races of the stop report, with a child that died and with a child
    that goes on. */
module WaitTheorems {
  import opened Common
  import opened Tasks
  import opened WaitModel
  import opened WaitLaws

  lemma InitialInv(s: State)
    requires Initial(s)
    ensures Inv(s)
  {
  }

  // ----- wait -----

  /** In every reachable state a task suspended in pause whose wait could be answered has
      SIGUNPAUSE pending, so that its pause returns. */
  lemma NoLostWakeUp(s: State, run: seq<Event>, p: Pid, c: Pid, reply: Reply)
    requires Initial(s) && Legal(s, run)
    requires var s' := After(s, run);
             && p in s'.tasks && s'.tasks[p].restartCall.Some?
             && c in s'.tasks[p].children
             && Reportable(s'.tasks, p, c, s'.tasks[p].restartCall.value)
    ensures SIGUNPAUSE in After(s, run).tasks[p].kernelPending
    ensures !After(s, run).halted && !After(s, run).tasks[p].exited && (reply.Nothing? || reply.Failed?) ==>
              Enabled(After(s, run), Leave(p, reply))
  {
    InitialInv(s);
    RunKeeps(s, run);
    assert CallOk(After(s, run).tasks, p);
  }

  /** A wait that is entered while a child can be reported is answered, not suspended. */
  lemma ReadyChildIsServed(s: State, p: Pid, args: WaitArgs, c: Pid)
    requires Inv(s) && Enabled(s, EnterWait(p, args)) && !args.badOptions
    requires c in s.tasks[p].children && Reportable(s.tasks, p, c, args)
    ensures var t := Next(s, EnterWait(p, args)).tasks[p];
            t.restartCall.None? && t.nextCall in {AfterIsZombie, AfterIsStopped}
  {
    var tab := s.tasks[p := Entered(s.tasks[p], NoHandler)];
    assert CallOk(s.tasks, p);
    assert s.tasks[c].ppid == p && c != p;
    assert Reportable(tab, p, c, args);
    ScanIs(tab, p, tab[p].children, args);
  }

  /** OKFS ends exactly when its last task is gone, when a task is stopped whose parent is not traced or
      whose memory is still replaced, when a task on record as stopped is continued and no memory of it
      is replaced, when a task whose memory is still replaced forks, when the wait for a dead child fails
      in the kernel, when a wait that is to report a stopped child has no usable status address, or when
      OKFS has no process left to wait for while the table is not empty. */
  lemma HaltsOnlyWhen(s: State, e: Event)
    requires Inv(s) && Enabled(s, e)
    ensures Next(s, e).halted <==>
              || (e.Exit? && Next(s, e).tasks == map[])
              || (e.SignalStop? && StopsNow(s.tasks[e.pid], e.sig) && (s.tasks[e.pid].ppid == INIT || s.tasks[e.pid].rpl))
              || (e.SignalStop? && Continues(s.tasks[e.pid], e.sig) && !s.tasks[e.pid].rpl)
              || (e.EnterFork? && s.tasks[e.pid].rpl)
              || (e.Leave? && BadStatus(s.tasks[e.pid], e.reply))
              || e.NoProcess?
  {
    match e
    case Send(_, _) =>
    case Sigaction(_, _, _) =>
    case NoProcess(_) =>
    case EnterWait(_, _) =>
    case EnterFork(_) =>
    case EnterOther(_) =>
    case Leave(p, reply) => LeaveKeeps(s, p, reply);
    case SignalStop(p, sig) => SignalHalts(s, p, sig);
    case Exit(p) => ExitHalts(s, p);
  }

  lemma SignalHalts(s: State, p: Pid, sig: Signal)
    requires Inv(s) && Enabled(s, SignalStop(p, sig))
    ensures var t := s.tasks[p];
            Next(s, SignalStop(p, sig)).halted <==>
              (StopsNow(t, sig) && (t.ppid == INIT || t.rpl)) || (Continues(t, sig) && !t.rpl)
  {
    var s1 := Take(s.(slave := Some(p)), p, sig);
    assert s1.tasks[p].ppid != INIT ==> s1.tasks[p].ppid in s1.tasks;
    if StopsNow(s.tasks[p], sig) {
      StopHalts(s1, p);
    }
  }

  lemma StopHalts(s: State, p: Pid)
    requires p in s.tasks && !s.halted && INIT !in s.tasks && (s.tasks[p].ppid != INIT ==> s.tasks[p].ppid in s.tasks)
    ensures StopSlave(s, p).halted <==> s.tasks[p].ppid == INIT || s.tasks[p].rpl
  {
    StopEffect(s, p, p);
    ChangeEffect(s.tasks[p := s.tasks[p].(rpl := true)], p, Stopped, p);
  }

  lemma ExitHalts(s: State, p: Pid)
    requires Inv(s) && Enabled(s, Exit(p))
    ensures Next(s, Exit(p)).halted <==> Next(s, Exit(p)).tasks == map[]
  {
    var s1 := ExitSlave(s.(slave := Some(p)), p);
    assert |s1.tasks| == 0 <==> s1.tasks == map[];
    ResumeKeys(s1);
  }

  lemma ResumeKeys(s: State)
    ensures Resume(s).tasks == map[] <==> s.tasks == map[]
  {
    assert Resume(s).tasks.Keys == s.tasks.Keys;
  }

  /** The signal stops the task by default. */
  predicate StopsNow(t: Task, sig: Signal) {
    !StoppedTask(t.state) && StoppingSig(sig) && sig in t.defaultStop
  }

  /** The signal makes the task run again. */
  predicate Continues(t: Task, sig: Signal) {
    StoppedTask(t.state) && sig == SIGCONT
  }

  // ----- signals of a stopped task -----

  /** A signal that is held back from a stopped task. */
  predicate Held(sig: Signal) {
    sig != SIGUNPAUSE && sig != SIGCONT && !StoppingSig(sig)
  }

  function Waiting(t: Task): set<Signal> {
    t.sigpendingMask + t.kernelPending
  }

  /** A signal is passed to a task that was or is now stopped in two cases only: SIGCONT, which
      makes it run, and the stopping signal that has just stopped it. */
  lemma StoppedTaskIsShielded(s: State, e: Event)
    requires Inv(s) && Enabled(s, e) && Passed(s, e).Some?
    ensures StoppedTask(s.tasks[e.pid].state) ==>
              Passed(s, e) == Some(SIGCONT) && e.pid in Next(s, e).tasks && Next(s, e).tasks[e.pid].state == Running
    ensures e.pid in Next(s, e).tasks
    ensures StoppedTask(Next(s, e).tasks[e.pid].state) <==> StopsNow(s.tasks[e.pid], e.sig)
    ensures StopsNow(s.tasks[e.pid], e.sig) ==> Passed(s, e) == Some(e.sig)
  {
    var p := e.pid;
    var s1 := Take(s.(slave := Some(p)), p, e.sig);
    var s2 := ProcessSignal(s1, p, e.sig).0;
    var t := s1.tasks[p];
    if StopsNow(t, e.sig) {
      StopSpares(s1, p, p);
      assert !t.rpl;
    } else if StoppedTask(t.state) {
      assert s2.tasks[p].state == Running;
    }
    assert p in s2.tasks;
    ResumeSpares(s2, p);
  }

  // ----- what one event does to one task -----

  /** Nothing but `taken` is lost of what waits for the task, and its state and end are as before. */
  ghost predicate Spared(t: Task, t': Task, taken: set<Signal>) {
    t'.state == t.state && t'.exited == t.exited && Waiting(t) - taken <= Waiting(t')
  }

  lemma ResumeSpares(s: State, p: Pid)
    requires p in s.tasks
    ensures p in Resume(s).tasks && Spared(s.tasks[p], Resume(s).tasks[p], {})
  {
  }

  lemma ExitSpares(s: State, q: Pid, p: Pid)
    requires Inv(s) && q in s.tasks && p in ExitSlave(s, q).tasks
    ensures p in s.tasks
    ensures if p == q then ExitSlave(s, q).tasks[p].state == Zombie
            else Spared(s.tasks[p], ExitSlave(s, q).tasks[p], {})
  {
    var t' := s.tasks[q].(state := Zombie, exited := true);
    var tab1 := s.tasks[q := s.tasks[q].(exited := true)];
    var tab2 := s.tasks[q := t'];
    assert tab1[q := tab1[q].(state := Zombie)] == tab2;
    if t'.ppid == INIT {
      BecomesReady(s.tasks, q, t');
      SurvivorIsSame(tab2, q, p);
    }
  }

  /** The child that the leaving task reports as stopped, if it does that. */
  function Reported(s: State, q: Pid, reply: Reply): Option<Pid>
    requires q in s.tasks
  {
    var t := s.tasks[q];
    if t.restartCall.None? && t.nextCall == AfterIsStopped && t.statAddr == Writable && reply.Nothing? then t.stoppedChild else None
  }

  lemma HandlerSpares(s: State, q: Pid, reply: Reply, p: Pid)
    requires Inv(s) && Enabled(s, Leave(q, reply)) && s.tasks[q].restartCall.None?
    requires AfterCall(s.tasks, q, reply).Some? && p in AfterCall(s.tasks, q, reply).value && p in s.tasks
    ensures var t' := AfterCall(s.tasks, q, reply).value[p];
            if Reported(s, q, reply) == Some(p) then Spared(s.tasks[p].(state := StoppedAndNotified), t', {})
            else Spared(s.tasks[p], t', {})
  {
    if reply.Reaped? && s.tasks[q].nextCall in {AfterIsZombie, AfterIsStopped} {
      var c := reply.child;
      assert InvBut(s.tasks, q);
      RemoveChildKeeps(s.tasks, q, c);
      SurvivorIsSame(RemoveChild(s.tasks, q, c), c, p);
    }
  }

  lemma LeaveSpares(s: State, q: Pid, reply: Reply, p: Pid)
    requires Inv(s) && Enabled(s, Leave(q, reply)) && p in Next(s, Leave(q, reply)).tasks
    ensures var t' := Next(s, Leave(q, reply)).tasks[p];
            if p !in s.tasks then t'.state == Running && !t'.exited
            else if Reported(s, q, reply) == Some(p) then Spared(s.tasks[p].(state := StoppedAndNotified), t', {})
            else Spared(s.tasks[p], t', {})
  {
    var s1 := LeaveCall(s.(slave := Some(q)), q, reply);
    if s.tasks[q].restartCall.None? && !BadStatus(s.tasks[q], reply) {
      LeaveHandler(s, q, reply);
      var tab := AfterCall(s.tasks, q, reply).value;
      if p in s.tasks {
        HandlerSpares(s, q, reply, p);
      } else {
        NewTask(s, q, reply, p);
      }
    }
    ResumeSpares(s1, p);
  }

  lemma NewTask(s: State, q: Pid, reply: Reply, p: Pid)
    requires Inv(s) && Enabled(s, Leave(q, reply)) && s.tasks[q].restartCall.None?
    requires AfterCall(s.tasks, q, reply).Some? && p in AfterCall(s.tasks, q, reply).value && p !in s.tasks
    ensures var t := AfterCall(s.tasks, q, reply).value[p]; t.state == Running && !t.exited
  {
  }

  lemma ChangeEffect(tab: Table, q: Pid, st: RunState, p: Pid)
    requires q in tab && p in tab && st != Zombie
    ensures var r := ChangeState(tab, q, st);
            && r.Keys == tab.Keys && tab[p].kernelPending <= r[p].kernelPending
            && r[p] == tab[p].(state := if p == q then st else tab[p].state, kernelPending := r[p].kernelPending)
            && (p != tab[q].ppid ==> r[p].kernelPending == tab[p].kernelPending)
  {
  }

  /** What the stop of q does to any task. */
  lemma StopEffect(s: State, q: Pid, p: Pid)
    requires q in s.tasks && p in s.tasks
    ensures var r := StopSlave(s, q).tasks;
            && r.Keys == s.tasks.Keys && s.tasks[p].kernelPending <= r[p].kernelPending
            && r[p] == s.tasks[p].(state := if p == q && !s.tasks[q].rpl then Stopped else s.tasks[p].state,
                                   rpl := s.tasks[p].rpl || p == q, kernelPending := r[p].kernelPending)
            && (p != s.tasks[q].ppid ==> r[p].kernelPending == s.tasks[p].kernelPending)
  {
    ChangeEffect(s.tasks[q := s.tasks[q].(rpl := true)], q, Stopped, p);
  }

  lemma StopSpares(s: State, q: Pid, p: Pid)
    requires q in s.tasks && p in s.tasks
    ensures var tab := StopSlave(s, q).tasks;
            p in tab && Spared(if p == q && !s.tasks[p].rpl then s.tasks[p].(state := Stopped) else s.tasks[p], tab[p], {})
  {
    StopEffect(s, q, p);
  }

  lemma SignalSpares(s: State, q: Pid, sig: Signal, p: Pid)
    requires Inv(s) && Enabled(s, SignalStop(q, sig)) && p in Next(s, SignalStop(q, sig)).tasks
    ensures p in s.tasks
    ensures var t' := Next(s, SignalStop(q, sig)).tasks[p];
            && t'.exited == s.tasks[p].exited
            && (p != q ==> Spared(s.tasks[p], t', {}))
            && (StoppedTask(s.tasks[p].state) ==>
                  Waiting(s.tasks[p]) - (if Held(sig) then {} else {sig}) <= Waiting(t'))
            && (t'.state == Zombie <==> s.tasks[p].state == Zombie)
  {
    var s1 := Take(s.(slave := Some(q)), q, sig);
    var s2 := ProcessSignal(s1, q, sig).0;
    ResumeKeysSame(s2);
    var t := s1.tasks[q];
    if sig != SIGUNPAUSE && !StoppedTask(t.state) && StoppingSig(sig) && sig in t.defaultStop {
      assert s2.tasks.Keys == s.tasks.Keys;
      StopSpares(s1, q, p);
    } else {
      assert s2.tasks.Keys == s.tasks.Keys;
    }
    ResumeSpares(s2, p);
  }

  /** One event: a held signal that waits for a stopped task goes on waiting, also in the step in
      which the task is made to run again, unless the task dies. */
  lemma HeldStep(s: State, e: Event, p: Pid, sig: Signal)
    requires Inv(s) && Enabled(s, e) && p in s.tasks && StoppedTask(s.tasks[p].state)
    requires Held(sig) && sig in Waiting(s.tasks[p])
    ensures var s' := Next(s, e);
            p in s'.tasks && s'.tasks[p].state != Zombie ==> sig in Waiting(s'.tasks[p])
  {
    if p in Next(s, e).tasks {
      match e
      case Send(_, _) =>
      case Sigaction(_, _, _) =>
      case NoProcess(_) =>
      case EnterWait(_, _) =>
      case EnterFork(_) =>
      case EnterOther(_) =>
      case SignalStop(q, sg) => SignalSpares(s, q, sg, p);
      case Leave(q, reply) => LeaveSpares(s, q, reply, p);
      case Exit(q) =>
        var s1 := s.(slave := Some(q));
        if p in ExitSlave(s1, q).tasks {
          ExitSpares(s1, q, p);
          ResumeSpares(ExitSlave(s1, q), p);
        }
    }
  }

  /** The task is stopped before each event of the run. */
  ghost predicate StoppedBefore(s: State, run: seq<Event>, p: Pid)
    requires Legal(s, run)
    decreases |run|
  {
    p in s.tasks && (run == [] || (StoppedTask(s.tasks[p].state) && StoppedBefore(Next(s, run[0]), run[1..], p)))
  }

  /** Over every run a held signal waits, masked or pending, for as long as the task is stopped,
      and it still waits after the event that makes the task run again. */
  lemma {:induction false} HeldSignalsSurvive(s: State, run: seq<Event>, p: Pid, sig: Signal)
    requires Inv(s) && Legal(s, run) && StoppedBefore(s, run, p)
    requires Held(sig) && sig in Waiting(s.tasks[p])
    ensures var s' := After(s, run); p in s'.tasks && (s'.tasks[p].state != Zombie ==> sig in Waiting(s'.tasks[p]))
    decreases |run|
  {
    if run != [] {
      HeldStep(s, run[0], p, sig);
      StepKeeps(s, run[0]);
      var s1 := Next(s, run[0]);
      if |run| == 1 {
        assert run[1..] == [];
      } else {
        assert run[1..] != [] && StoppedTask(s1.tasks[p].state);
        HeldSignalsSurvive(s1, run[1..], p, sig);
      }
    }
  }

  // ----- the signal that is never handed over -----

  /** The last signal, once held back, stays in the mask for as long as the task lives: the loop
      that hands signals over ends in front of it. */
  lemma LastSignalStaysHeld(s: State, e: Event, p: Pid)
    requires Inv(s) && Enabled(s, e) && p in s.tasks && LAST_SIGNAL in s.tasks[p].sigpendingMask
    ensures p in Next(s, e).tasks ==> LAST_SIGNAL in Next(s, e).tasks[p].sigpendingMask
  {
    if p in Next(s, e).tasks {
      match e
      case Send(_, _) =>
      case Sigaction(_, _, _) =>
      case NoProcess(_) =>
      case EnterWait(_, _) =>
      case EnterFork(_) =>
      case EnterOther(_) =>
      case SignalStop(q, sg) => SignalKeepsMask(s, q, sg, p);
      case Leave(q, reply) => LeaveKeepsMask(s, q, reply, p);
      case Exit(q) =>
        var s1 := s.(slave := Some(q));
        ResumeKeysSame(ExitSlave(s1, q));
        ExitKeepsMask(s1, q, p);
        ResumeKeepsMask(ExitSlave(s1, q), p);
    }
  }

  lemma ResumeKeepsMask(s: State, p: Pid)
    requires p in s.tasks && LAST_SIGNAL in s.tasks[p].sigpendingMask
    ensures p in Resume(s).tasks && LAST_SIGNAL in Resume(s).tasks[p].sigpendingMask
  {
  }

  lemma ExitKeepsMask(s: State, q: Pid, p: Pid)
    requires Inv(s) && q in s.tasks && p in s.tasks && p in ExitSlave(s, q).tasks
    ensures ExitSlave(s, q).tasks[p].sigpendingMask == s.tasks[p].sigpendingMask
  {
    var t' := s.tasks[q].(state := Zombie, exited := true);
    var tab1 := s.tasks[q := s.tasks[q].(exited := true)];
    var tab2 := s.tasks[q := t'];
    assert tab1[q := tab1[q].(state := Zombie)] == tab2;
    if t'.ppid == INIT {
      BecomesReady(s.tasks, q, t');
      SurvivorIsSame(tab2, q, p);
    }
  }

  lemma HandlerKeepsMask(s: State, q: Pid, reply: Reply, p: Pid)
    requires Inv(s) && Enabled(s, Leave(q, reply)) && s.tasks[q].restartCall.None? && p in s.tasks
    requires AfterCall(s.tasks, q, reply).Some? && p in AfterCall(s.tasks, q, reply).value
    ensures AfterCall(s.tasks, q, reply).value[p].sigpendingMask == s.tasks[p].sigpendingMask
  {
    if reply.Reaped? && s.tasks[q].nextCall in {AfterIsZombie, AfterIsStopped} {
      assert InvBut(s.tasks, q);
      RemoveChildKeeps(s.tasks, q, reply.child);
      SurvivorIsSame(RemoveChild(s.tasks, q, reply.child), reply.child, p);
    }
  }

  lemma LeaveKeepsMask(s: State, q: Pid, reply: Reply, p: Pid)
    requires Inv(s) && Enabled(s, Leave(q, reply)) && p in s.tasks && p in Next(s, Leave(q, reply)).tasks
    requires LAST_SIGNAL in s.tasks[p].sigpendingMask
    ensures LAST_SIGNAL in Next(s, Leave(q, reply)).tasks[p].sigpendingMask
  {
    var s1 := LeaveCall(s.(slave := Some(q)), q, reply);
    ResumeKeysSame(s1);
    if s.tasks[q].restartCall.None? && !BadStatus(s.tasks[q], reply) {
      LeaveHandler(s, q, reply);
      HandlerKeepsMask(s, q, reply, p);
    }
    ResumeKeepsMask(s1, p);
  }

  lemma SignalKeepsMask(s: State, q: Pid, sig: Signal, p: Pid)
    requires Inv(s) && Enabled(s, SignalStop(q, sig)) && p in s.tasks && p in Next(s, SignalStop(q, sig)).tasks
    requires LAST_SIGNAL in s.tasks[p].sigpendingMask
    ensures LAST_SIGNAL in Next(s, SignalStop(q, sig)).tasks[p].sigpendingMask
  {
    var s1 := Take(s.(slave := Some(q)), q, sig);
    var s2 := ProcessSignal(s1, q, sig).0;
    ResumeKeysSame(s2);
    ResumeKeepsMask(s2, p);
  }

  // ----- the stop report that hides a dead child -----

  /** OKFS knows of every child that has ended. */
  ghost predicate DeadAreZombies(s: State) {
    forall p :: p in s.tasks && s.tasks[p].exited ==> s.tasks[p].state == Zombie
  }

  /** The report of a stopped child does not look again: the child may have ended since. */
  predicate ReportsTheDead(s: State, e: Event)
    requires e.pid in s.tasks
  {
    e.Leave? && var c := Reported(s, e.pid, e.reply); c.Some? && c.value in s.tasks && s.tasks[c.value].exited
  }

  /** That report is the only event after which a dead task is not a zombie. */
  lemma DeadStayZombiesIff(s: State, e: Event)
    requires Inv(s) && Enabled(s, e) && DeadAreZombies(s)
    ensures DeadAreZombies(Next(s, e)) <==> !ReportsTheDead(s, e)
  {
    var s' := Next(s, e);
    forall p | p in s'.tasks && s'.tasks[p].exited && !ReportsTheDead(s, e) ensures s'.tasks[p].state == Zombie {
      DeadIsZombie(s, e, p);
    }
    if ReportsTheDead(s, e) {
      var c := s.tasks[e.pid].stoppedChild.value;
      assert CallOk(s.tasks, e.pid);
      assert s.tasks[c].ppid == e.pid && c != e.pid;
      assert c in s'.tasks;
      LeaveSpares(s, e.pid, e.reply, c);
    }
  }

  lemma DeadIsZombie(s: State, e: Event, p: Pid)
    requires Inv(s) && Enabled(s, e) && DeadAreZombies(s) && !ReportsTheDead(s, e)
    requires p in Next(s, e).tasks && Next(s, e).tasks[p].exited
    ensures Next(s, e).tasks[p].state == Zombie
  {
    match e
    case Send(_, _) =>
    case Sigaction(_, _, _) =>
    case NoProcess(_) =>
    case EnterWait(_, _) =>
    case EnterFork(_) =>
    case EnterOther(_) =>
    case SignalStop(q, sg) => SignalSpares(s, q, sg, p);
    case Leave(q, reply) => LeaveSpares(s, q, reply, p);
    case Exit(q) =>
      var s1 := s.(slave := Some(q));
      ResumeKeysSame(ExitSlave(s1, q));
      ExitSpares(s1, q, p);
      ResumeSpares(ExitSlave(s1, q), p);
  }

  lemma ResumeKeysSame(s: State)
    ensures Resume(s).tasks.Keys == s.tasks.Keys
  {
  }

  /** No report of a dead child along the run. */
  ghost predicate NoRace(s: State, run: seq<Event>)
    requires Legal(s, run)
    decreases |run|
  {
    run == [] || (!ReportsTheDead(s, run[0]) && NoRace(Next(s, run[0]), run[1..]))
  }

  lemma {:induction false} RaceFreeRun(s: State, run: seq<Event>)
    requires Inv(s) && DeadAreZombies(s) && Legal(s, run) && NoRace(s, run)
    ensures Inv(After(s, run)) && DeadAreZombies(After(s, run))
    decreases |run|
  {
    if run != [] {
      DeadStayZombiesIff(s, run[0]);
      StepKeeps(s, run[0]);
      RaceFreeRun(Next(s, run[0]), run[1..]);
    }
  }

  /** Without that race, a suspended parent whose child has ended, however OKFS has it on
      record, has SIGUNPAUSE pending. */
  lemma DeadChildWakesParent(s: State, run: seq<Event>, p: Pid, c: Pid)
    requires Initial(s) && Legal(s, run) && NoRace(s, run)
    requires var s' := After(s, run);
             && p in s'.tasks && s'.tasks[p].restartCall.Some?
             && c in s'.tasks[p].children && c in s'.tasks && s'.tasks[c].exited
             && Matches(s'.tasks[p], c, s'.tasks[c], s'.tasks[p].restartCall.value)
    ensures SIGUNPAUSE in After(s, run).tasks[p].kernelPending
  {
    InitialInv(s);
    RaceFreeRun(s, run);
    NoLostWakeUp(s, run, p, c, Nothing);
  }
}
