/** What follows, over every run, from a dead child that is on record as stopped and reported: the
    record stays, every blocking wait for that child alone suspends its parent, and nothing but a signal
    ends that sleep. */
module WaitHidden {
  import opened Common
  import opened Tasks
  import opened WaitModel
  import opened WaitLaws
  import opened WaitTheorems
  import opened WaitRace
  import opened WaitLeak

  predicate HiddenDead(s: State, p: Pid, c: Pid) {
    && p in s.tasks && !s.tasks[p].exited && c in s.tasks[p].children
    && c in s.tasks && s.tasks[c].exited && s.tasks[c].state == StoppedAndNotified
  }

  /** The parent ends, or a wait for others happens to be answered with this child. */
  predicate Forgets(e: Event, p: Pid, c: Pid) {
    e == Exit(p) || e == Leave(p, Reaped(c))
  }

  /** The event tells p about a child of its. */
  predicate Notifies(s: State, e: Event, p: Pid)
    requires e.pid in s.tasks
  {
    (e.Exit? || e.SignalStop?) && s.tasks[e.pid].ppid == p
  }

  // ----- what an event leaves of a task it is not about -----

  lemma RemovalSpares(tab: Table, k: Pid, q: Pid)
    requires Forest(tab) && k in tab && tab[k].ppid == INIT && q in tab && q != k && tab[q].state != Zombie
    ensures var r := RemoveSlave(tab, k);
            q in r && r[q] == tab[q].(ppid := r[q].ppid)
  {
    RemovalOrphans(tab, k, q);
    SurvivorIsSame(tab, k, q);
  }

  /** The same task, but for its parent, its state and its pending signals. */
  ghost predicate Bystander(t: Task, t': Task, told: bool) {
    t' == t.(ppid := t'.ppid, state := t'.state, kernelPending := t'.kernelPending) && (!told ==> t'.kernelPending == t.kernelPending)
  }

  lemma ResumeOthers(s: State, p: Pid)
    requires p in s.tasks && s.slave != Some(p)
    ensures p in Resume(s).tasks && Resume(s).tasks[p] == s.tasks[p]
  {
  }

  /** The table with the end of q on record. */
  function Ended(tab: Table, q: Pid): Table
    requires q in tab
  {
    tab[q := tab[q].(state := Zombie, exited := true)]
  }

  lemma ExitTable(s: State, q: Pid)
    requires q in s.tasks
    ensures ExitSlave(s, q).tasks ==
            if s.tasks[q].ppid != INIT then Notify(Ended(s.tasks, q), s.tasks[q].ppid, SIGUNPAUSE) else RemoveSlave(Ended(s.tasks, q), q)
  {
    var tab1 := s.tasks[q := s.tasks[q].(exited := true)];
    assert tab1[q := tab1[q].(state := Zombie)] == Ended(s.tasks, q);
  }

  lemma EndBystander(s: State, q: Pid, p: Pid)
    requires Inv(s) && q in s.tasks && p in s.tasks && p != q && s.tasks[p].state != Zombie
    ensures var tab := ExitSlave(s, q).tasks;
            p in tab && Bystander(s.tasks[p], tab[p], s.tasks[q].ppid == p) && tab[p].state == s.tasks[p].state
  {
    ExitTable(s, q);
    var tab := Ended(s.tasks, q);
    if s.tasks[q].ppid == INIT {
      BecomesReady(s.tasks, q, tab[q]);
      RemovalSpares(tab, q, p);
    }
  }

  lemma ExitBystander(s: State, q: Pid, p: Pid)
    requires Inv(s) && Enabled(s, Exit(q)) && p in s.tasks && p != q && s.tasks[p].state != Zombie
    ensures var s' := Next(s, Exit(q));
            p in s'.tasks && Bystander(s.tasks[p], s'.tasks[p], s.tasks[q].ppid == p) && s'.tasks[p].state == s.tasks[p].state
  {
    var s1 := s.(slave := Some(q));
    EndBystander(s1, q, p);
    ResumeOthers(ExitSlave(s1, q), p);
  }

  lemma HandlerBystander(s: State, q: Pid, reply: Reply, p: Pid)
    requires Inv(s) && Enabled(s, Leave(q, reply)) && s.tasks[q].restartCall.None? && !BadStatus(s.tasks[q], reply)
    requires p in s.tasks && s.tasks[p].state != Zombie && reply != Reaped(p)
    ensures var r := AfterCall(s.tasks, q, reply);
            && r.Some? && p in r.value && (p != q ==> Bystander(s.tasks[p], r.value[p], false))
            && (p != q && s.tasks[p].state == StoppedAndNotified ==> r.value[p].state == StoppedAndNotified)
  {
    if reply.Reaped? {
      ReapedBystander(s, q, reply, p);
    } else {
      LeaveHandler(s, q, reply);
    }
  }

  lemma ReapedBystander(s: State, q: Pid, reply: Reply, p: Pid)
    requires Inv(s) && Enabled(s, Leave(q, reply)) && reply.Reaped? && !BadStatus(s.tasks[q], reply) && s.tasks[q].restartCall.None?
    requires p in s.tasks && s.tasks[p].state != Zombie && reply != Reaped(p)
    ensures var r := AfterCall(s.tasks, q, reply);
            r.Some? && p in r.value && (p != q ==> r.value[p] == s.tasks[p].(ppid := r.value[p].ppid))
  {
    assert InvBut(s.tasks, q);
    ReapBystander(s.tasks, q, reply.child, p);
  }

  lemma ReapBystander(tab: Table, q: Pid, k: Pid, p: Pid)
    requires InvBut(tab, q) && q in tab && k in tab[q].children && p in tab && p != k && tab[p].state != Zombie
    ensures k in tab && RemoveChild(tab, q, k).Keys == tab.Keys && (p != q ==> RemoveChild(tab, q, k)[p] == tab[p])
    ensures var r := RemoveSlave(RemoveChild(tab, q, k), k);
            p in r && (p != q ==> r[p] == tab[p].(ppid := r[p].ppid))
  {
    RemoveChildKeeps(tab, q, k);
    RemovalSpares(RemoveChild(tab, q, k), k, p);
  }

  lemma LeaveBystander(s: State, q: Pid, reply: Reply, p: Pid)
    requires Inv(s) && Enabled(s, Leave(q, reply)) && p in s.tasks && p != q && s.tasks[p].state != Zombie && reply != Reaped(p)
    ensures var s' := Next(s, Leave(q, reply));
            && p in s'.tasks && Bystander(s.tasks[p], s'.tasks[p], false)
            && (s.tasks[p].state == StoppedAndNotified ==> s'.tasks[p].state == StoppedAndNotified)
  {
    var s1 := s.(slave := Some(q));
    if s.tasks[q].restartCall.None? && !BadStatus(s.tasks[q], reply) {
      HandlerBystander(s, q, reply, p);
      LeftTable(s1, q, reply);
    }
    ResumeOthers(LeaveCall(s1, q, reply), p);
  }

  /** The leaving half, once the handler is known to go through. */
  lemma LeftTable(s: State, q: Pid, reply: Reply)
    requires q in s.tasks && s.tasks[q].restartCall.None? && AfterCall(s.tasks, q, reply).Some?
    ensures var tab := AfterCall(s.tasks, q, reply).value;
            LeaveCall(s, q, reply).tasks == if q !in tab then tab else tab[q := tab[q].(duringCall := false, nextCall := NoHandler)]
    ensures LeaveCall(s, q, reply).slave == s.slave
  {
  }

  lemma StopBystander(s: State, q: Pid, p: Pid)
    requires q in s.tasks && p in s.tasks && p != q
    ensures var s' := StopSlave(s, q);
            p in s'.tasks && Bystander(s.tasks[p], s'.tasks[p], s.tasks[q].ppid == p) && s'.tasks[p].state == s.tasks[p].state
  {
    StopEffect(s, q, p);
  }

  lemma SignalBystander(s: State, q: Pid, sig: Signal, p: Pid)
    requires Enabled(s, SignalStop(q, sig)) && p in s.tasks && p != q
    ensures var s' := Next(s, SignalStop(q, sig));
            p in s'.tasks && Bystander(s.tasks[p], s'.tasks[p], s.tasks[q].ppid == p) && s'.tasks[p].state == s.tasks[p].state
  {
    var s1 := Take(s.(slave := Some(q)), q, sig);
    StopBystander(s1, q, p);
    ResumeKeysSame(ProcessSignal(s1, q, sig).0);
  }

  /** A task that is not a known zombie, and that the event is not about. */
  lemma OtherEvent(s: State, e: Event, p: Pid)
    requires Inv(s) && Enabled(s, e) && p in s.tasks && p != e.pid && s.tasks[p].state != Zombie
    requires !(e.Leave? && e.reply == Reaped(p))
    ensures p in Next(s, e).tasks && Bystander(s.tasks[p], Next(s, e).tasks[p], Notifies(s, e, p))
    ensures s.tasks[p].state == StoppedAndNotified ==> Next(s, e).tasks[p].state == StoppedAndNotified
  {
    match e
    case Exit(q) => ExitBystander(s, q, p);
    case Leave(q, reply) => LeaveBystander(s, q, reply, p);
    case SignalStop(q, sig) => SignalBystander(s, q, sig, p);
    case Send(_, _) =>
    case Sigaction(_, _, _) =>
    case NoProcess(_) =>
    case EnterWait(_, _) =>
    case EnterFork(_) =>
    case EnterOther(_) =>
  }

  // ----- the record stays -----

  /** What an event of the parent leaves of its list. */
  ghost predicate StillHas(s: State, p: Pid, c: Pid) {
    p in s.tasks && c in s.tasks[p].children && !s.tasks[p].exited
  }

  lemma ResumeHas(s: State, p: Pid, c: Pid)
    requires StillHas(s, p, c)
    ensures StillHas(Resume(s), p, c)
  {
  }

  lemma OwnEvent(s: State, e: Event, c: Pid)
    requires Inv(s) && Enabled(s, e) && StillHas(s, e.pid, c) && !Forgets(e, e.pid, c)
    ensures StillHas(Next(s, e), e.pid, c)
  {
    match e
    case Leave(p, reply) => OwnLeave(s, p, reply, c);
    case SignalStop(p, sig) => OwnSignal(s, p, sig, c);
    case Send(_, _) =>
    case Sigaction(_, _, _) =>
    case NoProcess(_) =>
    case EnterWait(_, _) =>
    case EnterFork(_) =>
    case EnterOther(_) =>
  }

  lemma OwnSignal(s: State, p: Pid, sig: Signal, c: Pid)
    requires StillHas(s, p, c)
    ensures StillHas(Next(s, SignalStop(p, sig)), p, c)
  {
    var s1 := Take(s.(slave := Some(p)), p, sig);
    ResumeHas(ProcessSignal(s1, p, sig).0, p, c);
  }

  lemma OwnLeave(s: State, p: Pid, reply: Reply, c: Pid)
    requires Inv(s) && Enabled(s, Leave(p, reply)) && c in s.tasks[p].children && reply != Reaped(c)
    ensures StillHas(Next(s, Leave(p, reply)), p, c)
  {
    var s1 := s.(slave := Some(p));
    if s.tasks[p].restartCall.None? && !BadStatus(s.tasks[p], reply) {
      OwnHandler(s, p, reply, c);
      LeftTable(s1, p, reply);
    }
    ResumeHas(LeaveCall(s1, p, reply), p, c);
  }

  lemma OwnHandler(s: State, p: Pid, reply: Reply, c: Pid)
    requires Inv(s) && Enabled(s, Leave(p, reply)) && c in s.tasks[p].children && reply != Reaped(c)
    requires s.tasks[p].restartCall.None? && !BadStatus(s.tasks[p], reply)
    ensures var r := AfterCall(s.tasks, p, reply);
            r.Some? && p in r.value && c in r.value[p].children && !r.value[p].exited
  {
    assert InvBut(s.tasks, p);
    LeaveHandler(s, p, reply);
    if reply.Reaped? {
      var k := reply.child;
      RemoveChildKeeps(s.tasks, p, k);
      assert Distinct(s.tasks[p].children);
      WithoutIs(s.tasks[p].children, k);
      if s.tasks[p].nextCall != AfterWnohang {
        RemovalSpares(RemoveChild(s.tasks, p, k), k, p);
      }
    } else if reply.Forked? {
      assert c in [reply.child] + s.tasks[p].children;
    }
  }

  /** No event but the parent's end or a report of that very child changes the record. */
  lemma HiddenStep(s: State, e: Event, p: Pid, c: Pid)
    requires Inv(s) && Enabled(s, e) && HiddenDead(s, p, c) && !Forgets(e, p, c)
    ensures HiddenDead(Next(s, e), p, c)
  {
    assert s.tasks[c].ppid == p && c != p;
    if e.pid == p {
      OwnEvent(s, e, c);
    } else {
      assert e.Leave? ==> e.reply != Reaped(c);
      OtherEvent(s, e, p);
    }
    if e.pid == c {
      assert e.Send? || e.NoProcess?;
    } else {
      OtherEvent(s, e, c);
    }
  }

  ghost predicate Remembered(s: State, run: seq<Event>, p: Pid, c: Pid)
    requires Legal(s, run)
    decreases |run|
  {
    run == [] || (!Forgets(run[0], p, c) && Remembered(Next(s, run[0]), run[1..], p, c))
  }

  /** Over every run the dead child stays hidden until its parent ends or another wait of the parent
      happens to be answered with it; and then, as at any time before, every blocking wait for that
      child alone suspends its parent instead of reporting the child. */
  lemma {:induction false} HiddenForEver(s: State, run: seq<Event>, p: Pid, c: Pid, args: WaitArgs)
    requires Inv(s) && Legal(s, run) && HiddenDead(s, p, c) && Remembered(s, run, p, c)
    ensures Inv(After(s, run)) && HiddenDead(After(s, run), p, c)
    ensures var s' := After(s, run);
            Enabled(s', EnterWait(p, args)) && args.pid == c > 0 && !args.noHang && !args.badOptions ==>
              p in Next(s', EnterWait(p, args)).tasks && Next(s', EnterWait(p, args)).tasks[p].restartCall == Some(args)
    decreases |run|
  {
    if run != [] {
      HiddenStep(s, run[0], p, c);
      StepKeeps(s, run[0]);
      HiddenForEver(Next(s, run[0]), run[1..], p, c, args);
    } else if Enabled(s, EnterWait(p, args)) && args.pid == c > 0 && !args.noHang && !args.badOptions {
      WaitSuspends(s, p, c, args);
    }
  }

  lemma WaitSuspends(s: State, p: Pid, c: Pid, args: WaitArgs)
    requires Inv(s) && HiddenDead(s, p, c) && Enabled(s, EnterWait(p, args))
    requires args.pid == c > 0 && !args.noHang && !args.badOptions
    ensures p in Next(s, EnterWait(p, args)).tasks && Next(s, EnterWait(p, args)).tasks[p].restartCall == Some(args)
  {
    assert s.tasks[c].ppid == p && c != p;
    var tab := s.tasks[p := Entered(s.tasks[p], NoHandler)];
    ScanIs(tab, p, tab[p].children, args);
    assert Matches(tab[p], c, tab[c], args);
  }

  // ----- the sleep -----

  predicate Asleep(s: State, p: Pid, args: WaitArgs) {
    p in s.tasks && !s.tasks[p].exited && s.tasks[p].restartCall == Some(args) && s.tasks[p].kernelPending == {}
  }

  /** Nothing is sent to p, no child of its stops, takes a signal or ends, and it is not killed. */
  ghost predicate LeftAlone(s: State, run: seq<Event>, p: Pid)
    requires Legal(s, run)
    decreases |run|
  {
    run == [] ||
    (!(run[0].Send? && run[0].pid == p) && run[0] != Exit(p) && !Notifies(s, run[0], p) && LeftAlone(Next(s, run[0]), run[1..], p))
  }

  lemma SleepStep(s: State, e: Event, p: Pid, args: WaitArgs)
    requires Inv(s) && Enabled(s, e) && Asleep(s, p, args)
    requires !(e.Send? && e.pid == p) && e != Exit(p) && !Notifies(s, e, p)
    ensures Asleep(Next(s, e), p, args)
  {
    assert CallOk(s.tasks, p) && SelfOk(s.tasks[p]);
    if e.pid != p {
      OtherEvent(s, e, p);
    }
  }

  /** Over every run in which no signal comes to it, a suspended task with no signal pending stays
      suspended; its pause does not return. */
  lemma {:induction false} SleepsOn(s: State, run: seq<Event>, p: Pid, args: WaitArgs)
    requires Inv(s) && Legal(s, run) && Asleep(s, p, args) && LeftAlone(s, run, p)
    ensures Asleep(After(s, run), p, args) && forall reply :: !Enabled(After(s, run), Leave(p, reply))
    decreases |run|
  {
    if run != [] {
      SleepStep(s, run[0], p, args);
      StepKeeps(s, run[0]);
      SleepsOn(Next(s, run[0]), run[1..], p, args);
    }
  }

  /** The race ends in such a sleep: whatever happens afterwards, the parent goes on sleeping beside its
      dead child until a signal comes to it, and a blocking wait for that child alone that it enters
      later suspends it again. */
  lemma RaceSleeps(run: seq<Event>, args: WaitArgs)
    requires Legal(RaceStart(), RACE_RUN) && Legal(After(RaceStart(), RACE_RUN), run)
    ensures var s := After(RaceStart(), RACE_RUN);
            && (LeftAlone(s, run, 2) ==> Asleep(After(s, run), 2, RACE_WAIT))
            && (Remembered(s, run, 2, 3) ==> HiddenDead(After(s, run), 2, 3))
            && (Remembered(s, run, 2, 3) && Enabled(After(s, run), EnterWait(2, args))
                && args.pid == 3 && !args.noHang && !args.badOptions ==>
                  2 in Next(After(s, run), EnterWait(2, args)).tasks
                  && Next(After(s, run), EnterWait(2, args)).tasks[2].restartCall == Some(args))
  {
    RaceHidesDeadChild();
    var s := After(RaceStart(), RACE_RUN);
    InitialInv(RaceStart());
    RunKeeps(RaceStart(), RACE_RUN);
    assert !s.tasks[2].exited by { WaitEnteredAgain(); assert RACE_RUN[..10] == RACE_RUN; }
    if LeftAlone(s, run, 2) {
      SleepsOn(s, run, 2, RACE_WAIT);
    }
    if Remembered(s, run, 2, 3) {
      HiddenForEver(s, run, 2, 3, args);
    }
  }
}
