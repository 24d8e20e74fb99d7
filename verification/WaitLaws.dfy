/** What every event keeps: the forest, the wake-up of suspended parents and the signals of
    stopped tasks; then the same over every run. */
module WaitLaws {
  import opened Common
  import opened Tasks
  import opened WaitModel

  // ----- the invariant -----

  /** A parent suspended in pause with a child to report has SIGUNPAUSE pending. */
  ghost predicate WakeUpPending(tab: Table, p: Pid)
    requires p in tab
  {
    tab[p].restartCall.Some? ==>
      forall c :: c in tab[p].children && Reportable(tab, p, c, tab[p].restartCall.value) ==> SIGUNPAUSE in tab[p].kernelPending
  }

  ghost predicate CallOk(tab: Table, p: Pid)
    requires p in tab
  {
    var t := tab[p];
    && (t.restartCall.Some? ==> t.duringCall && t.nextCall == NoHandler)
    && (t.nextCall == AfterFork ==> t.duringCall && t.rpl)
    && WakeUpPending(tab, p)
    && (t.nextCall == AfterIsStopped ==> t.stoppedChild.Some? && t.stoppedChild.value in t.children)
    && (t.nextCall == AfterIsZombie ==> exists c :: c in t.children && c in tab && tab[c].exited)
  }

  ghost predicate SelfOk(t: Task) {
    t.state == Zombie ==> t.exited
  }

  /** The invariant, while the call of task x is being taken apart. */
  ghost predicate InvBut(tab: Table, x: Pid) {
    && Forest(tab)
    && (forall q :: q in tab ==> SelfOk(tab[q]))
    && (forall q :: q in tab && q != x ==> CallOk(tab, q))
  }

  ghost predicate Inv(s: State) {
    && InvBut(s.tasks, INIT)
    && (s.slave.Some? ==> s.slave.value in s.tasks)
  }

  // ----- what leaves a task's call state intact -----

  ghost predicate SameCall(t: Task, t': Task) {
    && t'.children == t.children && t'.gid == t.gid
    && t'.duringCall == t.duringCall && t'.nextCall == t.nextCall
    && t'.restartCall == t.restartCall && t'.stoppedChild == t.stoppedChild
    && t.kernelPending <= t'.kernelPending && (t.nextCall == AfterFork ==> t'.rpl == t.rpl)
  }

  /** The child is no more ready than it was, or its parent has been told. */
  ghost predicate Announced(t: Task, t': Task, parent: Task) {
    && t'.gid == t.gid && (t.exited ==> t'.exited)
    && (t'.state == t.state || t'.state == Running || t'.state == StoppedAndNotified || SIGUNPAUSE in parent.kernelPending)
  }

  lemma Frame(tab: Table, tab': Table, q: Pid)
    requires q in tab && q in tab' && CallOk(tab, q) && SameCall(tab[q], tab'[q])
    requires forall c :: c in tab[q].children ==> c in tab && c in tab' && Announced(tab[c], tab'[c], tab'[q])
    ensures CallOk(tab', q)
  {
    var t := tab[q];
    if t.restartCall.Some? {
      var args := t.restartCall.value;
      forall c | c in tab'[q].children && Reportable(tab', q, c, args) ensures SIGUNPAUSE in tab'[q].kernelPending {
        if SIGUNPAUSE !in tab'[q].kernelPending {
          assert Announced(tab[c], tab'[c], tab'[q]);
          assert Reportable(tab, q, c, args);
        }
      }
    }
    if t.nextCall == AfterIsZombie {
      var c :| c in t.children && c in tab && tab[c].exited;
      assert c in tab'[q].children && tab'[c].exited;
    }
  }

  ghost predicate SameFamily(tab: Table, tab': Table) {
    && tab'.Keys == tab.Keys
    && (forall q :: q in tab ==> tab'[q].children == tab[q].children && tab'[q].ppid == tab[q].ppid)
  }

  lemma SameForest(tab: Table, tab': Table)
    requires Forest(tab) && SameFamily(tab, tab')
    ensures Forest(tab')
  {
  }

  /** A task is no more ready than it was, is nobody's child, or its parent has been told. */
  ghost predicate Told(tab: Table, tab': Table, c: Pid)
    requires c in tab && c in tab'
  {
    tab[c].ppid == INIT || (tab[c].ppid in tab' && Announced(tab[c], tab'[c], tab'[tab[c].ppid]))
  }

  /** Changes of state and of pending signals that leave the family and the calls alone. */
  lemma FrameAll(tab: Table, tab': Table, x: Pid)
    requires InvBut(tab, x) && SameFamily(tab, tab')
    requires forall q :: q in tab ==> SelfOk(tab'[q]) && Told(tab, tab', q)
    requires forall q :: q in tab && q != x ==> SameCall(tab[q], tab'[q])
    ensures InvBut(tab', x)
  {
    SameForest(tab, tab');
    forall q | q in tab' && q != x ensures CallOk(tab', q) {
      forall c | c in tab[q].children ensures c in tab && c in tab' && Announced(tab[c], tab'[c], tab'[q]) {
        assert Told(tab, tab', c);
      }
      Frame(tab, tab', q);
    }
  }

  /** A change to one task that leaves family, state and end alone. */
  ghost predicate LocalChange(t: Task, t': Task) {
    t'.ppid == t.ppid && t'.gid == t.gid && t'.children == t.children && t'.state == t.state && t'.exited == t.exited
  }

  lemma Local(tab: Table, p: Pid, t': Task, x: Pid, x': Pid)
    requires InvBut(tab, x) && p in tab && LocalChange(tab[p], t') && SelfOk(t')
    requires x' == x || x == p || x == INIT
    requires p != x' ==> CallOk(tab[p := t'], p)
    ensures InvBut(tab[p := t'], x')
  {
    var tab' := tab[p := t'];
    SameForest(tab, tab');
    forall q | q in tab' && q != x' && q != p ensures CallOk(tab', q) {
      Frame(tab, tab', q);
    }
  }

  lemma NotifyKeeps(tab: Table, p: Pid, sig: Signal, x: Pid)
    requires InvBut(tab, x)
    ensures InvBut(Notify(tab, p, sig), x)
  {
    if p in tab {
      FrameAll(tab, Notify(tab, p, sig), x);
    }
  }

  // ----- removing, reaping, adding -----

  lemma RemoveKeeps(tab: Table, pid: Pid, x: Pid)
    requires InvBut(tab, x) && pid in tab && tab[pid].ppid == INIT
    ensures InvBut(RemoveSlave(tab, pid), x)
  {
    RemoveExact(tab, pid);
    RemoveKeepsForest(tab, pid);
    var r := RemoveSlave(tab, pid);
    forall q | q in r ensures r[q].(ppid := INIT) == tab[q].(ppid := INIT) {
    }
    forall q | q in r && q != x ensures CallOk(r, q) {
      assert forall c :: c in tab[q].children ==> c in r[q].children;
      Frame(tab, r, q);
    }
  }

  /** A task that has not ended survives the removal of another one. */
  lemma LivingStay(tab: Table, pid: Pid, q: Pid)
    requires InvBut(tab, pid) || InvBut(tab, INIT) || InvBut(tab, q)
    requires pid in tab && tab[pid].ppid == INIT && q in tab && q != pid && !tab[q].exited
    ensures q in RemoveSlave(tab, pid)
  {
    RemoveExact(tab, pid);
    assert ZombieClosed(tab, tab.Keys - {q});
  }

  lemma {:induction false} WithoutIs(kids: seq<Pid>, c: Pid)
    requires Distinct(kids)
    ensures Distinct(Without(kids, c))
    ensures forall q :: q in Without(kids, c) <==> q in kids && q != c
  {
    if kids != [] {
      assert forall q :: q in kids <==> q == kids[0] || q in kids[1..];
      if kids[0] != c {
        WithoutIs(kids[1..], c);
        var w := Without(kids[1..], c);
        assert kids[0] !in kids[1..] && kids[0] !in w;
        assert forall q :: q in [kids[0]] + w <==> q == kids[0] || q in w;
      } else {
        assert c !in kids[1..];
      }
    }
  }

  lemma RemoveChildForest(tab: Table, p: Pid, c: Pid)
    requires Forest(tab) && p in tab && c in tab[p].children
    ensures c in tab && c != p
    ensures var tab' := RemoveChild(tab, p, c);
            Forest(tab') && tab'.Keys == tab.Keys && forall q :: q in tab'[p].children ==> q in tab[p].children
  {
    var tab' := RemoveChild(tab, p, c);
    WithoutIs(tab[p].children, c);
    assert tab'.Keys == tab.Keys;
    assert forall q :: q in tab && q != p && q != c ==> tab'[q] == tab[q];
    assert tab'[c].children == tab[c].children;
  }

  lemma RemoveChildKeeps(tab: Table, p: Pid, c: Pid)
    requires InvBut(tab, p) && p in tab && c in tab[p].children
    ensures c in tab && c != p && RemoveChild(tab, p, c)[c] == tab[c].(ppid := INIT)
    ensures InvBut(RemoveChild(tab, p, c), p)
  {
    RemoveChildForest(tab, p, c);
    var tab' := RemoveChild(tab, p, c);
    assert forall q :: q in tab && q != p && q != c ==> tab'[q] == tab[q];
    forall q | q in tab' && q != p ensures CallOk(tab', q) {
      Frame(tab, tab', q);
    }
  }

  lemma AddChildForest(tab: Table, p: Pid, c: Pid)
    requires Forest(tab) && p in tab && c !in tab && c != INIT
    ensures Forest(AddChild(tab, p, c)) && AddChild(tab, p, c).Keys == tab.Keys + {c}
  {
    var tab' := AddChild(tab, p, c);
    assert c !in tab[p].children;
    assert tab'[p].children[1..] == tab[p].children;
    forall q | q in tab' ensures Distinct(tab'[q].children) && tab'[q].ppid != q {
      if q == p { assert Distinct(tab[p].children); }
    }
    forall q, k | q in tab' && k in tab'[q].children ensures k in tab' && tab'[k].ppid == q {
      if q == p && k != c { assert k in tab[p].children; }
    }
    forall k | k in tab' && tab'[k].ppid != INIT ensures tab'[k].ppid in tab' && k in tab'[tab'[k].ppid].children {
      if k != c {
        assert k in tab[tab[k].ppid].children;
      } else {
        assert tab'[p].children[0] == c;
      }
    }
  }

  lemma AddChildKeeps(tab: Table, p: Pid, c: Pid)
    requires InvBut(tab, p) && p in tab && c !in tab && c != INIT
    ensures InvBut(AddChild(tab, p, c), p)
  {
    AddChildForest(tab, p, c);
    var tab' := AddChild(tab, p, c);
    assert forall q :: q in tab && q != p ==> tab'[q] == tab[q];
    forall q | q in tab' && q != p && q != c ensures CallOk(tab', q) {
      Frame(tab, tab', q);
    }
  }

  /** The report of a stopped child. */
  lemma NotedKeeps(tab: Table, p: Pid, c: Pid)
    requires InvBut(tab, p) && c in tab
    ensures InvBut(tab[c := tab[c].(state := StoppedAndNotified)], p)
  {
    FrameAll(tab, tab[c := tab[c].(state := StoppedAndNotified)], p);
  }

  // ----- changes of state -----

  /** A task that becomes ready: its parent is told in the same step. */
  lemma BecomesReady(tab: Table, p: Pid, t': Task)
    requires InvBut(tab, INIT) && p in tab
    requires t' == tab[p].(state := t'.state, exited := t'.exited) && SelfOk(t')
    requires tab[p].exited ==> t'.exited
    ensures tab[p].ppid != INIT ==> InvBut(Notify(tab[p := t'], tab[p].ppid, SIGUNPAUSE), INIT)
    ensures tab[p].ppid == INIT ==> InvBut(tab[p := t'], INIT)
  {
    var ppid := tab[p].ppid;
    var tab1 := tab[p := t'];
    if ppid != INIT {
      assert ppid in tab;
      FrameAll(tab, Notify(tab1, ppid, SIGUNPAUSE), INIT);
    } else {
      FrameAll(tab, tab1, INIT);
    }
  }

  lemma ExitKeeps(s: State, p: Pid)
    requires Inv(s) && p in s.tasks
    ensures InvBut(ExitSlave(s, p).tasks, INIT)
  {
    var t' := s.tasks[p].(state := Zombie, exited := true);
    var tab1 := s.tasks[p := s.tasks[p].(exited := true)];
    assert tab1[p := tab1[p].(state := Zombie)] == s.tasks[p := t'];
    BecomesReady(s.tasks, p, t');
    if t'.ppid == INIT {
      RemoveKeeps(s.tasks[p := t'], p, INIT);
    }
  }

  /** Memory is replaced or restored outside a fork. */
  lemma PatchKeeps(tab: Table, p: Pid, b: bool)
    requires InvBut(tab, INIT) && p in tab && !tab[p].duringCall
    ensures InvBut(tab[p := tab[p].(rpl := b)], INIT)
  {
    var tab' := tab[p := tab[p].(rpl := b)];
    assert CallOk(tab, p);
    Frame(tab, tab', p);
    Local(tab, p, tab[p].(rpl := b), INIT, INIT);
  }

  lemma StopKeeps(s: State, p: Pid)
    requires Inv(s) && p in s.tasks && !s.tasks[p].duringCall
    ensures InvBut(StopSlave(s, p).tasks, INIT)
  {
    var tab := s.tasks[p := s.tasks[p].(rpl := true)];
    PatchKeeps(s.tasks, p, true);
    BecomesReady(tab, p, tab[p].(state := Stopped));
    NotifyKeeps(ChangeState(tab, p, Stopped), s.tasks[p].ppid, SIGCHLD, INIT);
  }

  lemma WakeKeeps(s: State, p: Pid)
    requires Inv(s) && p in s.tasks && !s.tasks[p].duringCall
    ensures InvBut(WakeupSlave(s, p).tasks, INIT)
  {
    var tab := s.tasks[p := s.tasks[p].(rpl := false)];
    PatchKeeps(s.tasks, p, false);
    FrameAll(tab, tab[p := tab[p].(state := Running)], INIT);
  }

  lemma ResumeKeeps(s: State)
    requires InvBut(s.tasks, INIT)
    ensures Inv(Resume(s))
  {
    if s.slave.Some? && s.slave.value in s.tasks && s.tasks[s.slave.value].state != Zombie {
      var p := s.slave.value;
      var t := s.tasks[p];
      FrameAll(s.tasks, s.tasks[p := Delivered(t)], INIT);
    }
  }

  // ----- every event -----

  lemma {:induction false} ScanIs(tab: Table, p: Pid, kids: seq<Pid>, args: WaitArgs)
    requires p in tab
    ensures match FirstReady(tab, p, kids, args)
            case None => forall c :: c in kids ==> !Reportable(tab, p, c, args)
            case Some(c) => c in kids && Reportable(tab, p, c, args)
  {
    if kids != [] && !Reportable(tab, p, kids[0], args) {
      ScanIs(tab, p, kids[1..], args);
      assert forall c :: c in kids <==> c == kids[0] || c in kids[1..];
    }
  }

  /** After the scan the caller is either served or suspended with no child to report. */
  lemma ScannedOk(tab: Table, p: Pid, args: WaitArgs)
    requires InvBut(tab, p) && p in tab
    requires tab[p].duringCall && tab[p].nextCall == NoHandler && tab[p].restartCall.None?
    ensures CallOk(tab[p := BeforeWait(tab, p, args)], p)
  {
    var t' := BeforeWait(tab, p, args);
    var tab' := tab[p := t'];
    ScanIs(tab, p, tab[p].children, args);
    forall c | c in tab[p].children ensures c in tab && tab'[c] == tab[c] {
      assert tab[c].ppid == p;
    }
    if t'.nextCall == AfterIsZombie {
      var c := FirstReady(tab, p, tab[p].children, args).value;
      assert c in t'.children && c in tab' && tab'[c].exited;
    }
    if t'.restartCall.Some? {
      forall c | c in t'.children ensures !Reportable(tab', p, c, args) {
        assert !Reportable(tab, p, c, args);
      }
    }
  }

  lemma EnterWaitKeeps(s: State, p: Pid, args: WaitArgs)
    requires Inv(s) && Enabled(s, EnterWait(p, args))
    ensures Inv(Next(s, EnterWait(p, args)))
  {
    var tab := s.tasks[p := Entered(s.tasks[p], NoHandler)];
    Local(s.tasks, p, Entered(s.tasks[p], NoHandler), INIT, p);
    ScannedOk(tab, p, args);
    Local(tab, p, BeforeWait(tab, p, args), p, INIT);
    ResumeKeeps(State(tab[p := BeforeWait(tab, p, args)], Some(p), s.halted));
  }

  lemma EnterKeeps(s: State, p: Pid, t': Task, halted: bool)
    requires Inv(s) && p in s.tasks && !s.tasks[p].duringCall
    requires t' == Entered(s.tasks[p], NoHandler) || t' == Entered(s.tasks[p], AfterFork).(rpl := true)
    ensures Inv(Resume(State(s.tasks[p := t'], Some(p), halted)))
  {
    Local(s.tasks, p, t', INIT, INIT);
    ResumeKeeps(State(s.tasks[p := t'], Some(p), halted));
  }

  /** The call state of p is wiped: whatever was special about it is over. */
  lemma Wiped(tab: Table, p: Pid)
    requires InvBut(tab, p) && p in tab && tab[p].restartCall.None?
    ensures InvBut(tab[p := tab[p].(duringCall := false, nextCall := NoHandler)], INIT)
  {
    Local(tab, p, tab[p].(duringCall := false, nextCall := NoHandler), p, INIT);
  }

  lemma ReapKeeps(tab: Table, p: Pid, c: Pid)
    requires InvBut(tab, p) && p in tab && c in tab[p].children && c in tab && !tab[p].exited
    ensures var r := RemoveSlave(RemoveChild(tab, p, c), c);
            InvBut(r, p) && p in r && r[p].restartCall == tab[p].restartCall
  {
    RemoveChildKeeps(tab, p, c);
    var tab1 := RemoveChild(tab, p, c);
    RemoveKeeps(tab1, c, p);
    LivingStay(tab1, c, p);
    RemoveExact(tab1, c);
  }

  lemma LeaveKeeps(s: State, p: Pid, reply: Reply)
    requires Inv(s) && Enabled(s, Leave(p, reply))
    ensures Inv(Next(s, Leave(p, reply))) && (Next(s, Leave(p, reply)).halted <==> BadStatus(s.tasks[p], reply))
  {
    var tab, t := s.tasks, s.tasks[p];
    var s1 := s.(slave := Some(p));
    if t.restartCall.Some? {
      Local(tab, p, t.(duringCall := false, restartCall := None, nextCall := NoHandler), INIT, INIT);
    } else if !BadStatus(t, reply) {
      LeaveHandler(s, p, reply);
      var tab' := AfterCall(tab, p, reply).value;
      Wiped(tab', p);
    }
    ResumeKeeps(LeaveCall(s1, p, reply));
  }

  /** Unless the wait for a dead child failed or the status address of a stop report is bad, every
      after-handler goes through and keeps the invariant. */
  lemma LeaveHandler(s: State, p: Pid, reply: Reply)
    requires Inv(s) && Enabled(s, Leave(p, reply)) && s.tasks[p].restartCall.None? && !BadStatus(s.tasks[p], reply)
    ensures var after := AfterCall(s.tasks, p, reply);
            && after.Some? && p in after.value && InvBut(after.value, p)
            && after.value[p].restartCall.None?
  {
    var tab := s.tasks;
    assert InvBut(tab, p);
    match tab[p].nextCall
    case NoHandler =>
    case AfterFork =>
      if reply.Forked? { AddChildKeeps(tab, p, reply.child); }
    case AfterWnohang =>
      if reply.Reaped? { RemoveChildKeeps(tab, p, reply.child); }
    case AfterIsZombie =>
      ReapKeeps(tab, p, reply.child);
    case AfterIsStopped =>
      if reply.Reaped? {
        ReapKeeps(tab, p, reply.child);
      } else if !reply.Failed? {
        NotedKeeps(tab, p, tab[p].stoppedChild.value);
      }
  }

  lemma SignalKeeps(s: State, p: Pid, sig: Signal)
    requires Inv(s) && Enabled(s, SignalStop(p, sig))
    ensures Inv(Next(s, SignalStop(p, sig)))
  {
    var s1 := s.(slave := Some(p));
    var t := s.tasks[p];
    var taken := t.(kernelPending := t.kernelPending - {sig});
    Local(s.tasks, p, taken, INIT, INIT);
    ProcessKeeps(Take(s1, p, sig), p, sig);
    ResumeKeeps(ProcessSignal(Take(s1, p, sig), p, sig).0);
  }

  lemma ProcessKeeps(s: State, p: Pid, sig: Signal)
    requires Inv(s) && p in s.tasks && !s.tasks[p].exited && !s.tasks[p].duringCall
    ensures InvBut(ProcessSignal(s, p, sig).0.tasks, INIT)
  {
    var t := s.tasks[p];
    if sig == SIGUNPAUSE {
    } else if StoppedTask(t.state) {
      if sig == SIGCONT {
        WakeKeeps(s, p);
      } else if !StoppingSig(sig) {
        Local(s.tasks, p, t.(sigpendingMask := t.sigpendingMask + {sig}), INIT, INIT);
      }
    } else if StoppingSig(sig) && sig in t.defaultStop {
      StopKeeps(s, p);
    }
  }

  lemma StepKeeps(s: State, e: Event)
    requires Inv(s) && Enabled(s, e)
    ensures Inv(Next(s, e))
  {
    match e
    case Send(p, sig) => NotifyKeeps(s.tasks, p, sig, INIT);
    case Sigaction(p, dfl, noCld) =>
      FrameAll(s.tasks, s.tasks[p := s.tasks[p].(defaultStop := dfl, noCldStop := noCld)], INIT);
    case EnterWait(p, args) => EnterWaitKeeps(s, p, args);
    case EnterFork(p) => EnterKeeps(s, p, Entered(s.tasks[p], AfterFork).(rpl := true), s.halted || s.tasks[p].rpl);
    case EnterOther(p) => EnterKeeps(s, p, Entered(s.tasks[p], NoHandler), s.halted);
    case Leave(p, reply) => LeaveKeeps(s, p, reply);
    case SignalStop(p, sig) => SignalKeeps(s, p, sig);
    case NoProcess(_) =>
    case Exit(p) =>
      ExitKeeps(s.(slave := Some(p)), p);
      ResumeKeeps(ExitSlave(s.(slave := Some(p)), p));
  }

  lemma {:induction false} RunKeeps(s: State, run: seq<Event>)
    requires Inv(s) && Legal(s, run)
    ensures Inv(After(s, run))
    decreases |run|
  {
    if run != [] {
      StepKeeps(s, run[0]);
      RunKeeps(Next(s, run[0]), run[1..]);
    }
  }
}
