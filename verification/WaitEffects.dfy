/** What each event does, spelled out field by field: whom a wait chooses and when it sleeps, which
    signals get through, who is told of a stop, what a child inherits, what a reap takes away. Nothing
    here speaks of the handlers or of the predicates they use. */
module WaitEffects {
  import opened Common
  import opened Tasks
  import opened WaitModel
  import opened WaitLaws
  import opened WaitTheorems

  /** Tasks other than those named come, go and change in no way. */
  ghost predicate OthersSame(tab: Table, tab': Table, named: set<Pid>) {
    forall q :: q !in named ==> (q in tab <==> q in tab') && (q in tab ==> tab'[q] == tab[q])
  }

  /** Everything about a task but what waits for it of signals. */
  function Quiet(t: Task): Task {
    t.(kernelPending := {}, sigpendingMask := {})
  }

  lemma ResumeQuiet(s: State)
    requires s.slave.Some? && s.slave.value in s.tasks
    ensures var p, s' := s.slave.value, Resume(s);
            s'.halted == s.halted && s'.tasks.Keys == s.tasks.Keys && Quiet(s'.tasks[p]) == Quiet(s.tasks[p])
            && OthersSame(s.tasks, s'.tasks, {p})
  {
  }

  // ----- wait -----

  /** The child is one that the wait asks for (section "waitpid" of IEEE Std 1003.1-2017, XSH). */
  ghost predicate Wanted(s: State, p: Pid, c: Pid, pid: int)
    requires p in s.tasks
  {
    c in s.tasks && (pid == -1 || (pid > 0 && c == pid) || (pid == 0 && s.tasks[c].gid == s.tasks[p].gid) || (pid < -1 && s.tasks[c].gid == -pid))
  }

  /** It is dead, or it is stopped, has not been reported and stopped children are asked for. */
  ghost predicate News(s: State, c: Pid, untraced: bool) {
    c in s.tasks && (s.tasks[c].state == Zombie || (s.tasks[c].state == Stopped && untraced))
  }

  lemma SameChoice(s: State, p: Pid, tab: Table, c: Pid, args: WaitArgs)
    requires Inv(s) && p in s.tasks && tab == s.tasks[p := Entered(s.tasks[p], NoHandler)] && c in s.tasks[p].children
    ensures c in s.tasks && c != p && tab[c] == s.tasks[c]
    ensures Matches(tab[p], c, tab[c], args) <==> Wanted(s, p, c, args.pid)
    ensures Reportable(tab, p, c, args) <==> Wanted(s, p, c, args.pid) && News(s, c, args.untraced)
  {
    assert s.tasks[c].ppid == p;
  }

  /** The wait may block or poll: some child is one that it asks for, and none of these has news. */
  ghost predicate NothingYet(s: State, p: Pid, args: WaitArgs)
    requires p in s.tasks
  {
    && (exists c :: c in s.tasks[p].children && Wanted(s, p, c, args.pid))
    && (forall c :: c in s.tasks[p].children && Wanted(s, p, c, args.pid) ==> !News(s, c, args.untraced))
  }

  /** Child i is the first in the list that the wait asks for and that has news. */
  ghost predicate FirstNews(s: State, p: Pid, args: WaitArgs, i: nat)
    requires p in s.tasks
  {
    var kids := s.tasks[p].children;
    && i < |kids| && Wanted(s, p, kids[i], args.pid) && News(s, kids[i], args.untraced)
    && forall j :: 0 <= j < i ==> !(Wanted(s, p, kids[j], args.pid) && News(s, kids[j], args.untraced))
  }

  /** A wait sleeps exactly when its options are good, it may block, some child is one that it asks for and
      none of these has news; with WNOHANG it is left to the kernel then. So it is when no child is one
      that it asks for, or its options are bad, and no handler is left behind: the kernel's error stands. */
  lemma WaitEntered(s: State, p: Pid, args: WaitArgs)
    requires Inv(s) && Enabled(s, EnterWait(p, args))
    ensures var t, t' := s.tasks[p], Next(s, EnterWait(p, args)).tasks[p];
            var waits := !args.badOptions && NothingYet(s, p, args);
            && (t'.restartCall == if waits && !args.noHang then Some(args) else None)
            && (t'.nextCall == AfterWnohang <==> waits && args.noHang)
            && (args.badOptions || (forall c :: c in t.children ==> !Wanted(s, p, c, args.pid)) ==>
                  t'.nextCall == NoHandler && t'.restartCall == None)
  {
    var tab := s.tasks[p := Entered(s.tasks[p], NoHandler)];
    assert CallOk(s.tasks, p);
    forall c | c in s.tasks[p].children
      ensures c in s.tasks && c != p && tab[c] == s.tasks[c]
      ensures Matches(tab[p], c, tab[c], args) <==> Wanted(s, p, c, args.pid)
      ensures Reportable(tab, p, c, args) <==> Wanted(s, p, c, args.pid) && News(s, c, args.untraced)
    {
      SameChoice(s, p, tab, c, args);
    }
    ScanIs(tab, p, s.tasks[p].children, args);
    WaitFrame(s, p, args);
  }

  /** A wait for which a child has news is set up for the first such child in the list. */
  lemma WaitChooses(s: State, p: Pid, args: WaitArgs, i: nat)
    requires Inv(s) && Enabled(s, EnterWait(p, args)) && !args.badOptions && FirstNews(s, p, args, i)
    ensures var c, t' := s.tasks[p].children[i], Next(s, EnterWait(p, args)).tasks[p];
            if s.tasks[c].state == Zombie then t'.nextCall == AfterIsZombie
            else t'.nextCall == AfterIsStopped && t'.stoppedChild == Some(c) && t'.statAddr == args.status
  {
    var tab, kids := s.tasks[p := Entered(s.tasks[p], NoHandler)], s.tasks[p].children;
    forall j | 0 <= j <= i
      ensures kids[j] in s.tasks && kids[j] != p && tab[kids[j]] == s.tasks[kids[j]]
      ensures Reportable(tab, p, kids[j], args) <==> Wanted(s, p, kids[j], args.pid) && News(s, kids[j], args.untraced)
    {
      SameChoice(s, p, tab, kids[j], args);
    }
    ScanFirst(tab, p, kids, args, i);
    WaitFrame(s, p, args);
  }

  /** And nothing else about the task changes, and no other task. */
  lemma WaitFrame(s: State, p: Pid, args: WaitArgs)
    requires Inv(s) && Enabled(s, EnterWait(p, args))
    ensures var s', b := Next(s, EnterWait(p, args)), BeforeWait(s.tasks[p := Entered(s.tasks[p], NoHandler)], p, args);
            && p in s'.tasks && Quiet(s'.tasks[p]) == Quiet(b)
            && var t, t' := s.tasks[p], s'.tasks[p];
               && t'.duringCall && !s'.halted
               && Quiet(t') == Quiet(t).(duringCall := true, nextCall := t'.nextCall, restartCall := t'.restartCall,
                                         stoppedChild := t'.stoppedChild, statAddr := t'.statAddr)
               && OthersSame(s.tasks, s'.tasks, {p})
  {
    var tab := s.tasks[p := Entered(s.tasks[p], NoHandler)];
    var s1 := State(tab[p := BeforeWait(tab, p, args)], Some(p), s.halted);
    CallFieldsOnly(tab, p, args);
    ResumeQuiet(s1);
    assert OthersSame(s.tasks, s1.tasks, {p});
  }

  lemma CallFieldsOnly(tab: Table, p: Pid, args: WaitArgs)
    requires p in tab
    ensures var b := BeforeWait(tab, p, args);
            b == tab[p].(nextCall := b.nextCall, restartCall := b.restartCall, stoppedChild := b.stoppedChild, statAddr := b.statAddr)
  {
  }

  /** The scan finds the first in list order. */
  lemma {:induction false} ScanFirst(tab: Table, p: Pid, kids: seq<Pid>, args: WaitArgs, i: nat)
    requires p in tab && i < |kids| && Reportable(tab, p, kids[i], args)
    requires forall j :: 0 <= j < i ==> !Reportable(tab, p, kids[j], args)
    ensures FirstReady(tab, p, kids, args) == Some(kids[i])
  {
    if i > 0 {
      assert forall j :: 0 <= j < i - 1 ==> kids[1..][j] == kids[j + 1];
      ScanFirst(tab, p, kids[1..], args, i - 1);
    }
  }

  /** Entering any other call. */
  lemma CallEntered(s: State, e: Event)
    requires Inv(s) && Enabled(s, e) && (e.EnterFork? || e.EnterOther?)
    ensures var s' := Next(s, e);
            var t, t' := s.tasks[e.pid], s'.tasks[e.pid];
            && Quiet(t') == Quiet(t).(duringCall := true, nextCall := if e.EnterFork? then AfterFork else NoHandler, rpl := t.rpl || e.EnterFork?)
            && (s'.halted <==> e.EnterFork? && t.rpl) && OthersSame(s.tasks, s'.tasks, {e.pid})
  {
  }

  // ----- signals -----

  /** A signal gets through to its task unless it is the one OKFS uses itself, or the task was stopped
      and it is not SIGCONT, or OKFS ends there. */
  lemma PassedExactly(s: State, p: Pid, sig: Signal)
    requires Inv(s) && Enabled(s, SignalStop(p, sig))
    ensures var stopped := s.tasks[p].state in {Stopped, StoppedAndNotified};
            Passed(s, SignalStop(p, sig)) ==
            if sig == SIGUNPAUSE || (stopped && sig != SIGCONT) || Next(s, SignalStop(p, sig)).halted then None else Some(sig)
  {
    var s1 := Take(s.(slave := Some(p)), p, sig);
    assert s1.tasks[p].state == s.tasks[p].state && !s1.halted;
    ResumeQuiet(ProcessSignal(s1, p, sig).0) by { Present(s1, p, sig); }
  }

  lemma Present(s: State, p: Pid, sig: Signal)
    requires p in s.tasks && s.slave == Some(p)
    ensures var s' := ProcessSignal(s, p, sig).0; s'.slave == Some(p) && p in s'.tasks
  {
    StopEffect(s, p, p);
  }

  /** What a signal does to its task: a stopping signal with its default action stops it and replaces its
      memory, SIGCONT undoes both, and no signal does anything else but wait or get through. */
  lemma SignalEffect(s: State, p: Pid, sig: Signal)
    requires Inv(s) && Enabled(s, SignalStop(p, sig))
    ensures var s', t := Next(s, SignalStop(p, sig)), s.tasks[p];
            var stopped := t.state in {Stopped, StoppedAndNotified};
            var stops := !stopped && sig in {SIGSTOP, SIGTSTP, SIGTTIN, SIGTTOU} && sig in t.defaultStop;
            var wakes := stopped && sig == SIGCONT;
            && (s'.halted <==> (stops && (t.rpl || t.ppid == INIT)) || (wakes && !t.rpl))
            && p in s'.tasks
            && (!s'.halted ==> Quiet(s'.tasks[p]) == Quiet(t).(state := if stops then Stopped else if wakes then Running else t.state,
                                                               rpl := stops || (t.rpl && !wakes)))
  {
    SignalHalts(s, p, sig);
    var s1 := Take(s.(slave := Some(p)), p, sig);
    Present(s1, p, sig);
    ResumeQuiet(ProcessSignal(s1, p, sig).0);
    if StopsNow(s.tasks[p], sig) { StopEffect(s1, p, p); }
  }

  /** A stop, and nothing else that a signal does, concerns another task, the parent: it is woken, and it
      gets SIGCHLD exactly when it has not asked to be spared that (SA_NOCLDSTOP). */
  lemma StopTellsParent(s: State, p: Pid, sig: Signal)
    requires Inv(s) && Enabled(s, SignalStop(p, sig))
    ensures var s', t := Next(s, SignalStop(p, sig)), s.tasks[p];
            var stops := t.state !in {Stopped, StoppedAndNotified} && sig in {SIGSTOP, SIGTSTP, SIGTTIN, SIGTTOU} && sig in t.defaultStop;
            && (!stops ==> OthersSame(s.tasks, s'.tasks, {p}))
            && (stops && !s'.halted ==>
                  && OthersSame(s.tasks, s'.tasks, {p, t.ppid}) && t.ppid in s.tasks && t.ppid != p
                  && var parent := s.tasks[t.ppid];
                     s'.tasks[t.ppid] == parent.(kernelPending := parent.kernelPending + {SIGUNPAUSE} + if parent.noCldStop then {} else {SIGCHLD}))
  {
    SignalHalts(s, p, sig);
    var t, s1 := s.tasks[p], Take(s.(slave := Some(p)), p, sig);
    Present(s1, p, sig);
    ResumeQuiet(ProcessSignal(s1, p, sig).0);
    assert t.ppid != INIT ==> t.ppid in s.tasks;
    if StopsNow(t, sig) {
      if !t.rpl && t.ppid != INIT { ParentTold(s1, p); }
    } else {
      assert OthersSame(s.tasks, ProcessSignal(s1, p, sig).0.tasks, {p});
    }
  }

  lemma ParentTold(s: State, p: Pid)
    requires p in s.tasks && !s.tasks[p].rpl && s.tasks[p].ppid in s.tasks && s.tasks[p].ppid != p && s.tasks[p].ppid != INIT
    ensures var tab, parent := StopSlave(s, p).tasks, s.tasks[s.tasks[p].ppid];
            && OthersSame(s.tasks, tab, {p, s.tasks[p].ppid}) && s.tasks[p].ppid in tab
            && tab[s.tasks[p].ppid] == parent.(kernelPending := parent.kernelPending + {SIGUNPAUSE} + if parent.noCldStop then {} else {SIGCHLD})
  {
  }

  /** The signals that a task has been spared: those masked, and the one that is masked now. */
  ghost function HeldBack(s: State, e: Event): set<Signal>
    requires e.pid in s.tasks
  {
    var t := s.tasks[e.pid];
    t.sigpendingMask +
    if e.SignalStop? && t.state in {Stopped, StoppedAndNotified}
       && e.sig !in {SIGUNPAUSE, SIGCONT, SIGSTOP, SIGTSTP, SIGTTIN, SIGTTOU} then {e.sig} else {}
  }

  /** Whenever a task goes on, all signals that were held back from it, but number 64, are handed to the
      kernel again; nothing else comes to wait for it, and of what waited only the signal just taken is gone. */
  lemma HandedOver(s: State, e: Event)
    requires Inv(s) && Enabled(s, e) && !(e.Send? || e.Sigaction? || e.NoProcess? || e.Exit?)
    ensures e.pid in Next(s, e).tasks
    ensures var t, t' := s.tasks[e.pid], Next(s, e).tasks[e.pid];
            && t'.sigpendingMask == HeldBack(s, e) * {64} && t'.sigpendingMask <= {LAST_SIGNAL}
            && t'.kernelPending == t.kernelPending - (if e.SignalStop? then {e.sig} else {}) + (HeldBack(s, e) - {64})
  {
    var p := e.pid;
    match e
    case EnterWait(_, args) =>
      var tab := s.tasks[p := Entered(s.tasks[p], NoHandler)];
      CallFieldsOnly(tab, p, args);
      ResumeDelivers(State(tab[p := BeforeWait(tab, p, args)], Some(p), s.halted));
    case EnterFork(_) => ResumeDelivers(Handle(s, e));
    case EnterOther(_) => ResumeDelivers(Handle(s, e));
    case Leave(_, reply) => LeaveHandsOver(s, p, reply);
    case SignalStop(_, sig) => SignalHandsOver(s, p, sig);
  }

  lemma ResumeDelivers(s: State)
    requires s.slave.Some? && s.slave.value in s.tasks && s.tasks[s.slave.value].state != Zombie
    ensures var t, t' := s.tasks[s.slave.value], Resume(s).tasks[s.slave.value];
            t'.sigpendingMask == t.sigpendingMask * {64} && t'.kernelPending == t.kernelPending + (t.sigpendingMask - {64})
  {
  }

  lemma LeaveHandsOver(s: State, p: Pid, reply: Reply)
    requires Inv(s) && Enabled(s, Leave(p, reply))
    ensures var e := Leave(p, reply);
            p in Next(s, e).tasks
            && var t, t' := s.tasks[p], Next(s, e).tasks[p];
               t'.sigpendingMask == t.sigpendingMask * {64} && t'.kernelPending == t.kernelPending + (t.sigpendingMask - {64})
  {
    var t := s.tasks[p];
    if t.restartCall.None? && !BadStatus(t, reply) {
      LeaveHandler(s, p, reply);
      HandlerKeepsSignals(s, p, reply);
    } else if t.restartCall.None? {
      assert LeaveCall(s.(slave := Some(p)), p, reply).tasks == s.tasks by { LeaveKeeps(s, p, reply); }
    }
    assert !t.exited && SelfOk(t);
  }

  lemma HandlerKeepsSignals(s: State, p: Pid, reply: Reply)
    requires Inv(s) && Enabled(s, Leave(p, reply)) && s.tasks[p].restartCall.None?
    requires AfterCall(s.tasks, p, reply).Some? && p in AfterCall(s.tasks, p, reply).value
    ensures var t, t' := s.tasks[p], AfterCall(s.tasks, p, reply).value[p];
            t'.sigpendingMask == t.sigpendingMask && t'.kernelPending == t.kernelPending && t'.state == t.state
  {
    if reply.Reaped? && s.tasks[p].nextCall in {AfterIsZombie, AfterIsStopped} {
      var c := reply.child;
      assert InvBut(s.tasks, p);
      RemoveChildKeeps(s.tasks, p, c);
      SurvivorIsSame(RemoveChild(s.tasks, p, c), c, p);
    } else if s.tasks[p].nextCall == AfterIsStopped && reply.Nothing? {
      assert CallOk(s.tasks, p);
      assert s.tasks[s.tasks[p].stoppedChild.value].ppid == p;
    }
  }

  lemma SignalHandsOver(s: State, p: Pid, sig: Signal)
    requires Inv(s) && Enabled(s, SignalStop(p, sig))
    ensures var e := SignalStop(p, sig);
            p in Next(s, e).tasks
            && var t, t' := s.tasks[p], Next(s, e).tasks[p];
               && t'.sigpendingMask == HeldBack(s, e) * {64}
               && t'.kernelPending == t.kernelPending - {sig} + (HeldBack(s, e) - {64})
  {
    var s1 := Take(s.(slave := Some(p)), p, sig);
    assert SelfOk(s.tasks[p]);
    Present(s1, p, sig);
    SignalMasks(s1, p, sig);
    ResumeDelivers(ProcessSignal(s1, p, sig).0);
  }

  lemma SignalMasks(s: State, p: Pid, sig: Signal)
    requires p in s.tasks && s.tasks[p].ppid != p && s.tasks[p].state != Zombie && p in ProcessSignal(s, p, sig).0.tasks
    ensures var t, t' := s.tasks[p], ProcessSignal(s, p, sig).0.tasks[p];
            && t'.state != Zombie && t'.kernelPending == t.kernelPending
            && t'.sigpendingMask == HeldBack(s, SignalStop(p, sig))
  {
    if StopsNow(s.tasks[p], sig) { StopEffect(s, p, p); }
  }

  // ----- the end of a call -----

  /** The call is over for task p. */
  ghost predicate CallOver(t: Task) {
    !t.duringCall && t.nextCall == NoHandler && t.restartCall == None
  }

  /** OKFS ends behind a call exactly when a wait for a dead child has failed, or when the status of a
      stopped child cannot be read or, with none reported by the kernel, cannot be written. */
  lemma LeaveEnds(s: State, p: Pid, reply: Reply)
    requires Inv(s) && Enabled(s, Leave(p, reply))
    ensures var t := s.tasks[p];
            Next(s, Leave(p, reply)).halted <==>
              t.restartCall == None &&
              ((t.nextCall == AfterIsZombie && reply == Failed)
               || (t.nextCall == AfterIsStopped && (t.statAddr == Unmapped || (t.statAddr == ReadOnly && reply == Nothing))))
  {
    LeaveKeeps(s, p, reply);
  }

  /** A return that has nothing to report wipes the call and changes nothing else: the end of a pause, so
      that the wait is tried again, a poll that found nothing, a wait or a fork that failed, any other call. */
  lemma PlainReturn(s: State, p: Pid, reply: Reply)
    requires Inv(s) && Enabled(s, Leave(p, reply)) && !Next(s, Leave(p, reply)).halted
    requires var t := s.tasks[p];
             t.restartCall.Some? || (!reply.Reaped? && !reply.Forked? && (t.nextCall == AfterIsStopped ==> reply.Failed?))
    ensures var s', t := Next(s, Leave(p, reply)), s.tasks[p];
            && OthersSame(s.tasks, s'.tasks, {p}) && p in s'.tasks
            && CallOver(s'.tasks[p])
            && Quiet(s'.tasks[p]) == Quiet(t).(duringCall := false, nextCall := NoHandler, restartCall := None)
  {
    LeaveKeeps(s, p, reply);
    ResumeQuiet(LeaveCall(s.(slave := Some(p)), p, reply));
  }

  /** The report of a stopped child marks that child as reported, and nothing else. */
  lemma StopReported(s: State, p: Pid)
    requires Inv(s) && Enabled(s, Leave(p, Nothing)) && !Next(s, Leave(p, Nothing)).halted
    requires s.tasks[p].restartCall.None? && s.tasks[p].nextCall == AfterIsStopped
    ensures s.tasks[p].stoppedChild.Some? && s.tasks[p].stoppedChild.value in s.tasks
    ensures var s', t, c := Next(s, Leave(p, Nothing)), s.tasks[p], s.tasks[p].stoppedChild.value;
            && c in t.children && c != p
            && OthersSame(s.tasks, s'.tasks, {p, c}) && p in s'.tasks && c in s'.tasks
            && s'.tasks[c] == s.tasks[c].(state := StoppedAndNotified)
            && Quiet(s'.tasks[p]) == Quiet(t).(duringCall := false, nextCall := NoHandler)
  {
    LeaveKeeps(s, p, Nothing);
    assert CallOk(s.tasks, p);
    assert s.tasks[s.tasks[p].stoppedChild.value].ppid == p;
    ResumeQuiet(LeaveCall(s.(slave := Some(p)), p, Nothing));
  }

  /** A fork: the child runs, belongs to its parent and its parent's process group, has its parent's
      dispositions of the stopping signals and of SIGCHLD, and starts with no call, no child, no signal
      and no replaced memory; the parent's memory is restored and the child comes first in its list. */
  lemma ForkReturns(s: State, p: Pid, c: Pid)
    requires Inv(s) && Enabled(s, Leave(p, Forked(c))) && s.tasks[p].restartCall.None?
    ensures var s', t := Next(s, Leave(p, Forked(c))), s.tasks[p];
            && !s'.halted && c !in s.tasks && c in s'.tasks && p in s'.tasks && OthersSame(s.tasks, s'.tasks, {p, c})
            && Quiet(s'.tasks[p]) == Quiet(t).(children := [c] + t.children, rpl := false, duringCall := false, nextCall := NoHandler)
            && var n := s'.tasks[c];
               && n.ppid == p && n.gid == t.gid && n.state == Running && !n.exited && n.children == [] && !n.rpl
               && n.defaultStop == t.defaultStop && n.noCldStop == t.noCldStop
               && CallOver(n) && n.stoppedChild == None && n.sigpendingMask == {} && n.kernelPending == {}
  {
    LeaveKeeps(s, p, Forked(c));
    assert CallOk(s.tasks, p);
    ResumeQuiet(LeaveCall(s.(slave := Some(p)), p, Forked(c)));
  }

  /** The list without one of its members, in the same order. */
  ghost predicate IsWithout(kids: seq<Pid>, kids': seq<Pid>, c: Pid) {
    exists i :: 0 <= i < |kids| && kids[i] == c && kids' == kids[..i] + kids[i + 1..]
  }

  lemma {:induction false} WithoutOne(kids: seq<Pid>, c: Pid)
    requires c in kids
    ensures IsWithout(kids, Without(kids, c), c)
  {
    if kids[0] == c {
      assert kids[..0] + kids[0 + 1..] == kids[1..];
    } else {
      var rest := kids[1..];
      assert kids == [kids[0]] + rest;
      WithoutOne(rest, c);
      OneInFront(kids[0], rest, Without(rest, c), c);
    }
  }

  lemma OneInFront(a: Pid, rest: seq<Pid>, rest': seq<Pid>, c: Pid)
    requires IsWithout(rest, rest', c)
    ensures IsWithout([a] + rest, [a] + rest', c)
  {
    var i :| 0 <= i < |rest| && rest[i] == c && rest' == rest[..i] + rest[i + 1..];
    var kids := [a] + rest;
    assert kids[..i + 1] == [a] + rest[..i] && kids[i + 1 + 1..] == rest[i + 1..];
    assert kids[i + 1] == c && [a] + rest' == kids[..i + 1] + kids[i + 1 + 1..];
  }

  /** A reap behind WNOHANG takes the child from the list of its parent and makes it an orphan; its record
      stays. */
  lemma PollReaps(s: State, p: Pid, c: Pid)
    requires Inv(s) && Enabled(s, Leave(p, Reaped(c))) && s.tasks[p].restartCall.None? && s.tasks[p].nextCall == AfterWnohang
    ensures var s', t := Next(s, Leave(p, Reaped(c))), s.tasks[p];
            && !s'.halted && c != p && p in s'.tasks && c in s'.tasks && OthersSame(s.tasks, s'.tasks, {p, c})
            && s'.tasks[c] == s.tasks[c].(ppid := INIT)
            && IsWithout(t.children, s'.tasks[p].children, c)
            && Quiet(s'.tasks[p]) == Quiet(t).(children := s'.tasks[p].children, duringCall := false, nextCall := NoHandler)
  {
    LeaveKeeps(s, p, Reaped(c));
    assert s.tasks[c].ppid == p;
    WithoutOne(s.tasks[p].children, c);
    ResumeQuiet(LeaveCall(s.(slave := Some(p)), p, Reaped(c)));
  }

  /** The task as it is when all of `gone` has been removed. */
  ghost function Bereft(tab: Table, gone: set<Pid>, q: Pid): Task
    requires q in tab
  {
    if ChildOfGone(tab, gone, q) then tab[q].(ppid := INIT) else tab[q]
  }

  /** Any other reap removes the child, with its zombie children and theirs; their other children are
      orphans, and no other task changes but the parent, whose list has lost the child. */
  lemma WaitReaps(s: State, p: Pid, c: Pid)
    requires Inv(s) && Enabled(s, Leave(p, Reaped(c))) && !Next(s, Leave(p, Reaped(c))).halted
    requires s.tasks[p].restartCall.None? && s.tasks[p].nextCall in {AfterIsZombie, AfterIsStopped}
    ensures var s', t := Next(s, Leave(p, Reaped(c))), s.tasks[p];
            var gone := s.tasks.Keys - s'.tasks.Keys;
            && s'.tasks.Keys <= s.tasks.Keys && IsZombieClosure(s.tasks, {c}, gone) && p in s'.tasks
            && (forall q :: q in s'.tasks && q != p ==> s'.tasks[q] == Bereft(s.tasks, gone, q))
            && IsWithout(t.children, s'.tasks[p].children, c)
            && Quiet(s'.tasks[p]) == Quiet(Bereft(s.tasks, gone, p)).(children := s'.tasks[p].children, duringCall := false, nextCall := NoHandler)
  {
    LeaveKeeps(s, p, Reaped(c));
    ReapEffect(s.tasks, p, c);
    assert AfterCall(s.tasks, p, Reaped(c)) == Some(RemoveSlave(RemoveChild(s.tasks, p, c), c));
    HandlerThrough(s, p, Reaped(c));
  }

  /** A call whose handler goes through. */
  lemma HandlerThrough(s: State, p: Pid, reply: Reply)
    requires p in s.tasks && s.tasks[p].restartCall.None?
    requires AfterCall(s.tasks, p, reply).Some? && p in AfterCall(s.tasks, p, reply).value
    ensures var s', tab := Next(s, Leave(p, reply)), AfterCall(s.tasks, p, reply).value;
            && s'.tasks.Keys == tab.Keys && Quiet(s'.tasks[p]) == Quiet(tab[p]).(duringCall := false, nextCall := NoHandler)
            && OthersSame(tab, s'.tasks, {p})
  {
    var s1 := LeaveCall(s.(slave := Some(p)), p, reply);
    ResumeQuiet(s1);
  }

  lemma ReapEffect(tab: Table, p: Pid, c: Pid)
    requires InvBut(tab, p) && p in tab && c in tab[p].children && c in tab && !tab[p].exited && SelfOk(tab[p])
    ensures var r := RemoveSlave(RemoveChild(tab, p, c), c);
            var gone := tab.Keys - r.Keys;
            && r.Keys <= tab.Keys && IsZombieClosure(tab, {c}, gone) && p in r
            && (forall q :: q in r && q != p ==> r[q] == Bereft(tab, gone, q))
            && IsWithout(tab[p].children, r[p].children, c)
            && r[p] == Bereft(tab, gone, p).(children := r[p].children)
  {
    assert tab[c].ppid == p;
    WithoutOne(tab[p].children, c);
    RemoveChildKeeps(tab, p, c);
    var tab1 := RemoveChild(tab, p, c);
    RemoveExact(tab1, c);
    Unchained(tab, p, c);
    SameClosure(tab, tab1, p, c, tab1.Keys - RemoveSlave(tab1, c).Keys);
    Carried(tab, tab1, p, c, RemoveSlave(tab1, c));
  }

  lemma Unchained(tab: Table, p: Pid, c: Pid)
    requires p in tab && c in tab && c != p
    ensures var tab1 := RemoveChild(tab, p, c);
            && tab1.Keys == tab.Keys && tab1[c] == tab[c].(ppid := INIT)
            && tab1[p] == tab[p].(children := Without(tab[p].children, c))
            && forall q :: q in tab && q != p && q != c ==> tab1[q] == tab[q]
  {
  }

  lemma Carried(tab: Table, tab1: Table, p: Pid, c: Pid, r: Table)
    requires p in tab && c in tab && c != p && tab1.Keys == tab.Keys
    requires tab1[p] == tab[p].(children := tab1[p].children)
    requires forall q :: q in tab && q != p && q != c ==> tab1[q] == tab[q]
    requires var gone := tab.Keys - r.Keys;
             && c in gone && p !in gone && Survivors(tab1, [], gone, r)
             && forall q :: q in tab ==> (ChildOfGone(tab, gone, q) <==> ChildOfGone(tab1, gone, q))
    ensures var gone := tab.Keys - r.Keys;
            && r.Keys <= tab.Keys && p in r
            && (forall q :: q in r && q != p ==> r[q] == Bereft(tab, gone, q))
            && r[p] == Bereft(tab, gone, p).(children := tab1[p].children)
  {
  }

  /** What is gone with c does not depend on whether c is still in the list of p, which lives. */
  lemma SameClosure(tab: Table, tab1: Table, p: Pid, c: Pid, gone: set<Pid>)
    requires Linked(tab) && p in tab && c in tab && c != p && tab[p].state != Zombie && tab[c].ppid == p
    requires tab1.Keys == tab.Keys && tab1[c] == tab[c].(ppid := INIT)
    requires forall q :: q in tab && q != p && q != c ==> tab1[q] == tab[q]
    requires tab1[p].state == tab[p].state
    requires IsZombieClosure(tab1, {c}, gone)
    ensures p !in gone && IsZombieClosure(tab, {c}, gone)
    ensures forall q :: q in tab ==> (ChildOfGone(tab, gone, q) <==> ChildOfGone(tab1, gone, q))
  {
    assert ZombieClosed(tab1, tab1.Keys - {p}) ;
    assert forall q :: q in tab && q != p ==> tab1[q].children == tab[q].children && tab1[q].state == tab[q].state;
    forall x: set<Pid> | {c} <= x && ZombieClosed(tab, x) ensures gone <= x {
      assert ZombieClosed(tab1, x - {p});
      assert gone <= x - {p};
    }
  }

  // ----- the end of a task -----

  /** A child that ends becomes a zombie and wakes its parent. */
  lemma ChildEnds(s: State, p: Pid)
    requires Inv(s) && Enabled(s, Exit(p)) && s.tasks[p].ppid != INIT
    ensures var s', t := Next(s, Exit(p)), s.tasks[p];
            && !s'.halted && t.ppid in s.tasks && t.ppid != p && OthersSame(s.tasks, s'.tasks, {p, t.ppid})
            && p in s'.tasks && s'.tasks[p] == t.(state := Zombie, exited := true)
            && t.ppid in s'.tasks && s'.tasks[t.ppid] == s.tasks[t.ppid].(kernelPending := s.tasks[t.ppid].kernelPending + {SIGUNPAUSE})
  {
    var s' := Next(s, Exit(p));
    assert p in s'.tasks;
    assert |ExitSlave(s.(slave := Some(p)), p).tasks| > 0 by {
      assert p in ExitSlave(s.(slave := Some(p)), p).tasks;
    }
  }

  /** An orphan that ends goes, with its zombie children and theirs; OKFS ends with its last task. */
  lemma OrphanEnds(s: State, p: Pid)
    requires Inv(s) && Enabled(s, Exit(p)) && s.tasks[p].ppid == INIT
    ensures var s' := Next(s, Exit(p));
            var gone := s.tasks.Keys - s'.tasks.Keys;
            && s'.tasks.Keys <= s.tasks.Keys && IsZombieClosure(s.tasks, {p}, gone)
            && (forall q :: q in s'.tasks ==> s'.tasks[q] == Bereft(s.tasks, gone, q))
            && (s'.halted <==> s'.tasks == map[])
  {
    ExitHalts(s, p);
    EndEffect(s.tasks, p);
    OrphanTable(s, p);
  }

  lemma OrphanTable(s: State, p: Pid)
    requires p in s.tasks && s.tasks[p].ppid == INIT
    requires p !in RemoveSlave(s.tasks[p := s.tasks[p].(state := Zombie, exited := true)], p)
    ensures Next(s, Exit(p)).tasks == RemoveSlave(s.tasks[p := s.tasks[p].(state := Zombie, exited := true)], p)
  {
    var tab1 := s.tasks[p := s.tasks[p].(exited := true)];
    assert tab1[p := tab1[p].(state := Zombie)] == s.tasks[p := s.tasks[p].(state := Zombie, exited := true)];
  }

  lemma EndEffect(tab: Table, p: Pid)
    requires Linked(tab) && p in tab && tab[p].ppid == INIT
    ensures var r := RemoveSlave(tab[p := tab[p].(state := Zombie, exited := true)], p);
            var gone := tab.Keys - r.Keys;
            && r.Keys <= tab.Keys && p !in r && IsZombieClosure(tab, {p}, gone)
            && (forall q :: q in r ==> r[q] == Bereft(tab, gone, q))
  {
    var tab1 := tab[p := tab[p].(state := Zombie, exited := true)];
    assert Linked(tab1);
    RemoveExact(tab1, p);
    EndedClosure(tab, tab1, p, tab1.Keys - RemoveSlave(tab1, p).Keys);
  }

  lemma EndedClosure(tab: Table, tab1: Table, p: Pid, gone: set<Pid>)
    requires Linked(tab) && p in tab && tab[p].ppid == INIT && tab1 == tab[p := tab[p].(state := Zombie, exited := true)]
    requires IsZombieClosure(tab1, {p}, gone)
    ensures IsZombieClosure(tab, {p}, gone)
    ensures forall q :: q in tab ==> (ChildOfGone(tab, gone, q) <==> ChildOfGone(tab1, gone, q))
  {
    assert forall q :: q in tab ==> tab1[q].children == tab[q].children;
    assert forall q :: q in tab && q != p ==> tab1[q] == tab[q];
    forall x: set<Pid> | {p} <= x && ZombieClosed(tab, x) ensures gone <= x {
      assert ZombieClosed(tab1, x);
    }
  }

  // ----- what comes from outside -----

  /** A signal sent waits for its task; a call of sigaction sets the dispositions; neither does more. */
  lemma FromOutside(s: State, e: Event)
    requires Inv(s) && Enabled(s, e) && (e.Send? || e.Sigaction?)
    ensures var s', t := Next(s, e), s.tasks[e.pid];
            && OthersSame(s.tasks, s'.tasks, {e.pid}) && !s'.halted && e.pid in s'.tasks
            && s'.tasks[e.pid] == if e.Send? then t.(kernelPending := t.kernelPending + {e.sig})
                                  else t.(defaultStop := e.defaultStop, noCldStop := e.noCldStop)
  {
  }
}
