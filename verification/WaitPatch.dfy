/** The code that makes a stopped task sleep: every task on record as stopped has it in memory, unless
    the report of a stopped child has hit a child that goes on. Then SIGCONT ends OKFS. */
module WaitPatch {
  import opened Common
  import opened Tasks
  import opened WaitModel
  import opened WaitLaws
  import opened WaitTheorems

  /** Memory of the task is replaced, and not for a fork. */
  predicate Patched(t: Task) {
    t.rpl && t.nextCall != AfterFork
  }

  ghost predicate StoppedArePatched(s: State) {
    forall p :: p in s.tasks && StoppedTask(s.tasks[p].state) ==> Patched(s.tasks[p])
  }

  /** The report of a stopped child does not look again: the child may have been continued since. */
  predicate ReportsTheRunning(s: State, e: Event)
    requires e.pid in s.tasks
  {
    e.Leave? && var c := Reported(s, e.pid, e.reply); c.Some? && c.value in s.tasks && !Patched(s.tasks[c.value])
  }

  /** What an event leaves of another task. */
  ghost predicate Alike(t: Task, t': Task) {
    t'.rpl == t.rpl && t'.nextCall == t.nextCall
  }

  lemma ResumeAlike(s: State, p: Pid)
    requires p in s.tasks
    ensures p in Resume(s).tasks && Alike(s.tasks[p], Resume(s).tasks[p]) && Resume(s).tasks[p].state == s.tasks[p].state
  {
  }

  lemma HandlerAlike(s: State, q: Pid, reply: Reply, p: Pid)
    requires Inv(s) && Enabled(s, Leave(q, reply)) && s.tasks[q].restartCall.None? && p in s.tasks
    requires AfterCall(s.tasks, q, reply).Some? && p in AfterCall(s.tasks, q, reply).value
    ensures var t' := AfterCall(s.tasks, q, reply).value[p];
            && t'.nextCall == s.tasks[p].nextCall
            && t'.rpl == (s.tasks[p].rpl && !(p == q && s.tasks[q].nextCall == AfterFork && reply.Forked?))
  {
    if reply.Reaped? && s.tasks[q].nextCall in {AfterIsZombie, AfterIsStopped} {
      assert InvBut(s.tasks, q);
      RemoveChildKeeps(s.tasks, q, reply.child);
      SurvivorIsSame(RemoveChild(s.tasks, q, reply.child), reply.child, p);
    }
  }

  lemma LeaveAlike(s: State, q: Pid, reply: Reply, p: Pid)
    requires Inv(s) && Enabled(s, Leave(q, reply)) && p in s.tasks && p in Next(s, Leave(q, reply)).tasks
    requires !Next(s, Leave(q, reply)).halted
    ensures var t' := Next(s, Leave(q, reply)).tasks[p];
            if p == q then t'.nextCall == NoHandler && (!reply.Forked? ==> t'.rpl == s.tasks[p].rpl)
            else Alike(s.tasks[p], t')
  {
    var s1 := LeaveCall(s.(slave := Some(q)), q, reply);
    LeaveKeeps(s, q, reply);
    ResumeKeysSame(s1);
    if s.tasks[q].restartCall.None? {
      LeaveHandler(s, q, reply);
      HandlerAlike(s, q, reply, p);
    }
    ResumeAlike(s1, p);
  }

  lemma ExitAlike(s: State, q: Pid, p: Pid)
    requires Inv(s) && q in s.tasks && p in s.tasks && p in ExitSlave(s, q).tasks
    ensures Alike(s.tasks[p], ExitSlave(s, q).tasks[p])
  {
    var t' := s.tasks[q].(state := Zombie, exited := true);
    var tab1 := s.tasks[q := s.tasks[q].(exited := true)];
    var tab2 := s.tasks[q := t'];
    assert tab1[q := tab1[q].(state := Zombie)] == tab2;
    if t'.ppid == INIT {
      BecomesReady(s.tasks, q, t');
      SurvivorIsSame(tab2, q, p);
    }
  }

  lemma ExitPatched(s: State, q: Pid, p: Pid)
    requires Inv(s) && Enabled(s, Exit(q)) && StoppedArePatched(s)
    requires p in Next(s, Exit(q)).tasks && StoppedTask(Next(s, Exit(q)).tasks[p].state)
    ensures Patched(Next(s, Exit(q)).tasks[p])
  {
    var s1 := s.(slave := Some(q));
    ResumeKeysSame(ExitSlave(s1, q));
    ExitSpares(s1, q, p);
    ExitAlike(s1, q, p);
    ResumeAlike(ExitSlave(s1, q), p);
  }

  lemma StopPatched(s: State, q: Pid, p: Pid)
    requires q in s.tasks && p in s.tasks && !s.tasks[q].duringCall && s.tasks[q].nextCall != AfterFork
    ensures var t' := StopSlave(s, q).tasks;
            p in t' && t'[p].nextCall == s.tasks[p].nextCall && t'[p].rpl == (s.tasks[p].rpl || p == q)
            && (p != q ==> t'[p].state == s.tasks[p].state)
  {
    StopEffect(s, q, p);
  }

  lemma SignalPatched(s: State, q: Pid, sig: Signal, p: Pid)
    requires Inv(s) && Enabled(s, SignalStop(q, sig)) && StoppedArePatched(s)
    requires p in Next(s, SignalStop(q, sig)).tasks && StoppedTask(Next(s, SignalStop(q, sig)).tasks[p].state)
    ensures Patched(Next(s, SignalStop(q, sig)).tasks[p])
  {
    var s1 := Take(s.(slave := Some(q)), q, sig);
    var s2 := ProcessSignal(s1, q, sig).0;
    ResumeKeysSame(s2);
    assert CallOk(s.tasks, q);
    if StopsNow(s1.tasks[q], sig) {
      assert p in s.tasks;
      StopPatched(s1, q, p);
    }
    ResumeAlike(s2, p);
  }

  lemma LeavePatched(s: State, q: Pid, reply: Reply, p: Pid)
    requires Inv(s) && Enabled(s, Leave(q, reply)) && StoppedArePatched(s) && !ReportsTheRunning(s, Leave(q, reply))
    requires !Next(s, Leave(q, reply)).halted
    requires p in Next(s, Leave(q, reply)).tasks && StoppedTask(Next(s, Leave(q, reply)).tasks[p].state)
    ensures Patched(Next(s, Leave(q, reply)).tasks[p])
  {
    LeaveSpares(s, q, reply, p);
    if p in s.tasks {
      LeaveAlike(s, q, reply, p);
      if Reported(s, q, reply) == Some(p) {
        assert CallOk(s.tasks, q);
      }
    }
  }

  /** While OKFS goes on, that report is the only event after which a task on record as stopped is not
      asleep in the code it was given. */
  lemma StoppedStayPatchedIff(s: State, e: Event)
    requires Inv(s) && Enabled(s, e) && StoppedArePatched(s) && !Next(s, e).halted
    ensures StoppedArePatched(Next(s, e)) <==> !ReportsTheRunning(s, e)
  {
    if ReportsTheRunning(s, e) {
      var c := s.tasks[e.pid].stoppedChild.value;
      assert CallOk(s.tasks, e.pid) && s.tasks[c].ppid == e.pid && c != e.pid;
      LeaveInTable(s, e.pid, e.reply, c);
      LeaveSpares(s, e.pid, e.reply, c);
      LeaveAlike(s, e.pid, e.reply, c);
    } else {
      forall p | p in Next(s, e).tasks && StoppedTask(Next(s, e).tasks[p].state) ensures Patched(Next(s, e).tasks[p]) {
        EventPatched(s, e, p);
      }
    }
  }

  /** The report of a stopped child removes nobody. */
  lemma LeaveInTable(s: State, q: Pid, reply: Reply, p: Pid)
    requires Inv(s) && Enabled(s, Leave(q, reply)) && Reported(s, q, reply).Some? && p in s.tasks
    ensures p in Next(s, Leave(q, reply)).tasks
  {
    ResumeKeysSame(LeaveCall(s.(slave := Some(q)), q, reply));
  }

  lemma EventPatched(s: State, e: Event, p: Pid)
    requires Inv(s) && Enabled(s, e) && StoppedArePatched(s) && !Next(s, e).halted && !ReportsTheRunning(s, e)
    requires p in Next(s, e).tasks && StoppedTask(Next(s, e).tasks[p].state)
    ensures Patched(Next(s, e).tasks[p])
  {
    match e
    case Send(_, _) =>
    case Sigaction(_, _, _) =>
    case NoProcess(_) =>
    case EnterWait(_, _) =>
    case EnterFork(_) =>
    case EnterOther(_) =>
    case SignalStop(q, sig) => SignalPatched(s, q, sig, p);
    case Leave(q, reply) => LeavePatched(s, q, reply, p);
    case Exit(q) => ExitPatched(s, q, p);
  }

  /** No such report along the run. */
  ghost predicate NoHit(s: State, run: seq<Event>)
    requires Legal(s, run)
    decreases |run|
  {
    run == [] || (!ReportsTheRunning(s, run[0]) && NoHit(Next(s, run[0]), run[1..]))
  }

  lemma {:induction false} NoHitKeeps(s: State, run: seq<Event>)
    requires Inv(s) && StoppedArePatched(s) && Legal(s, run) && NoHit(s, run)
    ensures Inv(After(s, run)) && (!After(s, run).halted ==> StoppedArePatched(After(s, run)))
    decreases |run|
  {
    if run != [] {
      StepKeeps(s, run[0]);
      if Next(s, run[0]).halted {
        assert run[1..] == [];
      } else {
        StoppedStayPatchedIff(s, run[0]);
        NoHitKeeps(Next(s, run[0]), run[1..]);
      }
    }
  }

  /** After every run without such a report, SIGCONT wakes a stopped task: its memory is restored, it
      runs, and OKFS goes on. */
  lemma ContinueWakes(s: State, run: seq<Event>, p: Pid)
    requires Initial(s) && Legal(s, run) && NoHit(s, run)
    requires Enabled(After(s, run), SignalStop(p, SIGCONT)) && StoppedTask(After(s, run).tasks[p].state)
    ensures var s' := Next(After(s, run), SignalStop(p, SIGCONT));
            !s'.halted && p in s'.tasks && s'.tasks[p].state == Running && !s'.tasks[p].rpl
    ensures Passed(After(s, run), SignalStop(p, SIGCONT)) == Some(SIGCONT)
  {
    InitialInv(s);
    NoHitKeeps(s, run);
    HaltsOnlyWhen(After(s, run), SignalStop(p, SIGCONT));
    ResumeAlike(ProcessSignal(Take(After(s, run).(slave := Some(p)), p, SIGCONT), p, SIGCONT).0, p);
  }
}
