/** The event loop over task objects: handlers that change fields of the current task and of other
    tasks in place. `model` is the state of the step relation that the objects stand for; every
    method says what it does to it, and every turn of the loop is one step. */
module Supervisor {
  import opened Common
  import opened Tasks
  import opened WaitModel
  import opened WaitLaws

  /** struct task. The two ghost fields are the kernel's. */
  class Slave {
    const pid: Pid
    var ppid: Pid
    var gid: int
    var state: RunState
    var children: seq<Pid>
    var duringCall: bool
    var nextCall: Handler
    var restartCall: Option<WaitArgs>
    var stoppedChild: Option<Pid>
    var statAddr: Reach
    var sigpendingMask: set<Signal>
    var defaultStop: set<Signal>
    var noCldStop: bool
    var rpl: bool
    ghost var kernelPending: set<Signal>
    ghost var exited: bool

    ghost function View(): Task
      reads this
    {
      Task(ppid, gid, state, children, duringCall, nextCall, restartCall, stoppedChild, statAddr,
           sigpendingMask, defaultStop, noCldStop, rpl, kernelPending, exited)
    }

    /** add_slave (src/task.c lines 125-206); a child starts with the replaced code of its parent. */
    constructor (pid: Pid, ppid: Pid, gid: int, defaultStop: set<Signal>, noCldStop: bool, rpl: bool)
      ensures this.pid == pid
      ensures View() == Task(ppid, gid, Running, [], false, NoHandler, None, None, Unmapped, {}, defaultStop, noCldStop, rpl, {}, false)
    {
      this.pid, this.ppid, this.gid, state, children := pid, ppid, gid, Running, [];
      duringCall, nextCall, restartCall, stoppedChild, statAddr := false, NoHandler, None, None, Unmapped;
      this.rpl := rpl;
      sigpendingMask, this.defaultStop, this.noCldStop, kernelPending, exited := {}, defaultStop, noCldStop, {}, false;
    }

    /** kill(), on the kernel's side. */
    method Receive(sig: Signal)
      modifies this
      ensures View() == old(View()).(kernelPending := old(kernelPending) + {sig})
    {
      kernelPending := kernelPending + {sig};
    }

    method SetState(st: RunState)
      modifies this
      ensures View() == old(View()).(state := st)
    {
      state := st;
    }

    method Orphan()
      modifies this
      ensures View() == old(View()).(ppid := INIT)
    {
      ppid := INIT;
    }

    method SetChildren(kids: seq<Pid>)
      modifies this
      ensures View() == old(View()).(children := kids)
    {
      children := kids;
    }

    /** What a wait decides is kept in fields of the caller. */
    method SetWait(h: Handler, stopped: Option<Pid>, a: Reach, restart: Option<WaitArgs>)
      modifies this
      ensures View() == old(View()).(nextCall := h, stoppedChild := stopped, statAddr := a, restartCall := restart)
    {
      nextCall, stoppedChild, statAddr, restartCall := h, stopped, a, restart;
    }

    /** slave_rpl_mem (src/memacc.c lines 132-142): false is the end of OKFS. */
    method RplMem() returns (ok: bool)
      modifies this
      ensures ok == !old(rpl) && View() == old(View()).(rpl := true)
    {
      ok := !rpl;
      rpl := true;
    }

    /** slave_restore_mem (src/memacc.c lines 144-151). */
    method RestoreMem() returns (ok: bool)
      modifies this
      ensures ok == old(rpl) && View() == old(View()).(rpl := false)
    {
      ok := rpl;
      rpl := false;
    }

    method HoldBack(sig: Signal)
      modifies this
      ensures View() == old(View()).(sigpendingMask := old(sigpendingMask) + {sig})
    {
      sigpendingMask := sigpendingMask + {sig};
    }

    /** deliver_pending_signals (src/okfs_signal.c lines 84-93): every held signal goes to the kernel
        except the last one, in front of which the loop ends, so that the mask is empty afterwards
        exactly when that one was not held. */
    method DeliverPendingSignals()
      modifies this
      ensures View() == Delivered(old(View()))
      ensures sigpendingMask == {} <==> LAST_SIGNAL !in old(sigpendingMask)
    {
      ghost var held, pending, view := sigpendingMask, kernelPending, View();
      var i: int := 1;
      while i < NSIG
        invariant 1 <= i <= NSIG
        invariant View() == view.(kernelPending := kernelPending, sigpendingMask := sigpendingMask)
        invariant sigpendingMask == set sig | sig in held && sig >= i
        invariant kernelPending == pending + set sig | sig in held && sig < i
      {
        if i in sigpendingMask {
          kernelPending := kernelPending + {i};
          sigpendingMask := sigpendingMask - {i};
        }
        i := i + 1;
      }
      assert sigpendingMask == held * {LAST_SIGNAL};
      assert kernelPending == pending + (held - {LAST_SIGNAL});
      assert LAST_SIGNAL in held ==> LAST_SIGNAL in sigpendingMask;
    }

    /** The entering half of handle_syscall (src/okfs.c lines 101-120). */
    method EnterCall(h: Handler)
      modifies this
      ensures View() == Entered(old(View()), h)
    {
      duringCall, nextCall := true, h;
    }

    /** The end of a call (src/okfs.c lines 128-145). */
    method EndCall()
      modifies this
      ensures View() == old(View()).(duringCall := false, restartCall := None, nextCall := NoHandler)
    {
      duringCall, restartCall, nextCall := false, None, NoHandler;
    }

    /** What the kernel has done when it reports a signal or an end. */
    method Lose(sig: Signal)
      modifies this
      ensures View() == old(View()).(kernelPending := old(kernelPending) - {sig})
    {
      kernelPending := kernelPending - {sig};
    }

    method Die()
      modifies this
      ensures View() == old(View()).(exited := true)
    {
      exited := true;
    }

    /** after_sigaction and after_rt_sigaction, as far as they matter here. */
    method SetSigaction(dfl: set<Signal>, noCld: bool)
      modifies this
      ensures View() == old(View()).(defaultStop := dfl, noCldStop := noCld)
    {
      defaultStop, noCldStop := dfl, noCld;
    }
  }

  lemma {:induction false} WithoutSplice(kids: seq<Pid>, c: Pid, i: nat)
    requires i < |kids| && kids[i] == c && c !in kids[..i]
    ensures Without(kids, c) == kids[..i] + kids[i + 1..]
  {
    if i > 0 {
      assert kids[0] == kids[..i][0];
      assert kids[1..][..i - 1] == kids[..i][1..];
      WithoutSplice(kids[1..], c, i - 1);
      assert kids[..i] == [kids[0]] + kids[1..][..i - 1];
    }
  }

  /** `slave` is cleared when the task it points to is removed. */
  function Kept(slave: Option<Pid>, before: Table, after: Table): Option<Pid> {
    if slave.Some? && slave.value in before && slave.value !in after then None else slave
  }

  lemma KeptChain(slave: Option<Pid>, a: Table, b: Table, c: Table)
    requires c.Keys <= b.Keys <= a.Keys
    ensures Kept(Kept(slave, a, b), b, c) == Kept(slave, a, c)
  {
  }

  /** The leaving half, by what the handler makes of the table. */
  lemma LeaveCases(s: State, p: Pid, reply: Reply)
    requires Inv(s) && Enabled(s, Leave(p, reply))
    ensures var t := s.tasks[p];
            && (t.restartCall.Some? ==>
                  LeaveCall(s, p, reply) == s.(tasks := s.tasks[p := t.(duringCall := false, restartCall := None, nextCall := NoHandler)]))
            && (t.restartCall.None? && BadStatus(t, reply) ==> LeaveCall(s, p, reply) == s.(halted := true))
            && (t.restartCall.None? && !BadStatus(t, reply) ==>
                  && AfterCall(s.tasks, p, reply).Some? && p in AfterCall(s.tasks, p, reply).value
                  && var tab := AfterCall(s.tasks, p, reply).value;
                     LeaveCall(s, p, reply) == s.(tasks := tab[p := tab[p].(duringCall := false, restartCall := None, nextCall := NoHandler)]))
  {
    if s.tasks[p].restartCall.None? && !BadStatus(s.tasks[p], reply) {
      LeaveHandler(s, p, reply);
    }
  }

  /** Every event of a task makes it the current one. */
  lemma HandleSlave(s: State, e: Event)
    requires e.pid in s.tasks && !e.Send? && !e.Sigaction? && !e.NoProcess?
    ensures Handle(s, e).slave == Some(e.pid)
  {
  }

  /** The state the code is in, where the specification still names a task that has gone. */
  ghost predicate Current(s: State, code: State, p: Pid) {
    s.slave == Some(p) && code == s.(slave := if p in s.tasks then Some(p) else None)
  }

  /** Choosing the task first changes nothing about the step. */
  lemma SelectFirst(s: State, e: Event)
    requires Inv(s) && Enabled(s, e) && !e.Send? && !e.Sigaction? && !e.NoProcess?
    ensures var s1 := s.(slave := Some(e.pid));
            Inv(s1) && Enabled(s1, e) && Handle(s1, e) == Handle(s, e)
    ensures e.Leave? ==> Handle(s, e).slave == Some(e.pid) && LeaveCall(s.(slave := Some(e.pid)), e.pid, e.reply) == Handle(s, e)
  {
  }

  lemma ResumeForgets(s: State, p: Pid)
    requires s.slave == Some(p)
    ensures Resume(s) == Resume(s.(slave := if p in s.tasks then Some(p) else None))
  {
  }

  /** Taking a task without a parent out of the table hands its children over. */
  lemma HandOver(tab: Table, pid: Pid)
    requires Linked(tab) && pid in tab && tab[pid].ppid == INIT
    ensures var rest := tab - {pid};
            && Linked(rest) && HandedOver(rest, tab[pid].children) && |rest| < |tab| && rest.Keys <= tab.Keys
            && Tasks.RemoveSlave(tab, pid) == OrphanAll(rest, tab[pid].children)
  {
    Shrinks(tab, pid);
    var rest := tab - {pid};
    assert forall q :: q in rest ==> rest[q] == tab[q];
  }

  /** What one turn of the child loop does to the table. */
  lemma FirstOrphan(tab: Table, kids: seq<Pid>)
    requires Linked(tab) && HandedOver(tab, kids) && kids != []
    ensures kids[0] in tab
    ensures var t1 := SetParent(tab, kids[0], INIT);
            var t2 := if tab[kids[0]].state == Zombie then Tasks.RemoveSlave(t1, kids[0]) else t1;
            && Linked(t1) && t1.Keys == tab.Keys && |t1| == |tab|
            && Linked(t2) && HandedOver(t2, kids[1..]) && OrphanAll(t2, kids[1..]) == OrphanAll(tab, kids)
            && t2.Keys <= tab.Keys && |t2| <= |tab|
  {
    var c := kids[0];
    assert c in tab;
    var t1 := SetParent(tab, c, INIT);
    SameKeys(tab, c);
    assert Linked(t1);
    var t2 := if tab[c].state == Zombie then Tasks.RemoveSlave(t1, c) else t1;
    if tab[c].state == Zombie {
      RemoveExact(t1, c);
    }
    HandOn(tab, kids, t1, t2);
  }

  class Okfs {
    var tasks: map<Pid, Slave>
    var slave: Slave?
    var halted: bool
    ghost var model: State
    ghost var repr: set<Slave> // every task object ever made

    /** Each task object holds what the model holds under its number, and `slave` points to a task
        in the table, or nowhere. */
    ghost predicate Valid()
      reads this, repr
    {
      && tasks.Keys == model.tasks.Keys
      && (forall p :: p in tasks ==> tasks[p] in repr && tasks[p].pid == p && tasks[p].View() == model.tasks[p])
      && halted == model.halted
      && (if slave == null then model.slave == None else model.slave == Some(slave.pid) && slave.pid in tasks && tasks[slave.pid] == slave)
    }

    /** The same for all tasks but x. */
    ghost predicate ValidBut(x: Pid)
      reads this, repr
    {
      && tasks.Keys == model.tasks.Keys
      && (forall p :: p in tasks ==> tasks[p] in repr && tasks[p].pid == p && (p != x ==> tasks[p].View() == model.tasks[p]))
      && halted == model.halted
      && (if slave == null then model.slave == None else model.slave == Some(slave.pid) && slave.pid in tasks && tasks[slave.pid] == slave)
    }

    /** The model follows a change of one object. */
    ghost method Follow(p: Pid)
      requires p in tasks && ValidBut(p)
      modifies this`model
      ensures Valid() && model == old(model).(tasks := old(model.tasks)[p := tasks[p].View()])
    {
      model := model.(tasks := model.tasks[p := tasks[p].View()]);
    }

    /** run_first_slave (src/okfs.c lines 240-268). */
    constructor (pid: Pid, gid: int, dfl: set<Signal>)
      requires pid > INIT
      ensures Valid() && Initial(model) && fresh(repr)
    {
      var first := new Slave(pid, INIT, gid, dfl, false, false);
      tasks := map[pid := first];
      repr := {first};
      slave := first;
      halted := false;
      model := State(map[pid := FirstTask(gid, dfl)], Some(pid), false);
    }

    /** kill(): the signal becomes pending in the kernel. */
    method Kill(p: Pid, sig: Signal)
      requires Valid()
      modifies this`model, repr
      ensures Valid() && model == old(model).(tasks := Notify(old(model.tasks), p, sig))
    {
      if p in tasks {
        assert tasks[p].View() == model.tasks[p];
        tasks[p].Receive(sig);
        Follow(p);
      }
    }

    method SetState(p: Pid, st: RunState)
      requires Valid() && p in tasks
      modifies this`model, repr
      ensures Valid() && model == old(model).(tasks := old(model.tasks)[p := old(model.tasks)[p].(state := st)])
    {
      assert tasks[p].View() == model.tasks[p];
      tasks[p].SetState(st);
      Follow(p);
    }

    method Orphan(c: Pid)
      requires Valid() && c in tasks
      modifies this`model, repr
      ensures Valid() && model == old(model).(tasks := SetParent(old(model.tasks), c, INIT))
    {
      assert tasks[c].View() == model.tasks[c];
      tasks[c].Orphan();
      Follow(c);
    }

    /** Take a task out of the table (src/task.c lines 70-84). */
    method Unlink(pid: Pid)
      requires Valid() && pid in tasks
      modifies this`tasks, this`slave, this`model
      ensures Valid()
      ensures model.tasks == old(model.tasks) - {pid} && model.halted == old(model.halted)
      ensures model.slave == Kept(old(model.slave), old(model.tasks), model.tasks)
    {
      if slave == tasks[pid] {
        slave := null;
      }
      model := model.(tasks := model.tasks - {pid}, slave := if model.slave == Some(pid) then None else model.slave);
      tasks := tasks - {pid};
    }

    /** remove_slave (src/task.c lines 65-100). No freed task is looked at on the way: each
        child is still in the table when its turn comes. */
    method RemoveSlave(pid: Pid)
      requires Valid() && Linked(model.tasks) && pid in tasks && tasks[pid].ppid == INIT
      modifies this`tasks, this`slave, this`halted, this`model, repr
      ensures Valid()
      ensures model.tasks == Tasks.RemoveSlave(old(model.tasks), pid)
      ensures model.slave == Kept(old(model.slave), old(model.tasks), model.tasks)
      ensures halted == (old(halted) || |model.tasks| == 0)
      decreases |model.tasks|, 0
    {
      var kids := tasks[pid].children;
      ghost var before := model.tasks;
      HandOver(before, pid);
      Unlink(pid);
      ghost var rest := model.tasks;
      OrphanChildren(kids);
      KeptChain(old(model.slave), before, rest, model.tasks);
      QuitIfEmpty();
    }

    /** No more process to control (src/task.c lines 97-99). */
    method QuitIfEmpty()
      requires Valid()
      modifies this`halted, this`model
      ensures Valid() && model == old(model).(halted := halted) && halted == (old(halted) || |model.tasks| == 0)
    {
      assert |model.tasks.Keys| == |tasks.Keys|;
      if tasks == map[] {
        halted := true;
      }
      model := model.(halted := halted);
    }

    /** The child loop (src/task.c lines 86-93). */
    method OrphanChildren(kids: seq<Pid>)
      requires Valid() && Linked(model.tasks) && HandedOver(model.tasks, kids)
      modifies this`tasks, this`slave, this`halted, this`model, repr
      ensures Valid()
      ensures model.tasks == OrphanAll(old(model.tasks), kids)
      ensures model.slave == Kept(old(model.slave), old(model.tasks), model.tasks)
      ensures halted ==> old(halted) || |model.tasks| == 0
      ensures old(halted) ==> halted
      decreases |model.tasks|, 2
    {
      ghost var before := model.tasks;
      var i := 0;
      ghost var todo := kids;
      while i < |kids|
        invariant 0 <= i <= |kids| && todo == kids[i..]
        invariant Valid()
        invariant Linked(model.tasks) && HandedOver(model.tasks, todo)
        invariant OrphanAll(model.tasks, todo) == OrphanAll(before, kids)
        invariant model.tasks.Keys <= before.Keys && |model.tasks| <= |before|
        invariant model.slave == Kept(old(model.slave), before, model.tasks)
        invariant halted ==> old(halted) || |model.tasks| == 0
        invariant old(halted) ==> halted
      {
        ghost var tab := model.tasks;
        OrphanOne(kids[i], todo);
        KeptChain(old(model.slave), before, tab, model.tasks);
        i := i + 1;
        assert todo[1..] == kids[i..];
        todo := todo[1..];
      }
    }

    /** The body of the child loop (src/task.c lines 87-89). */
    method OrphanOne(c: Pid, ghost kids: seq<Pid>)
      requires Valid() && Linked(model.tasks) && HandedOver(model.tasks, kids) && kids != [] && c == kids[0]
      modifies this`tasks, this`slave, this`halted, this`model, repr
      ensures Valid()
      ensures Linked(model.tasks) && HandedOver(model.tasks, kids[1..])
      ensures OrphanAll(model.tasks, kids[1..]) == OrphanAll(old(model.tasks), kids)
      ensures model.tasks.Keys <= old(model.tasks).Keys && |model.tasks| <= old(|model.tasks|)
      ensures model.slave == Kept(old(model.slave), old(model.tasks), model.tasks)
      ensures halted ==> old(halted) || |model.tasks| == 0
      ensures old(halted) ==> halted
      decreases |model.tasks|, 1
    {
      ghost var tab := model.tasks;
      FirstOrphan(tab, kids);
      Orphan(c);
      if tasks[c].state == Zombie {
        RemoveSlave(c);
      }
    }

    /** remove_child (src/task.c lines 103-122). A child that is not in the list is looked for
        behind the last node: the null pointer there is followed, and the error exit is not reached. */
    method RemoveChild(p: Pid, c: Pid) returns (crash: bool)
      requires Valid() && p in tasks && forall q :: q in tasks[p].children ==> q in tasks
      modifies this`model, repr
      ensures Valid() && (crash <==> c !in old(model.tasks[p].children))
      ensures crash ==> model == old(model)
      ensures !crash ==> c in old(model.tasks) && model == old(model).(tasks := WaitModel.RemoveChild(old(model.tasks), p, c))
    {
      var kids := tasks[p].children;
      var i := 0;
      while i < |kids| && kids[i] != c
        invariant 0 <= i <= |kids| && c !in kids[..i]
      {
        assert kids[..i + 1] == kids[..i] + [kids[i]];
        i := i + 1;
      }
      if i == |kids| {
        assert kids[..i] == kids;
        return true;
      }
      WithoutSplice(kids, c, i);
      assert c in kids;
      Orphan(c);
      SetChildren(p, kids[..i] + kids[i + 1..]);
      return false;
    }

    method SetChildren(p: Pid, kids: seq<Pid>)
      requires Valid() && p in tasks
      modifies this`model, repr
      ensures Valid() && model == old(model).(tasks := old(model.tasks)[p := old(model.tasks)[p].(children := kids)])
    {
      assert tasks[p].View() == model.tasks[p];
      tasks[p].SetChildren(kids);
      Follow(p);
    }

    method SetWait(p: Pid, h: Handler, stopped: Option<Pid>, a: Reach, restart: Option<WaitArgs>)
      requires Valid() && p in tasks
      modifies this`model, repr
      ensures Valid()
      ensures model == old(model).(tasks := old(model.tasks)[p := old(model.tasks)[p].(nextCall := h, stoppedChild := stopped, statAddr := a, restartCall := restart)])
    {
      assert tasks[p].View() == model.tasks[p];
      tasks[p].SetWait(h, stopped, a, restart);
      Follow(p);
    }

    method RplMem(p: Pid) returns (ok: bool)
      requires Valid() && p in tasks
      modifies this`model, repr
      ensures Valid() && ok == !old(model.tasks)[p].rpl
      ensures model == old(model).(tasks := old(model.tasks)[p := old(model.tasks)[p].(rpl := true)])
    {
      assert tasks[p].View() == model.tasks[p];
      ok := tasks[p].RplMem();
      Follow(p);
    }

    method RestoreMem(p: Pid) returns (ok: bool)
      requires Valid() && p in tasks
      modifies this`model, repr
      ensures Valid() && ok == old(model.tasks)[p].rpl
      ensures model == old(model).(tasks := old(model.tasks)[p := old(model.tasks)[p].(rpl := false)])
    {
      assert tasks[p].View() == model.tasks[p];
      ok := tasks[p].RestoreMem();
      Follow(p);
    }

    /** before_wait and suspend (src/control.c lines 110-220): one pass over the child list. */
    method BeforeWait(p: Pid, args: WaitArgs)
      requires Valid() && p in tasks && forall c :: c in tasks[p].children ==> c in tasks
      modifies this`model, repr
      ensures Valid() && model == old(model).(tasks := old(model.tasks)[p := WaitModel.BeforeWait(old(model.tasks), p, args)])
    {
      ghost var tab := model.tasks;
      assert tab == tab[p := tab[p]];
      if args.badOptions {
        return;
      }
      var t := tasks[p];
      var ready, flag := Scan(p, args);
      if ready.Some? {
        if tasks[ready.value].state == Stopped {
          SetWait(p, AfterIsStopped, ready, args.status, t.restartCall);
        } else {
          SetWait(p, AfterIsZombie, t.stoppedChild, t.statAddr, t.restartCall);
        }
      } else if flag {
        if args.noHang {
          SetWait(p, AfterWnohang, t.stoppedChild, t.statAddr, t.restartCall);
        } else {
          SetWait(p, t.nextCall, t.stoppedChild, t.statAddr, Some(args));
        }
      }
    }

    /** The loop over the children (src/control.c lines 141-203). */
    method Scan(p: Pid, args: WaitArgs) returns (ready: Option<Pid>, flag: bool)
      requires Valid() && p in tasks && forall c :: c in tasks[p].children ==> c in tasks
      ensures ready == FirstReady(model.tasks, p, model.tasks[p].children, args)
      ensures ready.Some? ==> ready.value in tasks
      ensures ready.None? ==> flag == AnyMatch(model.tasks, p, model.tasks[p].children, args)
    {
      var me := tasks[p];
      var kids := me.children;
      flag := false;
      var i := 0;
      while i < |kids|
        invariant 0 <= i <= |kids|
        invariant FirstReady(model.tasks, p, kids, args) == FirstReady(model.tasks, p, kids[i..], args)
        invariant flag == AnyMatch(model.tasks, p, kids[..i], args)
      {
        var c := kids[i];
        var child := tasks[c];
        assert kids[i..][0] == c && kids[i..][1..] == kids[i + 1..];
        assert kids[..i + 1] == kids[..i] + [c];
        assert model.tasks[p] == me.View() && model.tasks[c] == child.View();
        var selected := if args.pid > 0 then c == args.pid
                        else if args.pid == 0 then child.gid == me.gid
                        else args.pid == -1 || child.gid == -args.pid;
        if selected {
          flag := true;
          if child.state == Zombie || (child.state == Stopped && args.untraced) {
            return Some(c), true;
          }
        }
        i := i + 1;
      }
      assert kids[..i] == kids;
      return None, flag;
    }

    /** change_slave_state (src/task.c lines 39-62). */
    method ChangeSlaveState(p: Pid, st: RunState)
      requires Valid() && p in tasks && Linked(model.tasks)
      modifies this`tasks, this`slave, this`halted, this`model, repr
      ensures Valid() && model.tasks == ChangeState(old(model.tasks), p, st)
      ensures model.slave == Kept(old(model.slave), old(model.tasks), model.tasks)
      ensures halted == (old(halted) || |model.tasks| == 0)
    {
      ghost var tab := model.tasks;
      SetState(p, st);
      assert p in model.tasks;
      if tasks[p].ppid != INIT {
        if st == Zombie || st == Stopped {
          Kill(tasks[p].ppid, SIGUNPAUSE);
        }
        assert p in model.tasks;
      } else if st == Zombie {
        StateLinked(tab, p, st);
        RemoveSlave(p);
      }
    }

    /** process_signal with stop_slave and wakeup_slave (src/okfs_signal.c lines 49-131). */
    method ProcessSignal(p: Pid, sig: Signal) returns (passed: Option<Signal>)
      requires Valid() && p in tasks && Linked(model.tasks) && !halted
      modifies this`tasks, this`slave, this`halted, this`model, repr
      ensures Valid() && (model, passed) == WaitModel.ProcessSignal(old(model), p, sig)
    {
      if sig == SIGUNPAUSE {
        return None;
      }
      if StoppedTask(tasks[p].state) {
        if sig == SIGCONT {
          WakeupSlave(p);
          return if halted then None else Some(SIGCONT);
        }
        if !StoppingSig(sig) {
          assert tasks[p].View() == model.tasks[p];
          tasks[p].HoldBack(sig);
          Follow(p);
        }
        return None;
      }
      if StoppingSig(sig) && sig in tasks[p].defaultStop {
        StopSlave(p);
      }
      return if halted then None else Some(sig);
    }

    /** wakeup_slave (src/okfs_signal.c lines 65-80): the memory is restored and the task runs, or OKFS ends
        because no memory is replaced. */
    method WakeupSlave(p: Pid)
      requires Valid() && p in tasks && Linked(model.tasks) && !halted
      modifies this`tasks, this`slave, this`halted, this`model, repr
      ensures Valid() && model == WaitModel.WakeupSlave(old(model), p)
    {
      ghost var s := model;
      assert tasks[p].View() == model.tasks[p];
      if !tasks[p].rpl {
        Quit();
        return;
      }
      var ok := RestoreMem(p);
      PatchLinked(s.tasks, p, false);
      ChangeSlaveState(p, Running);
      assert p in model.tasks;
    }

    /** stop_slave (src/okfs_signal.c lines 49-63). */
    method StopSlave(p: Pid)
      requires Valid() && p in tasks && Linked(model.tasks) && !halted
      modifies this`tasks, this`slave, this`halted, this`model, repr
      ensures Valid() && model == WaitModel.StopSlave(old(model), p)
    {
      ghost var s := model;
      var ppid := tasks[p].ppid;
      assert tasks[p].View() == model.tasks[p];
      if tasks[p].rpl {
        Quit();
        return;
      }
      var ok := RplMem(p);
      PatchLinked(s.tasks, p, true);
      ChangeSlaveState(p, Stopped);
      assert p in model.tasks;
      if ppid !in tasks {
        Quit();
      } else if !tasks[ppid].noCldStop {
        Kill(ppid, SIGCHLD);
      }
    }

    /** after_wait_iszombie (src/control.c lines 70-78). */
    method AfterWaitIsZombie(p: Pid, c: Pid)
      requires Valid() && InvBut(model.tasks, p) && p in tasks && !model.tasks[p].exited && c in tasks[p].children
      requires model.slave == Some(p)
      modifies this`tasks, this`slave, this`halted, this`model, repr
      ensures Valid()
      ensures c in old(model.tasks) && model == old(model).(tasks := Tasks.RemoveSlave(WaitModel.RemoveChild(old(model.tasks), p, c), c))
      ensures p in model.tasks
    {
      ghost var tab := model.tasks;
      RemoveChildKeeps(tab, p, c);
      ReapKeeps(tab, p, c);
      var crash := RemoveChild(p, c);
      RemoveSlave(c);
      assert p in model.tasks.Keys;
    }

    /** after_fork with add_slave and add_child (src/task.c lines 125-215, src/control.c lines 249-278): the
        replaced code is copied to the child and restored in both. */
    method AddChild(p: Pid, c: Pid)
      requires Valid() && p in tasks && c !in tasks && model.tasks[p].rpl
      modifies this, repr
      ensures Valid() && fresh(repr - old(repr)) && halted == old(halted)
      ensures model == old(model).(tasks := WaitModel.AddChild(old(model.tasks), p, c))
    {
      ghost var tab := model.tasks;
      CopyTask(p, c);
      RestoredBoth(tab, p, c);
      var parentOk := RestoreMem(p);
      var childOk := RestoreMem(c);
    }

    method CopyTask(p: Pid, c: Pid)
      requires Valid() && p in tasks && c !in tasks
      modifies this, repr
      ensures Valid() && fresh(repr - old(repr)) && halted == old(halted)
      ensures model == old(model).(tasks := Copied(old(model.tasks), p, c))
    {
      assert tasks[p].View() == model.tasks[p];
      var child := new Slave(c, p, tasks[p].gid, tasks[p].defaultStop, tasks[p].noCldStop, tasks[p].rpl);
      Insert(child);
      SetChildren(p, [c] + tasks[p].children);
    }

    method Insert(child: Slave)
      requires Valid() && child.pid !in tasks && child !in repr
      modifies this`tasks, this`repr, this`model
      ensures Valid() && repr == old(repr) + {child} && tasks == old(tasks)[child.pid := child]
      ensures model == old(model).(tasks := old(model.tasks)[child.pid := child.View()])
    {
      tasks := tasks[child.pid := child];
      repr := repr + {child};
      model := model.(tasks := model.tasks[child.pid := child.View()]);
    }

    method EndCall(p: Pid)
      requires Valid() && p in tasks
      modifies this`model, repr
      ensures Valid()
      ensures model == old(model).(tasks := old(model.tasks)[p := old(model.tasks)[p].(duringCall := false, restartCall := None, nextCall := NoHandler)])
    {
      assert tasks[p].View() == model.tasks[p];
      tasks[p].EndCall();
      Follow(p);
    }

    /** The after-handlers (src/control.c lines 49-102, 249-258); false is the end of OKFS. */
    method RunHandler(p: Pid, reply: Reply) returns (ok: bool)
      requires Valid() && Inv(model) && Enabled(model, Leave(p, reply)) && slave != null && slave.pid == p
      requires model.tasks[p].restartCall.None?
      modifies this, repr
      ensures Valid() && fresh(repr - old(repr)) && ok == !BadStatus(old(model.tasks[p]), reply)
      ensures ok ==> AfterCall(old(model.tasks), p, reply) == Some(model.tasks) && p in model.tasks
      ensures model == old(model).(tasks := model.tasks)
      ensures !ok ==> model == old(model)
    {
      ghost var s := model;
      assert InvBut(model.tasks, p);
      var t := tasks[p];
      ok := true;
      if t.nextCall == AfterIsZombie && !reply.Reaped? {
        return false;
      }
      if t.nextCall == AfterIsStopped && Refused(t.statAddr, reply) {
        return false;
      }
      LeaveHandler(s, p, reply);
      match t.nextCall {
        case NoHandler =>
        case AfterFork =>
          if reply.Forked? {
            AddChild(p, reply.child);
          }
        case AfterWnohang =>
          if reply.Reaped? {
            var crash := RemoveChild(p, reply.child);
          }
        case AfterIsZombie =>
          AfterWaitIsZombie(p, reply.child);
        case AfterIsStopped =>
          if reply.Reaped? {
            AfterWaitIsZombie(p, reply.child);
          } else if reply.Nothing? {
            SetState(t.stoppedChild.value, StoppedAndNotified);
          }
      }
    }

    /** The leaving half of handle_syscall (src/okfs.c lines 122-145). */
    method LeaveSyscall(p: Pid, reply: Reply)
      requires Valid() && Inv(model) && Enabled(model, Leave(p, reply)) && slave != null && slave.pid == p
      modifies this, repr
      ensures Valid() && fresh(repr - old(repr))
      ensures model == LeaveCall(old(model), p, reply) && p in model.tasks
    {
      ghost var s := model;
      LeaveCases(s, p, reply);
      if tasks[p].restartCall.Some? {
        EndCall(p);
      } else {
        var ok := RunHandler(p, reply);
        if ok {
          EndCall(p);
        } else {
          Quit();
        }
      }
    }

    /** err_quit, err_sys or a null pointer that is followed. */
    method Quit()
      requires Valid()
      modifies this`halted, this`model
      ensures Valid() && model == old(model).(halted := true)
    {
      halted := true;
      model := model.(halted := true);
    }

    method EnterSyscall(p: Pid, h: Handler)
      requires Valid() && p in tasks
      modifies this`model, repr
      ensures Valid() && model == old(model).(tasks := old(model.tasks)[p := Entered(old(model.tasks)[p], h)])
    {
      assert tasks[p].View() == model.tasks[p];
      tasks[p].EnterCall(h);
      Follow(p);
    }

    /** find_slave: the task an event is about (src/okfs.c line 221). */
    method Select(p: Pid)
      requires Valid() && p in tasks
      modifies this`slave, this`model
      ensures Valid() && slave == tasks[p] && model == old(model).(slave := Some(p))
    {
      slave := tasks[p];
      model := model.(slave := Some(p));
    }

    /** An entry stop (src/okfs.c lines 101-120). */
    method EntryEvent(e: Event)
      requires Valid() && Inv(model) && Enabled(model, e) && (e.EnterWait? || e.EnterFork? || e.EnterOther?) && model.slave == Some(e.pid)
      modifies this`halted, this`model, repr
      ensures Valid() && model == Handle(old(model), e)
    {
      ghost var s := model;
      match e {
        case EnterWait(p, args) =>
          EnterSyscall(p, NoHandler);
          BeforeWait(p, args);
        case EnterFork(p) =>
          EnterSyscall(p, AfterFork);
          var ok := RplMem(p);
          if !ok {
            Quit();
          }
        case EnterOther(p) =>
          EnterSyscall(p, NoHandler);
      }
      assert model == State(model.tasks, Some(e.pid), model.halted);
    }

    /** A signal or the end of the task (src/okfs.c lines 223-228). */
    method CheckStatus(e: Event) returns (passed: Option<Signal>)
      requires Valid() && Inv(model) && Enabled(model, e) && (e.SignalStop? || e.Exit?) && model.slave == Some(e.pid)
      modifies this`tasks, this`slave, this`halted, this`model, repr
      ensures Valid() && Current(Handle(old(model), e), model, e.pid)
      ensures e.SignalStop? ==> passed == WaitModel.ProcessSignal(Take(old(model), e.pid, e.sig), e.pid, e.sig).1
      ensures e.Exit? ==> passed == None
    {
      passed := None;
      if e.SignalStop? {
        passed := SignalEvent(e.pid, e.sig);
      } else {
        ExitEvent(e.pid);
      }
    }

    /** The dispatch of guard_slaves (src/okfs.c lines 221-232). */
    method HandleEvent(e: Event) returns (passed: Option<Signal>)
      requires Valid() && Inv(model) && Enabled(model, e) && !e.Send? && !e.Sigaction? && !e.NoProcess?
      modifies this, repr
      ensures Valid() && fresh(repr - old(repr)) && Current(Handle(old(model), e), model, e.pid)
      ensures passed == Passed(old(model), e)
    {
      passed := None;
      HandleSlave(model, e);
      SelectFirst(model, e);
      Select(e.pid);
      if e.Leave? {
        LeaveSyscall(e.pid, e.reply);
      } else if e.SignalStop? || e.Exit? {
        passed := CheckStatus(e);
      } else {
        EntryEvent(e);
      }
    }

    /** A signal stop (src/okfs.c lines 169-180). */
    method SignalEvent(p: Pid, sig: Signal) returns (passed: Option<Signal>)
      requires Valid() && p in tasks && Linked(model.tasks) && !halted && Forest(model.tasks)
      modifies this`tasks, this`slave, this`halted, this`model, repr
      ensures Valid()
      ensures p in old(model.tasks) && (model, passed) == WaitModel.ProcessSignal(Take(old(model), p, sig), p, sig)
    {
      ghost var s := model;
      assert tasks[p].View() == model.tasks[p];
      tasks[p].Lose(sig);
      Follow(p);
      assert model == Take(s, p, sig);
      SameForest(s.tasks, model.tasks);
      passed := ProcessSignal(p, sig);
    }

    /** The end of a task (src/okfs.c lines 182-190). */
    method ExitEvent(p: Pid)
      requires Valid() && p in tasks && !halted && Forest(model.tasks) && model.slave == Some(p)
      modifies this`tasks, this`slave, this`halted, this`model, repr
      ensures Valid()
      ensures var s := ExitSlave(old(model), p);
              model == s.(slave := if p in s.tasks then Some(p) else None)
    {
      ghost var s := model;
      assert tasks[p].View() == model.tasks[p];
      tasks[p].Die();
      Follow(p);
      SameForest(s.tasks, model.tasks);
      ChangeSlaveState(p, Zombie);
    }

    /** Let the task that was just handled go on (src/okfs.c lines 210-215). */
    method TopOfLoop()
      requires Valid()
      modifies this`model, repr
      ensures Valid() && model == Resume(old(model))
    {
      if slave != null && slave.state != Zombie {
        assert slave.View() == model.tasks[slave.pid];
        slave.DeliverPendingSignals();
        Follow(slave.pid);
      }
    }

    /** What happens outside OKFS, and the error exit of its own wait (src/okfs.c lines 217-220). */
    method Outside(e: Event)
      requires Valid() && Enabled(model, e) && (e.Send? || e.Sigaction? || e.NoProcess?)
      modifies this`model, this`halted, repr
      ensures Valid() && model == Next(old(model), e)
    {
      match e {
        case Send(p, sig) => Kill(p, sig);
        case Sigaction(p, dfl, noCld) =>
          assert tasks[p].View() == model.tasks[p];
          tasks[p].SetSigaction(dfl, noCld);
          Follow(p);
        case NoProcess(_) =>
          Quit();
      }
    }

    /** One turn of guard_slaves (src/okfs.c lines 204-234) is one step, and keeps the invariant. */
    method Turn(e: Event) returns (passed: Option<Signal>)
      requires Valid() && Inv(model) && Enabled(model, e)
      modifies this, repr
      ensures Valid() && fresh(repr - old(repr))
      ensures model == Next(old(model), e) && Inv(model)
      ensures passed == Passed(old(model), e)
    {
      ghost var s := model;
      StepKeeps(s, e);
      passed := None;
      if e.Send? || e.Sigaction? || e.NoProcess? {
        Outside(e);
      } else {
        passed := HandleEvent(e);
        ResumeForgets(Handle(s, e), e.pid);
        TopOfLoop();
      }
    }

    /** The loop of guard_slaves: any run of turns leads to the state that the run defines, and keeps the
        invariant, so that what the theorems say about runs holds of the task objects. */
    method GuardSlaves(run: seq<Event>)
      requires Valid() && Inv(model) && Legal(model, run)
      modifies this, repr
      ensures Valid() && fresh(repr - old(repr)) && model == After(old(model), run) && Inv(model)
    {
      ghost var start := model;
      var i := 0;
      while i < |run|
        invariant 0 <= i <= |run| && Valid() && Inv(model) && fresh(repr - old(repr))
        invariant Legal(model, run[i..]) && After(model, run[i..]) == After(start, run)
      {
        assert run[i..][0] == run[i] && run[i..][1..] == run[i + 1..];
        var passed := Turn(run[i]);
        i := i + 1;
      }
    }
  }

  lemma PatchLinked(tab: Table, p: Pid, b: bool)
    requires Linked(tab) && p in tab
    ensures Linked(tab[p := tab[p].(rpl := b)])
  {
  }

  /** A new child, made from a parent whose code is replaced. */
  function Copied(tab: Table, p: Pid, c: Pid): Table
    requires p in tab
  {
    var t := tab[p];
    var child := Task(p, t.gid, Running, [], false, NoHandler, None, None, Unmapped, {}, t.defaultStop, t.noCldStop, t.rpl, {}, false);
    tab[c := child][p := t.(children := [c] + t.children)]
  }

  lemma RestoredBoth(tab: Table, p: Pid, c: Pid)
    requires p in tab && c != p
    ensures var t1 := Copied(tab, p, c);
            var t2 := t1[p := t1[p].(rpl := false)];
            t2[c := t2[c].(rpl := false)] == WaitModel.AddChild(tab, p, c)
  {
  }

  lemma StateLinked(tab: Table, p: Pid, st: RunState)
    requires Linked(tab) && p in tab
    ensures Linked(tab[p := tab[p].(state := st)])
  {
  }
}
