/** The event loop of src/okfs.c as a step relation: every turn of `guard_slaves` is one
    event, the kernel's choices are the arguments of the event, and `Enabled` states the
    rules the kernel obeys. */
module WaitModel {
  import opened Common
  import opened Tasks

  datatype State = State(tasks: Table, slave: Option<Pid>, halted: bool)

  /** What the kernel answers when a call returns. */
  datatype Reply = Nothing | Reaped(child: Pid) | Forked(child: Pid) | Failed

  datatype Event =
    | EnterWait(pid: Pid, args: WaitArgs)
    | EnterFork(pid: Pid)
    | EnterOther(pid: Pid)
    | Leave(pid: Pid, reply: Reply)
    | SignalStop(pid: Pid, sig: Signal)
    | Exit(pid: Pid)
    | Send(pid: Pid, sig: Signal)
    | Sigaction(pid: Pid, defaultStop: set<Signal>, noCldStop: bool)
    | NoProcess(pid: Pid) // OKFS itself has no process left to wait for; pid is any entry of the table

  // ----- wait: which children count -----

  /** The selection of src/control.c lines 144-153. */
  predicate Matches(me: Task, pid: Pid, child: Task, args: WaitArgs) {
    if args.pid > 0 then pid == args.pid
    else if args.pid == 0 then child.gid == me.gid
    else args.pid == -1 || child.gid == -args.pid
  }

  predicate Ready(child: Task, args: WaitArgs) {
    child.state == Zombie || (child.state == Stopped && args.untraced)
  }

  /** A child that the wait would report. */
  predicate Reportable(tab: Table, p: Pid, c: Pid, args: WaitArgs)
    requires p in tab
  {
    c in tab && Matches(tab[p], c, tab[c], args) && Ready(tab[c], args)
  }

  /** The loop of before_wait: the first child in list order that is ready. */
  function FirstReady(tab: Table, p: Pid, kids: seq<Pid>, args: WaitArgs): Option<Pid>
    requires p in tab
  {
    if kids == [] then None
    else if Reportable(tab, p, kids[0], args) then Some(kids[0])
    else FirstReady(tab, p, kids[1..], args)
  }

  predicate AnyMatch(tab: Table, p: Pid, kids: seq<Pid>, args: WaitArgs)
    requires p in tab
  {
    exists c :: c in kids && c in tab && Matches(tab[p], c, tab[c], args)
  }

  /** before_wait, on the calling task (src/control.c lines 124-220). */
  function BeforeWait(tab: Table, p: Pid, args: WaitArgs): Task
    requires p in tab
  {
    var t := tab[p];
    if args.badOptions then t
    else
      match FirstReady(tab, p, t.children, args)
      case Some(c) =>
        if c in tab && tab[c].state == Stopped then t.(nextCall := AfterIsStopped, stoppedChild := Some(c), statAddr := args.status)
        else t.(nextCall := AfterIsZombie)
      case None =>
        if !AnyMatch(tab, p, t.children, args) then t
        else if args.noHang then t.(nextCall := AfterWnohang)
        else t.(restartCall := Some(args))
  }

  // ----- changes to the table -----

  /** kill(): the signal becomes pending in the kernel. */
  function Notify(tab: Table, p: Pid, sig: Signal): Table {
    if p in tab then tab[p := tab[p].(kernelPending := tab[p].kernelPending + {sig})] else tab
  }

  /** change_slave_state (src/task.c lines 39-62), without the descriptors. */
  function ChangeState(tab: Table, p: Pid, st: RunState): Table
    requires p in tab
  {
    var tab' := tab[p := tab[p].(state := st)];
    if tab[p].ppid != INIT then
      if st == Zombie || st == Stopped then Notify(tab', tab[p].ppid, SIGUNPAUSE) else tab'
    else if st == Zombie then RemoveSlave(tab', p)
    else tab'
  }

  function Without(kids: seq<Pid>, c: Pid): seq<Pid> {
    if kids == [] then [] else if kids[0] == c then kids[1..] else [kids[0]] + Without(kids[1..], c)
  }

  /** remove_child (src/task.c lines 103-122). */
  function RemoveChild(tab: Table, p: Pid, c: Pid): Table
    requires p in tab && c in tab
  {
    var tab' := SetParent(tab, c, INIT);
    tab'[p := tab'[p].(children := Without(tab'[p].children, c))]
  }

  /** add_slave and add_child for a fork (src/task.c lines 125-215); the code that was replaced in front
      of the fork is restored in both (src/control.c lines 257-278). */
  function AddChild(tab: Table, p: Pid, c: Pid): Table
    requires p in tab
  {
    var t := tab[p];
    var child := Task(p, t.gid, Running, [], false, NoHandler, None, None, Unmapped, {}, t.defaultStop, t.noCldStop, false, {}, false);
    tab[c := child][p := t.(children := [c] + t.children, rpl := false)]
  }

  // ----- the handlers -----

  /** A wait for a child that is there fails, as it does for a bad status address: remove_child looks
      for a child with a negative number and follows the null pointer behind the last one. */
  predicate FailedReap(t: Task, reply: Reply) {
    t.restartCall.None? && t.nextCall == AfterIsZombie && reply.Failed?
  }

  /** after_wait_isstopped reads the status before it believes the kernel's answer, and writes it when
      there is none, without looking at the address; ptrace refuses, and OKFS ends with its error. */
  predicate BadStatusAddress(t: Task, reply: Reply) {
    t.restartCall.None? && t.nextCall == AfterIsStopped && Refused(t.statAddr, reply)
  }

  predicate Refused(a: Reach, reply: Reply) {
    if reply.Nothing? then a != Writable else a == Unmapped
  }

  predicate BadStatus(t: Task, reply: Reply) {
    FailedReap(t, reply) || BadStatusAddress(t, reply)
  }

  /** What the after-handler of a call does to the table; None is the end of OKFS. */
  function AfterCall(tab: Table, p: Pid, reply: Reply): Option<Table>
    requires p in tab
  {
    match tab[p].nextCall
    case NoHandler => Some(tab)
    case AfterFork => if !reply.Forked? then Some(tab) else if tab[p].rpl then Some(AddChild(tab, p, reply.child)) else None
    case AfterWnohang =>
      if reply.Reaped? then (if reply.child in tab then Some(RemoveChild(tab, p, reply.child)) else None) else Some(tab)
    case AfterIsZombie => AfterWaitIsZombie(tab, p, reply)
    case AfterIsStopped =>
      if Refused(tab[p].statAddr, reply) then None
      else if reply.Failed? then Some(tab)
      else if reply.Reaped? then AfterWaitIsZombie(tab, p, reply)
      else if tab[p].stoppedChild.Some? && tab[p].stoppedChild.value in tab then
        var c := tab[p].stoppedChild.value;
        Some(tab[c := tab[c].(state := StoppedAndNotified)])
      else None
  }

  /** after_wait_iszombie (src/control.c lines 70-78). */
  function AfterWaitIsZombie(tab: Table, p: Pid, reply: Reply): Option<Table>
    requires p in tab
  {
    if reply.Reaped? && reply.child in tab then Some(RemoveSlave(RemoveChild(tab, p, reply.child), reply.child)) else None
  }

  function Entered(t: Task, h: Handler): Task {
    t.(duringCall := true, nextCall := h)
  }

  /** The leaving half of handle_syscall (src/okfs.c lines 122-145). */
  function LeaveCall(s: State, p: Pid, reply: Reply): State
    requires p in s.tasks
  {
    var t := s.tasks[p];
    if t.restartCall.Some? then
      s.(tasks := s.tasks[p := t.(duringCall := false, restartCall := None, nextCall := NoHandler)])
    else
      match AfterCall(s.tasks, p, reply)
      case None => s.(halted := true)
      case Some(tab) =>
        if p !in tab then s.(tasks := tab) else
        s.(tasks := tab[p := tab[p].(duringCall := false, nextCall := NoHandler)])
  }

  /** process_signal (src/okfs_signal.c lines 95-131): the new state, and the signal that the
      next PTRACE_SYSCALL passes on to the task. */
  function ProcessSignal(s: State, p: Pid, sig: Signal): (State, Option<Signal>)
    requires p in s.tasks
  {
    var t := s.tasks[p];
    if sig == SIGUNPAUSE then (s, None)
    else if StoppedTask(t.state) then
      if sig == SIGCONT then
        var s' := WakeupSlave(s, p);
        (s', if s'.halted then None else Some(SIGCONT))
      else if StoppingSig(sig) then (s, None)
      else (s.(tasks := s.tasks[p := t.(sigpendingMask := t.sigpendingMask + {sig})]), None)
    else if StoppingSig(sig) && sig in t.defaultStop then
      var s' := StopSlave(s, p);
      (s', if s'.halted then None else Some(sig))
    else (s, Some(sig))
  }

  /** wakeup_slave (src/okfs_signal.c lines 65-80): slave_restore_mem ends OKFS when no memory is replaced. */
  function WakeupSlave(s: State, p: Pid): State
    requires p in s.tasks
  {
    if !s.tasks[p].rpl then s.(halted := true)
    else s.(tasks := ChangeState(s.tasks[p := s.tasks[p].(rpl := false)], p, Running))
  }

  /** stop_slave (src/okfs_signal.c lines 49-63): slave_rpl_mem ends OKFS when memory of the task is
      replaced already, and find_slave when the parent is not traced. */
  function StopSlave(s: State, p: Pid): State
    requires p in s.tasks
  {
    var ppid := s.tasks[p].ppid;
    var tab := ChangeState(s.tasks[p := s.tasks[p].(rpl := true)], p, Stopped);
    if s.tasks[p].rpl then s.(halted := true)
    else if ppid !in tab then s.(tasks := tab, halted := true)
    else if tab[ppid].noCldStop then s.(tasks := tab)
    else s.(tasks := Notify(tab, ppid, SIGCHLD))
  }

  /** A task that ended: zombie, or gone with its zombie children when it is an orphan. */
  function ExitSlave(s: State, p: Pid): State
    requires p in s.tasks
  {
    var tab := ChangeState(s.tasks[p := s.tasks[p].(exited := true)], p, Zombie);
    s.(tasks := tab, halted := |tab| == 0)
  }

  /** The top of the loop (src/okfs.c lines 210-215): signals held back go to the kernel again,
      all but the last one, which the loop of deliver_pending_signals does not reach. */
  function Resume(s: State): State {
    match s.slave
    case None => s
    case Some(p) =>
      if p !in s.tasks then s.(slave := None)
      else if s.tasks[p].state == Zombie then s
      else
        var t := s.tasks[p];
        s.(tasks := s.tasks[p := Delivered(t)])
  }

  function Delivered(t: Task): Task {
    t.(kernelPending := t.kernelPending + (t.sigpendingMask - {LAST_SIGNAL}), sigpendingMask := t.sigpendingMask * {LAST_SIGNAL})
  }

  // ----- steps -----

  /** The kernel's rules: signals are taken only outside a call, pause returns only when a
      signal is pending, wait reports only a child whose end OKFS has seen, pids are fresh, and
      OKFS's own wait fails only when every process is dead. EnterOther stands for the calls whose
      handlers are the subject of CallModel. */
  predicate Enabled(s: State, e: Event) {
    && !s.halted
    && e.pid in s.tasks
    && var t := s.tasks[e.pid];
       match e
       case EnterWait(_, _) => !t.exited && !t.duringCall
       case EnterFork(_) => !t.exited && !t.duringCall
       case EnterOther(_) => !t.exited && !t.duringCall
       case Leave(p, reply) =>
         && !t.exited && t.duringCall
         && (t.restartCall.Some? ==> t.kernelPending != {})
         && (reply.Reaped? ==> t.nextCall in {AfterWnohang, AfterIsZombie, AfterIsStopped})
         && (reply.Reaped? ==> reply.child in t.children && reply.child in s.tasks && s.tasks[reply.child].exited)
         && (reply.Forked? ==> t.nextCall == AfterFork && reply.child !in s.tasks && reply.child > INIT)
         && (t.nextCall == AfterIsZombie ==> reply.Reaped? || reply.Failed?)
       case SignalStop(p, sig) => !t.exited && !t.duringCall && sig in t.kernelPending && sig != SIGKILL
       case Exit(_) => !t.exited
       case Send(_, _) => true
       case Sigaction(_, _, _) => !t.exited
       case NoProcess(_) => forall q :: q in s.tasks ==> s.tasks[q].exited
  }

  /** What is left of a signal once the kernel has reported it. */
  function Take(s: State, p: Pid, sig: Signal): State
    requires p in s.tasks
  {
    s.(tasks := s.tasks[p := s.tasks[p].(kernelPending := s.tasks[p].kernelPending - {sig})])
  }

  /** What OKFS does about one event. */
  function Handle(s: State, e: Event): State
    requires e.pid in s.tasks
  {
    var p, t := e.pid, s.tasks[e.pid];
    match e
    case Send(_, _) => s
    case Sigaction(_, _, _) => s
    case NoProcess(_) => s.(halted := true)
    case EnterWait(_, args) =>
      var tab := s.tasks[p := Entered(t, NoHandler)];
      State(tab[p := BeforeWait(tab, p, args)], Some(p), s.halted)
    case EnterFork(_) => State(s.tasks[p := Entered(t, AfterFork).(rpl := true)], Some(p), s.halted || t.rpl)
    case EnterOther(_) => State(s.tasks[p := Entered(t, NoHandler)], Some(p), s.halted)
    case Leave(_, reply) => LeaveCall(s.(slave := Some(p)), p, reply)
    case SignalStop(_, sig) => ProcessSignal(Take(s.(slave := Some(p)), p, sig), p, sig).0
    case Exit(_) => ExitSlave(s.(slave := Some(p)), p)
  }

  function Next(s: State, e: Event): State
    requires e.pid in s.tasks
  {
    match e
    case Send(p, sig) => s.(tasks := Notify(s.tasks, p, sig))
    case Sigaction(p, dfl, noCld) => s.(tasks := s.tasks[p := s.tasks[p].(defaultStop := dfl, noCldStop := noCld)])
    case NoProcess(_) => s.(halted := true)
    case _ => Resume(Handle(s, e))
  }

  /** The signal that the next PTRACE_SYSCALL passes on to the task. */
  function Passed(s: State, e: Event): Option<Signal>
    requires e.pid in s.tasks
  {
    if e.SignalStop? then ProcessSignal(Take(s.(slave := Some(e.pid)), e.pid, e.sig), e.pid, e.sig).1 else None
  }

  predicate Legal(s: State, run: seq<Event>)
    decreases |run|
  {
    run == [] || (Enabled(s, run[0]) && Legal(Next(s, run[0]), run[1..]))
  }

  function After(s: State, run: seq<Event>): State
    requires Legal(s, run)
    decreases |run|
  {
    if run == [] then s else After(Next(s, run[0]), run[1..])
  }

  /** One traced program, just started (run_first_slave, src/okfs.c lines 240-268). */
  ghost predicate Initial(s: State) {
    exists p, gid, dfl :: p > INIT && s == State(map[p := FirstTask(gid, dfl)], Some(p), false)
  }

  function FirstTask(gid: int, dfl: set<Signal>): Task {
    Task(INIT, gid, Running, [], false, NoHandler, None, None, Unmapped, {}, dfl, false, false, {}, false)
  }
}
