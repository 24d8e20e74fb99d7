/** The life of a system call as OKFS sees it: what handle_syscall (src/okfs.c lines 91-162) and
    the handlers in front of and behind the kernel's work do to the per-call fields of a task. In either
    build a request of ptrace for an address that a task gave and cannot use ends OKFS (src/lib/wrap.c
    lines 225-279). */
module CallModel {
  import opened Common

  /** One half of struct fs_resolve: path, canon_path, rel_path and arg_fsp. */
  datatype Resolve = Resolve(path: Option<string>, canon: Option<string>, rel: Option<string>, fsp: Option<nat>)

  const NO_PATH := Resolve(None, None, None, None)

  /** The mounted file systems, and the build: ASSERT is empty unless DEBUG_OKFS is defined (src/debug.h
      lines 8-42), and the repository undefines it. */
  datatype Setup = Setup(mounts: seq<string>, asserts: bool)

  /** What a path argument leads to: nothing, memory that is not mapped up to the end of the text, or
      a text with what canonicalisation makes of it (None for an error). */
  datatype PathArg = NullPointer | Unreadable | Text(text: string, canon: Option<string>)

  predicate Resolves(a: PathArg) {
    a.Text? && a.canon.Some?
  }

  /** `next_call`, by what it does to the per-call fields. */
  datatype Handler =
    | NoHandler
    | ReturnSaved
    | AfterOkfsOpen
    | AfterLinuxOpen
    | AfterFork
    | LinkOrRename
    | OnePath      // unlink, stat, mkdir, chdir ...: proc_path1 and clean_path1 inside one handler
    | SecondPath   // symlink: the same with the second argument
    | StatHandler  // fstat64, which asserts that no patch is pending
    | NoPaths      // handlers of other calls, that use addresses of the task at most

  /** The part of struct task that lives from the entry of a call to its end, and the pending
      memory patch. `serial` numbers the calls. */
  datatype Task = Task(during: nat, next: Handler, restart: nat, arg1: Resolve, arg2: Resolve, rpl: bool, serial: nat)

  /** The ways in which OKFS gives up, and a mark for an entry taken for an exit or the reverse. */
  datatype Fault = ReplacedAndNotRestored | NotReplaced | AssertionFailed | NoAccess | OutOfStep

  datatype Out = Out(quit: Option<Fault>, task: Task)

  /** What a call's handler in front of the kernel does. */
  datatype Kind =
    | Open(arg: PathArg, fd: int, room: bool)          // open and creat; what okfs_do_open returns, and
                                                       // whether memory has room for the new path
    | LinkRename(arg1: PathArg, arg2: PathArg)
    | PathCall                                         // dummy_call, then a OnePath handler
    | SymlinkCall
    | Fork
    | Clone(supported: bool)
    | Wait(next: Handler)                              // a child is ready, or WNOHANG, or no child
    | Suspend                                          // wait turned into pause
    | OnDescriptor(next: Handler)
    | Fstat64(managed: bool)                           // of a file of OKFS, or left to Linux
    | Refused                                          // not_supported and unimplemented_call
    | Plain

  /** A mount point covers every path that starts with it. */
  predicate Covers(point: string, canon: string) {
    |point| <= |canon| && canon[..|point|] == point
  }

  /** The first mount that covers the path. */
  function FirstMount(mounts: seq<string>, canon: string): (r: Option<nat>)
    ensures r.Some? ==> r.value < |mounts| && Covers(mounts[r.value], canon)
    ensures forall i :: 0 <= i < (if r.Some? then r.value else |mounts|) ==> !Covers(mounts[i], canon)
  {
    if mounts == [] then None
    else if Covers(mounts[0], canon) then Some(0)
    else
      var r := FirstMount(mounts[1..], canon);
      if r.Some? then Some(r.value + 1) else None
  }

  /** What proc_path1 and proc_path2 leave in their fields for a path that resolves. */
  function Resolved(mounts: seq<string>, a: PathArg): Resolve
    requires Resolves(a)
  {
    var i := FirstMount(mounts, a.canon.value);
    Resolve(Some(a.text), a.canon, if i.None? then None else Some(a.canon.value[|mounts[i.value]|..]), i)
  }

  predicate IsEmpty(r: Resolve) {
    r.path.None? && r.canon.None? && r.rel.None?
  }

  /** How proc_path ends: the fields, and whether OKFS does. Without assertions a path that was left
      over is written over. */
  function ProcPath(setup: Setup, r: Resolve, a: PathArg): (Option<Fault>, Resolve) {
    var r0 := r.(fsp := None);
    if setup.asserts && !IsEmpty(r) then (Some(AssertionFailed), r0)
    else
      match a
      case NullPointer => (None, r0)
      case Unreadable => (Some(NoAccess), r0)
      case Text(text, canon) =>
        (None, if canon.None? then r0.(path := Some(text), canon := None) else Resolved(setup.mounts, a))
  }

  function ProcPath1(setup: Setup, t: Task, a: PathArg): Out {
    var (quit, r) := ProcPath(setup, t.arg1, a);
    Out(quit, t.(arg1 := r))
  }

  function ProcPath2(setup: Setup, t: Task, a: PathArg): Out {
    var (quit, r) := ProcPath(setup, t.arg2, a);
    Out(quit, t.(arg2 := r))
  }

  function Clean1(t: Task): Task {
    t.(arg1 := NO_PATH)
  }

  function Clean2(t: Task): Task {
    t.(arg2 := NO_PATH)
  }

  function ForceReturn(t: Task): Task {
    t.(next := ReturnSaved)
  }

  /** slave_rpl_mem and slave_rpl_known_str, slave_restore_mem: only whether a patch is pending. */
  function Replace(t: Task, room: bool): Out {
    if t.rpl then Out(Some(ReplacedAndNotRestored), t)
    else Out(if room then None else Some(NoAccess), t.(rpl := true))
  }

  function Restore(t: Task): Out {
    if t.rpl then Out(None, t.(rpl := false)) else Out(Some(NotReplaced), t)
  }

  /** okfs_before_open and okfs_before_creat. */
  function BeforeOpen(setup: Setup, t: Task, a: PathArg, fd: int, room: bool): Out {
    var o := ProcPath1(setup, t, a);
    if o.quit.Some? then o
    else if !Resolves(a) || (o.task.arg1.fsp.Some? && fd < 0) then Out(None, Clean1(ForceReturn(o.task)))
    else
      var o' := Replace(o.task, room);
      if o'.quit.Some? then o'
      else Out(None, o'.task.(next := if o.task.arg1.fsp.Some? then AfterOkfsOpen else AfterLinuxOpen))
  }

  /** okfs_before_lnk_rnm. */
  function BeforeLinkRename(setup: Setup, t: Task, a1: PathArg, a2: PathArg): Out {
    var o := ProcPath1(setup, t, a1);
    if o.quit.Some? then o
    else if !Resolves(a1) then Out(None, Clean1(ForceReturn(o.task)))
    else
      var o' := ProcPath2(setup, o.task, a2);
      if o'.quit.Some? then o'
      else if !Resolves(a2) || o'.task.arg1.fsp != o'.task.arg2.fsp then Out(None, Clean2(Clean1(ForceReturn(o'.task))))
      else o'
  }

  /** The entry of `call_after` in the call table. */
  function TableEntry(k: Kind): Handler {
    match k
    case LinkRename(_, _) => LinkOrRename
    case PathCall => OnePath
    case SymlinkCall => SecondPath
    case Fork => AfterFork
    case OnDescriptor(_) => NoPaths
    case Fstat64(_) => StatHandler
    case _ => NoHandler
  }

  /** The entry half of handle_syscall. The code a fork replaces is where the task goes on. */
  function Enter(setup: Setup, t: Task, nr: nat, k: Kind, serial: nat): Out {
    var t1 := t.(during := nr, next := TableEntry(k), serial := serial);
    match k
    case Open(a, fd, room) => BeforeOpen(setup, t1, a, fd, room)
    case LinkRename(a1, a2) => BeforeLinkRename(setup, t1, a1, a2)
    case Fork => Replace(t1, true)
    case Clone(supported) =>
      if !supported then Out(None, ForceReturn(t1))
      else
        var o := Replace(t1, true);
        if o.quit.Some? then o else Out(None, o.task.(next := AfterFork))
    case Wait(next) => Out(None, t1.(next := next))
    case Suspend => Out(None, t1.(restart := nr))
    case OnDescriptor(next) => Out(None, t1.(next := next))
    case Fstat64(managed) => Out(None, if managed then t1 else t1.(next := NoHandler))
    case Refused => Out(None, ForceReturn(t1))
    case _ => Out(None, t1)
  }

  /** add_slave for a parent: everything starts empty but the patch, which is copied. */
  function NewTask(parent: Task): Task {
    Task(0, NoHandler, 0, NO_PATH, NO_PATH, parent.rpl, 0)
  }

  datatype Left = Left(quit: Option<Fault>, task: Task, child: Option<Task>, ran: bool)

  function Leaving(o: Out): Left {
    Left(o.quit, o.task, None, true)
  }

  /** after_fork: the child is made from the patched parent, then both are restored. */
  function ForkLeaves(setup: Setup, t: Task, ret: int): Left {
    if ret < 0 then Left(None, t, None, true)
    else if setup.asserts && (t.arg1 != NO_PATH || t.arg2 != NO_PATH) then Left(Some(AssertionFailed), t, None, true)
    else
      var c := Restore(NewTask(t));
      var p := Restore(t);
      if p.quit.Some? then Left(p.quit, t, None, true) else Left(c.quit, p.task, Some(c.task), true)
  }

  /** okfs_after_okfs_open and okfs_after_linux_open. */
  function OpenLeaves(setup: Setup, t: Task, okfs: bool): Left {
    if setup.asserts && !okfs && t.arg1.fsp.Some? then Left(Some(AssertionFailed), t, None, true)
    else
      var o := Restore(t);
      if o.quit.Some? then Leaving(o) else Left(None, Clean1(o.task), None, true)
  }

  /** okfs_link and okfs_rename. */
  function LinkLeaves(setup: Setup, t: Task): Left {
    if setup.asserts && t.arg1.fsp != t.arg2.fsp then Left(Some(AssertionFailed), t, None, true)
    else Left(None, Clean2(Clean1(t)), None, true)
  }

  /** okfs_fstat64 (src/filesystems/vfs_stat.c lines 108-129), when the file is found. */
  function StatLeaves(setup: Setup, t: Task, b: Back): Left {
    if setup.asserts && b.found && t.rpl then Left(Some(AssertionFailed), t, None, true)
    else Left(if b.found && !b.access then Some(NoAccess) else None, t, None, true)
  }

  /** What the handler behind a call meets: the kernel's result, the path it looks at and what
      canonicalisation makes of it, whether the file is in the file system, and whether it can use the
      other addresses that the task gave, for results or for a second text. */
  datatype Back = Back(ret: int, arg: PathArg, found: bool, access: bool)

  /** The handlers that resolve a path themselves. */
  function PathLeaves(o: Out, cleaned: Task, b: Back): Left {
    if o.quit.Some? then Leaving(o)
    else if Resolves(b.arg) && !b.access then Left(Some(NoAccess), o.task, None, true)
    else Left(None, cleaned, None, true)
  }

  function RunHandler(setup: Setup, t: Task, b: Back): Left {
    match t.next
    case NoHandler => Left(None, t, None, false)
    case StatHandler => StatLeaves(setup, t, b)
    case AfterFork => ForkLeaves(setup, t, b.ret)
    case AfterOkfsOpen => OpenLeaves(setup, t, true)
    case AfterLinuxOpen => OpenLeaves(setup, t, false)
    case LinkOrRename => LinkLeaves(setup, t)
    case OnePath => var o := ProcPath1(setup, t, b.arg); PathLeaves(o, Clean1(o.task), b)
    case SecondPath => var o := ProcPath2(setup, t, b.arg); PathLeaves(o, Clean2(o.task), b)
    case NoPaths => Left(if b.access then None else Some(NoAccess), t, None, true)
    case ReturnSaved => Left(None, t, None, true)
  }

  /** The exit half of handle_syscall: a suspended wait is restarted, any other call has its
      handler run; then nothing is left to run. */
  function Leave(setup: Setup, t: Task, b: Back): Left {
    var t1 := t.(during := 0);
    if t.restart != 0 then Left(None, t1.(restart := 0, next := NoHandler), None, false)
    else
      var l := RunHandler(setup, t1, b);
      if l.quit.Some? then l else l.(task := l.task.(next := NoHandler))
  }

  datatype Event =
    | Entry(pid: Pid, nr: nat, kind: Kind)
    | Exit(pid: Pid, back: Back)
    | Death(pid: Pid)

  /** `inCall` is the kernel's side: which tasks are inside a call. `stuck` are the tasks whose fork
      failed, `ran` the calls whose handler has run, `used` the process numbers given out. */
  datatype State = State(
    tasks: map<Pid, Task>,
    inCall: set<Pid>,
    calls: nat,
    ran: seq<nat>,
    stuck: set<Pid>,
    used: set<Pid>,
    fault: Option<Fault>)

  function Initial(first: Pid): State {
    State(map[first := Task(0, NoHandler, 0, NO_PATH, NO_PATH, false, 0)], {}, 0, [], {}, {first}, None)
  }

  /** Entries and exits of a task alternate, call numbers are not zero and a fork returns an error
      or a new process number. */
  predicate Legal(s: State, e: Event) {
    && e.pid in s.tasks
    && match e
       case Entry(p, nr, k) => p !in s.inCall && nr != 0 && (k.Wait? || k.OnDescriptor? ==> k.next in {NoHandler, NoPaths, ReturnSaved})
       case Exit(p, b) => p in s.inCall && (s.tasks[p].next == AfterFork ==> b.ret != 0 && (b.ret > 0 ==> b.ret !in s.used))
       case Death(_) => true
  }

  predicate ForkFails(s: State, e: Event) {
    e.Exit? && e.pid in s.tasks && s.tasks[e.pid].next == AfterFork && e.back.ret < 0
  }

  /** One stop of one task. handle_syscall tells entry from exit by `during` alone. */
  function Step(setup: Setup, s: State, e: Event): State
    requires Legal(s, e)
  {
    if s.fault.Some? then s
    else
      match e
      case Death(p) => s.(tasks := s.tasks - {p}, inCall := s.inCall - {p}, stuck := s.stuck - {p})
      case Entry(p, nr, k) =>
        if s.tasks[p].during != 0 then s.(fault := Some(OutOfStep))
        else
          var o := Enter(setup, s.tasks[p], nr, k, s.calls);
          s.(tasks := s.tasks[p := o.task], inCall := s.inCall + {p}, calls := s.calls + 1, fault := o.quit)
      case Exit(p, b) =>
        if s.tasks[p].during == 0 then s.(fault := Some(OutOfStep))
        else
          var l := Leave(setup, s.tasks[p], b);
          var tasks := s.tasks[p := l.task];
          s.(tasks := if l.child.Some? then tasks[b.ret := l.child.value] else tasks,
             inCall := s.inCall - {p},
             ran := if l.ran then s.ran + [s.tasks[p].serial] else s.ran,
             stuck := if ForkFails(s, e) then s.stuck + {p} else s.stuck,
             used := if l.child.Some? then s.used + {b.ret} else s.used,
             fault := l.quit)
  }

  /** The state after a run, which stays legal all the way. */
  ghost predicate LegalRun(setup: Setup, first: Pid, run: seq<Event>)
    decreases |run|, 0
  {
    run == [] || (LegalRun(setup, first, run[..|run| - 1]) && Legal(After(setup, first, run[..|run| - 1]), run[|run| - 1]))
  }

  ghost function After(setup: Setup, first: Pid, run: seq<Event>): State
    requires LegalRun(setup, first, run)
    decreases |run|, 1
  {
    if run == [] then Initial(first)
    else Step(setup, After(setup, first, run[..|run| - 1]), run[|run| - 1])
  }
}
