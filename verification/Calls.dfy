/** The handlers over a task object whose per-call fields they set and clear one by one
    (src/okfs.c lines 91-162, src/filesystems/vfs_path_calls.c lines 49-184 and 262-344,
    src/filesystems/vfs_open.c lines 176-297, src/control.c lines 237-306, src/task.c lines 282-294),
    and the loop that runs them for every stop of every task. */
module Calls {
  import opened Common
  import opened CallModel
  import opened CallLaws

  /** The loop over the mounted file systems in proc_path1 and proc_path2. */
  method FindMount(mounts: seq<string>, canon: string) returns (r: Option<nat>)
    ensures r == FirstMount(mounts, canon)
    ensures r.Some? ==> exists rel :: canon == mounts[r.value] + rel
    ensures forall i, rel :: 0 <= i < |mounts| && canon == mounts[i] + rel ==> r.Some? && r.value <= i
  {
    CoversIff(mounts, canon);
    var i := 0;
    while i < |mounts|
      invariant 0 <= i <= |mounts| && forall j :: 0 <= j < i ==> !Covers(mounts[j], canon)
    {
      if Covers(mounts[i], canon) {
        return Some(i);
      }
      i := i + 1;
    }
    return None;
  }

  /** One half of struct fs_resolve. */
  class FsResolve {
    var path: Option<string>
    var canon: Option<string>
    var rel: Option<string>
    var fsp: Option<nat>
    ghost const owner: (Pid, bool)

    constructor (ghost owner: (Pid, bool))
      ensures View() == NO_PATH && this.owner == owner
    {
      path, canon, rel, fsp := None, None, None, None;
      this.owner := owner;
    }

    ghost function View(): Resolve
      reads this
    {
      Resolve(path, canon, rel, fsp)
    }

    /** proc_path1 and proc_path2. It gives up exactly when the address of the path is bad or, in the debug
        build, when a path is left over. It succeeds exactly when there is a text and it can be
        canonicalised, and then the canonical path is the first mount point that stands in front of it
        followed by the relative path, or none stands in front of it. */
    method ProcPath(setup: Setup, a: PathArg) returns (quit: Option<Fault>, ok: bool)
      modifies this
      ensures quit == if setup.asserts && !IsEmpty(old(View())) then Some(AssertionFailed)
                      else if a.Unreadable? then Some(NoAccess) else None
      ensures quit.None? ==> ok == Resolves(a)
      ensures quit.None? && ok && fsp.Some? ==>
                rel.Some? && fsp.value < |setup.mounts| && setup.mounts[fsp.value] + rel.value == a.canon.value
      ensures quit.None? && ok && fsp.None? ==> forall i :: 0 <= i < |setup.mounts| ==> !Covers(setup.mounts[i], a.canon.value)
      ensures quit.None? && !ok ==> fsp == None && (a.Text? ==> path == Some(a.text) && canon == None)
      ensures quit.None? && ok ==> forall i, rel :: 0 <= i < |setup.mounts| && a.canon.value == setup.mounts[i] + rel ==>
                fsp.Some? && fsp.value <= i
      ensures quit.None? && ok ==> View() == Resolved(setup.mounts, a)
      ensures (quit, View()) == CallModel.ProcPath(setup, old(View()), a)
    {
      fsp := None;
      if setup.asserts && (rel.Some? || path.Some? || canon.Some?) {
        return Some(AssertionFailed), false;
      }
      if a.NullPointer? {
        return None, false;
      }
      if a.Unreadable? {
        return Some(NoAccess), false;
      }
      path := Some(a.text);
      canon := a.canon;
      if canon.None? {
        return None, false;
      }
      rel := None;
      fsp := FindMount(setup.mounts, canon.value);
      if fsp.Some? {
        rel := Some(canon.value[|setup.mounts[fsp.value]|..]);
        assert canon.value == canon.value[..|setup.mounts[fsp.value]|] + rel.value;
      }
      return None, true;
    }

    /** clean_path1 and clean_path2: nothing is left over for a new proc_path. */
    method Clean()
      modifies this
      ensures View() == NO_PATH && IsEmpty(View())
    {
      path := None;
      canon := None;
      rel := None;
      fsp := None;
    }
  }

  /** The per-call part of struct task. */
  class Slave {
    const pid: Pid
    var during: nat
    var next: Handler
    var restart: nat
    const arg1: FsResolve
    const arg2: FsResolve
    var rpl: bool
    var serial: nat

    /** No two halves of struct fs_resolve are the same object, in one task or in two. */
    ghost predicate Apart() {
      arg1.owner == (pid, true) && arg2.owner == (pid, false)
    }

    ghost function View(): Task
      reads this, arg1, arg2
    {
      Task(during, next, restart, arg1.View(), arg2.View(), rpl, serial)
    }

    /** add_slave */
    constructor (pid: Pid, rpl: bool)
      ensures this.pid == pid && Apart() && fresh(arg1) && fresh(arg2) && View() == Task(0, NoHandler, 0, NO_PATH, NO_PATH, rpl, 0)
    {
      this.pid, during, next, restart, serial, this.rpl := pid, 0, NoHandler, 0, 0, rpl;
      arg1 := new FsResolve((pid, true));
      arg2 := new FsResolve((pid, false));
    }

    /** slave_rpl_mem, slave_rpl_known_str: at most one patch at a time, and only where there is memory. */
    method RplMem(room: bool) returns (quit: Option<Fault>)
      modifies this`rpl
      ensures rpl && quit == if old(rpl) then Some(ReplacedAndNotRestored) else if room then None else Some(NoAccess)
    {
      if rpl {
        return Some(ReplacedAndNotRestored);
      }
      rpl := true;
      return if room then None else Some(NoAccess);
    }

    /** slave_restore_mem: it undoes slave_rpl_mem. */
    method RestoreMem() returns (quit: Option<Fault>)
      modifies this`rpl
      ensures !rpl && quit == if old(rpl) then None else Some(NotReplaced)
    {
      if !rpl {
        return Some(NotReplaced);
      }
      rpl := false;
      return None;
    }

    /** okfs_before_open and okfs_before_creat. Memory is replaced exactly when the file is Linux's or
        OKFS has opened it; OKFS gives up exactly when an address is bad, when memory is to be replaced and
        a patch is there or, in the debug build, when a path is left over; otherwise the path is kept for
        the handler behind the call, or the call is answered with an error and nothing is kept. */
    method BeforeOpen(setup: Setup, a: PathArg, fd: int, room: bool) returns (quit: Option<Fault>)
      requires Apart()
      modifies this`next, this`rpl, arg1
      ensures quit == if setup.asserts && !IsEmpty(old(arg1.View())) then Some(AssertionFailed)
                      else if Patches(setup.mounts, Open(a, fd, room)) && old(rpl) then Some(ReplacedAndNotRestored)
                      else if BadEntry(setup.mounts, Open(a, fd, room)) then Some(NoAccess)
                      else None
      ensures quit.None? && Patches(setup.mounts, Open(a, fd, room)) ==>
                rpl && arg1.View() == Resolved(setup.mounts, a) && next == if arg1.fsp.Some? then AfterOkfsOpen else AfterLinuxOpen
      ensures quit.None? && !Patches(setup.mounts, Open(a, fd, room)) ==>
                rpl == old(rpl) && arg1.View() == NO_PATH && next == ReturnSaved
      ensures Out(quit, View()) == CallModel.BeforeOpen(setup, old(View()), a, fd, room)
    {
      var ok;
      quit, ok := arg1.ProcPath(setup, a);
      if quit.Some? {
        return;
      }
      if !ok {
        next := ReturnSaved;
        arg1.Clean();
        return;
      }
      if arg1.fsp.Some? && fd < 0 {
        next := ReturnSaved;
        arg1.Clean();
        return;
      }
      quit := RplMem(room);
      if quit.None? {
        next := if arg1.fsp.Some? then AfterOkfsOpen else AfterLinuxOpen;
      }
    }

    /** okfs_before_lnk_rnm: both paths are kept, on one file system, for the handler behind the call,
        or the call is answered and none is kept, unless an address is bad or, in the debug build, a path
        is left over. */
    method BeforeLinkRename(setup: Setup, a1: PathArg, a2: PathArg) returns (quit: Option<Fault>)
      requires Apart() && next == LinkOrRename
      modifies this`next, arg1, arg2
      ensures quit.Some? <==>
                || BadEntry(setup.mounts, LinkRename(a1, a2))
                || (setup.asserts && (!IsEmpty(old(arg1.View())) || (Resolves(a1) && !IsEmpty(old(arg2.View())))))
      ensures quit.None? && next == LinkOrRename ==>
                Resolves(a1) && Resolves(a2) && arg1.View() == Resolved(setup.mounts, a1) && arg2.View() == Resolved(setup.mounts, a2)
                && arg1.fsp == arg2.fsp
      ensures quit.None? && next != LinkOrRename ==>
                next == ReturnSaved && arg1.View() == NO_PATH && (arg2.View() == NO_PATH || arg2.View() == old(arg2.View()))
      ensures Out(quit, View()) == CallModel.BeforeLinkRename(setup, old(View()), a1, a2)
    {
      var ok;
      quit, ok := arg1.ProcPath(setup, a1);
      if quit.Some? {
        return;
      }
      if !ok {
        next := ReturnSaved;
        arg1.Clean();
        return;
      }
      quit, ok := arg2.ProcPath(setup, a2);
      if quit.Some? {
        return;
      }
      if !ok {
        next := ReturnSaved;
        arg1.Clean();
        arg2.Clean();
        return;
      }
      if arg1.fsp != arg2.fsp {
        arg1.Clean();
        arg2.Clean();
        next := ReturnSaved;
      }
    }

    /** The entry half of handle_syscall. A clean task becomes one that its handler can finish; OKFS
        gives up exactly when memory is to be replaced and a patch is left from a failed fork, or when an
        address is bad. */
    method HandleEntry(setup: Setup, nr: nat, k: Kind, n: nat, ghost stuck: bool) returns (quit: Option<Fault>)
      requires Apart() && Idle(View(), stuck) && nr != 0
      requires k.Wait? || k.OnDescriptor? ==> k.next in {NoHandler, NoPaths, ReturnSaved}
      modifies this, arg1, arg2
      ensures quit == if stuck && Patches(setup.mounts, k) then Some(ReplacedAndNotRestored)
                      else if BadEntry(setup.mounts, k) then Some(NoAccess) else None
      ensures quit.None? ==> Busy(View(), stuck)
      ensures Out(quit, View()) == Enter(setup, old(View()), nr, k, n)
    {
      EnterKeeps(setup, View(), nr, k, n, stuck);
      during, serial, next := nr, n, TableEntry(k);
      quit := None;
      match k {
        case Open(a, fd, room) => quit := BeforeOpen(setup, a, fd, room);
        case LinkRename(a1, a2) => quit := BeforeLinkRename(setup, a1, a2);
        case Fork => quit := RplMem(true);
        case Clone(supported) =>
          if supported {
            quit := RplMem(true);
            if quit.None? {
              next := AfterFork;
            }
          } else {
            next := ReturnSaved;
          }
        case Wait(h) => next := h;
        case Suspend => restart := nr;
        case OnDescriptor(h) => next := h;
        case Fstat64(managed) =>
          if !managed {
            next := NoHandler;
          }
        case Refused => next := ReturnSaved;
        case PathCall =>
        case SymlinkCall =>
        case Plain =>
      }
    }

    /** after_fork, from a task with the patch and without paths: a failed fork changes nothing, a
        successful one leaves neither parent nor child with a patch. */
    method DoAfterFork(ret: int, pid: Pid) returns (quit: Option<Fault>, child: Slave?)
      requires Apart() && rpl && arg1.View() == NO_PATH && arg2.View() == NO_PATH
      modifies this`rpl
      ensures quit == None && (child == null <==> ret < 0) && rpl == (ret < 0)
      ensures child != null ==> fresh(child) && fresh(child.arg1) && fresh(child.arg2) && child.Apart() && child.pid == pid
      ensures child != null ==> Idle(child.View(), false) && child.serial == 0
    {
      if ret < 0 {
        return None, null;
      }
      child := new Slave(pid, rpl);
      quit := RestoreMem();
      quit := child.RestoreMem();
    }

    /** The handlers behind a call, from the state that the entry has left. */
    method DoHandler(setup: Setup, b: Back, ghost stuck: bool) returns (quit: Option<Fault>, child: Slave?)
      requires Apart() && next != NoHandler && restart == 0 && Busy(View().(during := 1), stuck)
      modifies this, arg1, arg2
      ensures child != null ==> fresh(child) && fresh(child.arg1) && fresh(child.arg2) && child.Apart() && child.pid == b.ret
      ensures Left(quit, View(), if child == null then None else Some(child.View()), true) == RunHandler(setup, old(View()), b)
    {
      quit, child := None, null;
      match next {
        case AfterFork => quit, child := DoAfterFork(b.ret, b.ret);
        case AfterOkfsOpen =>
          quit := RestoreMem();
          arg1.Clean();
        case AfterLinuxOpen =>
          quit := RestoreMem();
          arg1.Clean();
        case LinkOrRename =>
          arg1.Clean();
          arg2.Clean();
        case OnePath => quit := ResolveOnce(setup, arg1, b);
        case SecondPath => quit := ResolveOnce(setup, arg2, b);
        case StatHandler =>
          if setup.asserts && b.found && rpl {
            quit := Some(AssertionFailed);
          } else if b.found {
            quit := UseAddress(b);
          }
        case NoPaths => quit := UseAddress(b);
        case ReturnSaved =>
      }
    }

    /** slave_memset, slave_memget or slave_getstr at an address that the task gave. */
    static method UseAddress(b: Back) returns (quit: Option<Fault>)
      ensures quit == if b.access then None else Some(NoAccess)
    {
      quit := if b.access then None else Some(NoAccess);
    }

    /** A handler that resolves a path for itself, uses it and forgets it. */
    static method ResolveOnce(setup: Setup, half: FsResolve, b: Back) returns (quit: Option<Fault>)
      modifies half
      ensures quit == if setup.asserts && !IsEmpty(old(half.View())) then Some(AssertionFailed)
                      else if b.arg.Unreadable? || (Resolves(b.arg) && !b.access) then Some(NoAccess) else None
      ensures quit.None? ==> half.View() == NO_PATH
      ensures quit.Some? ==> half.View() == CallModel.ProcPath(setup, old(half.View()), b.arg).1
    {
      var ok;
      quit, ok := half.ProcPath(setup, b.arg);
      if quit.None? && ok {
        quit := UseAddress(b);
      }
      if quit.None? {
        half.Clean();
      }
    }

    /** The exit half of handle_syscall. The task and a new child are clean again, with a patch only
        after a failed fork; OKFS gives up exactly when an address is bad or, in the debug build, when
        fstat64 finds its file while a patch is there. */
    method HandleExit(setup: Setup, b: Back, ghost stuck: bool) returns (quit: Option<Fault>, child: Slave?, ran: bool)
      requires Apart() && Busy(View(), stuck)
      modifies this, arg1, arg2
      ensures quit == if setup.asserts && old(next) == StatHandler && b.found && stuck then Some(AssertionFailed)
                      else if BadExit(old(next), b) then Some(NoAccess) else None
      ensures quit.None? ==> Idle(View(), stuck || (old(next) == AfterFork && b.ret < 0))
      ensures child != null <==> old(next) == AfterFork && b.ret >= 0
      ensures child != null ==> fresh(child) && fresh(child.arg1) && fresh(child.arg2) && child.Apart() && child.pid == b.ret && Idle(child.View(), false)
      ensures Left(quit, View(), if child == null then None else Some(child.View()), ran) == Leave(setup, old(View()), b)
    {
      LeaveKeeps(setup, View(), b, stuck);
      during := 0;
      quit, child, ran := None, null, false;
      if restart != 0 {
        restart := 0;
      } else if next != NoHandler {
        quit, child := DoHandler(setup, b, stuck);
        ran := true;
        if quit.Some? {
          return;
        }
      }
      next := NoHandler;
    }
  }

  /** The loop over the stops of all tasks. `model` is the state of the step relation. */
  class Tracer {
    var slaves: map<Pid, Slave>
    var calls: nat
    var fault: Option<Fault>
    ghost var model: State
    ghost var repr: set<Slave>
    ghost var halves: set<FsResolve>

    ghost predicate Owns(s: Slave)
      reads this`repr, this`halves
    {
      s in repr && s.arg1 in halves && s.arg2 in halves && s.Apart()
    }

    ghost predicate Valid()
      reads this, repr, halves
    {
      && slaves.Keys == model.tasks.Keys && calls == model.calls && fault == model.fault
      && forall p :: p in slaves ==> Owns(slaves[p]) && slaves[p].pid == p && slaves[p].View() == model.tasks[p]
    }

    constructor (first: Pid)
      ensures Valid() && model == Initial(first) && fresh(repr) && fresh(halves)
    {
      var s := new Slave(first, false);
      slaves := map[first := s];
      calls, fault := 0, None;
      model := Initial(first);
      repr, halves := {s}, {s.arg1, s.arg2};
    }

    /** All tasks but p are as the model has them. */
    ghost predicate Others(p: Pid)
      requires p in slaves && slaves[p].pid == p && slaves[p].Apart()
      reads this`slaves, this`model, this`repr, this`halves
      reads repr - {slaves[p]}, halves - {slaves[p].arg1, slaves[p].arg2}
    {
      && slaves.Keys == model.tasks.Keys
      && forall q :: q in slaves && q != p ==> slaves[q].pid == q && Owns(slaves[q]) && slaves[q].View() == model.tasks[q]
    }

    /** The model follows the change of one task and of the counters. */
    ghost method Follow(p: Pid, s': State)
      requires p in slaves && slaves[p].pid == p && Owns(slaves[p]) && Others(p)
      requires s'.tasks == model.tasks[p := slaves[p].View()] && calls == s'.calls && fault == s'.fault
      modifies this`model
      ensures Valid() && model == s'
    {
      model := s';
    }

    method EntryStop(setup: Setup, p: Pid, nr: nat, k: Kind, ghost stuck: bool, ghost s': State)
      requires Valid() && p in slaves && Idle(model.tasks[p], stuck) && nr != 0
      requires k.Wait? || k.OnDescriptor? ==> k.next in {NoHandler, NoPaths, ReturnSaved}
      requires var o := Enter(setup, model.tasks[p], nr, k, calls);
               s'.tasks == model.tasks[p := o.task] && s'.calls == calls + 1 && s'.fault == o.quit
      modifies this`calls, this`fault, this`model, repr, halves
      ensures Valid() && model == s'
    {
      assert slaves[p].View() == model.tasks[p] && Others(p);
      var quit := slaves[p].HandleEntry(setup, nr, k, calls, stuck);
      calls, fault := calls + 1, quit;
      Follow(p, s');
    }

    /** A new task beside the others. */
    method Insert(c: Slave, ghost s': State)
      requires Valid() && c.pid !in slaves && c.Apart() && s' == model.(tasks := model.tasks[c.pid := c.View()])
      modifies this`slaves, this`model, this`repr, this`halves
      ensures Valid() && model == s' && repr == old(repr) + {c} && halves == old(halves) + {c.arg1, c.arg2}
    {
      slaves := slaves[c.pid := c];
      repr, halves := repr + {c}, halves + {c.arg1, c.arg2};
      model := s';
    }

    method ExitStop(setup: Setup, p: Pid, b: Back, ghost stuck: bool, ghost s1: State) returns (child: Slave?)
      requires Valid() && p in slaves && Busy(model.tasks[p], stuck)
      requires var l := Leave(setup, model.tasks[p], b);
               s1.tasks == model.tasks[p := l.task] && s1.calls == calls && s1.fault == l.quit
      modifies this`fault, this`model, repr, halves
      ensures Valid() && model == s1
      ensures (child == null <==> Leave(setup, old(model.tasks)[p], b).child.None?)
      ensures child != null ==> fresh(child) && fresh(child.arg1) && fresh(child.arg2) && child.Apart() && child.pid == b.ret
      ensures child != null ==> Leave(setup, old(model.tasks)[p], b).child == Some(child.View())
    {
      assert slaves[p].View() == model.tasks[p] && Others(p);
      var quit, c, ran := slaves[p].HandleExit(setup, b, stuck);
      child := c;
      fault := quit;
      Follow(p, s1);
    }

    method ExitEvent(setup: Setup, e: Event, ghost s': State)
      requires Valid() && e.Exit? && e.pid in slaves && Busy(model.tasks[e.pid], e.pid in model.stuck)
      requires s' == AfterExit(setup, model, e) && (Leave(setup, model.tasks[e.pid], e.back).child.Some? ==> e.back.ret !in slaves)
      modifies this`slaves, this`fault, this`model, this`repr, this`halves, repr, halves
      ensures Valid() && fresh(repr - old(repr)) && fresh(halves - old(halves)) && model == s'
    {
      ghost var l := Leave(setup, model.tasks[e.pid], e.back);
      ghost var s1 := s'.(tasks := model.tasks[e.pid := l.task]);
      var child := ExitStop(setup, e.pid, e.back, e.pid in model.stuck, s1);
      if child != null {
        Insert(child, s');
      }
    }

    /** One stop. OKFS gives up exactly when the theorem about runs says so. */
    method Stop(setup: Setup, e: Event)
      requires Valid() && Inv(model) && fault == None && Legal(model, e)
      modifies this, repr, halves
      ensures Valid() && fresh(repr - old(repr)) && fresh(halves - old(halves))
      ensures model == Step(setup, old(model), e) && Inv(model) && fault == GivesUp(setup, old(model), e)
    {
      StopFacts(setup, model, e);
      ghost var s' := Step(setup, model, e);
      match e {
        case Entry(p, nr, k) => EntryStop(setup, p, nr, k, p in model.stuck, s');
        case Exit(_, _) => ExitEvent(setup, e, s');
        case Death(p) => Remove(p, s');
      }
    }

    /** Stop number i of a run. */
    method StopNumber(setup: Setup, ghost first: Pid, run: seq<Event>, i: nat)
      requires LegalRun(setup, first, run) && i < |run| && LegalRun(setup, first, run[..i])
      requires Valid() && model == After(setup, first, run[..i]) && fault == None
      modifies this, repr, halves
      ensures Valid() && fresh(repr - old(repr)) && fresh(halves - old(halves))
      ensures LegalRun(setup, first, run[..i + 1]) && model == After(setup, first, run[..i + 1])
    {
      PrefixLegal(setup, first, run, i);
      RunKeeps(setup, first, run[..i]);
      Stop(setup, run[i]);
    }

    method Remove(p: Pid, ghost s': State)
      requires Valid() && s'.tasks == model.tasks - {p} && s'.calls == calls && s'.fault == fault
      modifies this`slaves, this`model
      ensures Valid() && model == s'
    {
      slaves := slaves - {p};
      model := s';
    }
  }

  /** The exit of a task, as a change of the table. */
  ghost function AfterExit(setup: Setup, s: State, e: Event): State
    requires e.Exit? && e.pid in s.tasks
  {
    var l := Leave(setup, s.tasks[e.pid], e.back);
    var tasks := s.tasks[e.pid := l.task];
    s.(tasks := if l.child.Some? then tasks[e.back.ret := l.child.value] else tasks,
       inCall := s.inCall - {e.pid},
       ran := if l.ran then s.ran + [s.tasks[e.pid].serial] else s.ran,
       stuck := if ForkFails(s, e) then s.stuck + {e.pid} else s.stuck,
       used := if l.child.Some? then s.used + {e.back.ret} else s.used,
       fault := l.quit)
  }

  /** What the invariant says about one stop. */
  lemma StopFacts(setup: Setup, s: State, e: Event)
    requires Inv(s) && s.fault.None? && Legal(s, e)
    ensures Inv(Step(setup, s, e)) && Step(setup, s, e).fault == GivesUp(setup, s, e)
    ensures e.Entry? ==>
              && Idle(s.tasks[e.pid], e.pid in s.stuck)
              && var o := Enter(setup, s.tasks[e.pid], e.nr, e.kind, s.calls);
                 var s' := Step(setup, s, e);
                 s'.tasks == s.tasks[e.pid := o.task] && s'.calls == s.calls + 1 && s'.fault == o.quit
    ensures e.Exit? ==>
              && Busy(s.tasks[e.pid], e.pid in s.stuck)
              && Step(setup, s, e) == AfterExit(setup, s, e)
              && (Leave(setup, s.tasks[e.pid], e.back).child.Some? ==> e.back.ret !in s.tasks)
    ensures e.Death? ==> var s' := Step(setup, s, e); s'.tasks == s.tasks - {e.pid} && s'.calls == s.calls && s'.fault == s.fault
  {
    StepKeeps(setup, s, e);
    if e.Exit? {
      LeaveKeeps(setup, s.tasks[e.pid], e.back, e.pid in s.stuck);
    }
  }

  lemma {:induction false} PrefixLegal(setup: Setup, first: Pid, run: seq<Event>, i: nat)
    requires LegalRun(setup, first, run) && i < |run|
    ensures LegalRun(setup, first, run[..i]) && Legal(After(setup, first, run[..i]), run[i])
    ensures LegalRun(setup, first, run[..i + 1]) && After(setup, first, run[..i + 1]) == Step(setup, After(setup, first, run[..i]), run[i])
  {
    if i < |run| - 1 {
      PrefixLegal(setup, first, run[..|run| - 1], i);
      assert run[..|run| - 1][..i] == run[..i] && run[..|run| - 1][..i + 1] == run[..i + 1];
    } else {
      assert run[..i + 1] == run;
    }
  }

  lemma {:induction false} FaultStays(setup: Setup, first: Pid, run: seq<Event>, i: nat)
    requires LegalRun(setup, first, run) && i <= |run| && LegalRun(setup, first, run[..i]) && After(setup, first, run[..i]).fault.Some?
    ensures After(setup, first, run) == After(setup, first, run[..i])
  {
    if i == |run| {
      assert run[..i] == run;
    } else {
      assert run[..|run| - 1][..i] == run[..i];
      FaultStays(setup, first, run[..|run| - 1], i);
    }
  }

  /** A whole run of stops: the objects end in the state of the model, and OKFS has given up exactly
      when some task used its memory after a fork of its own had failed, or gave a bad address. */
  method Trace(setup: Setup, first: Pid, run: seq<Event>) returns (fault: Option<Fault>)
    requires LegalRun(setup, first, run)
    ensures fault == After(setup, first, run).fault
    ensures fault.Some? <==> Ends(setup, first, run)
  {
    fault := TraceAll(setup, first, run);
    FatalRunExactly(setup, first, run);
  }

  method TraceAll(setup: Setup, first: Pid, run: seq<Event>) returns (fault: Option<Fault>)
    requires LegalRun(setup, first, run)
    ensures fault == After(setup, first, run).fault
  {
    var tracer := new Tracer(first);
    var i := 0;
    assert run[..0] == [];
    while i < |run| && tracer.fault == None
      invariant 0 <= i <= |run| && LegalRun(setup, first, run[..i])
      invariant tracer.Valid() && tracer.model == After(setup, first, run[..i])
      invariant fresh(tracer) && fresh(tracer.repr) && fresh(tracer.halves)
    {
      tracer.StopNumber(setup, first, run, i);
      i := i + 1;
    }
    if tracer.fault.Some? {
      FaultStays(setup, first, run, i);
    } else {
      assert run[..i] == run;
    }
    return tracer.fault;
  }
}
