/** Over every run counts are exact, files are closed once and the tables agree with the kernel. The
    shipped build never gives up; the debug build does so exactly when a close fails. */
module FdTheorems {
  import opened Common
  import opened FdModel
  import opened FdLaws

  // ----- agreement with the kernel -----

  /** A tracked slot is open with the same flag; an untracked one has its flag clear. */
  ghost predicate SlotAgrees(t: Fds, k: map<int, bool>, i: int)
    requires WellFormed(t) && InRange(i)
  {
    if t.fdTab[i].Some? then i in k && k[i] == t.closeOnExec[i] else !t.closeOnExec[i]
  }

  ghost predicate Agree(t: Fds, k: map<int, bool>)
    requires WellFormed(t)
  {
    forall i :: InRange(i) ==> SlotAgrees(t, k, i)
  }

  ghost predicate AgreeBut(t: Fds, k: map<int, bool>, x: int)
    requires WellFormed(t)
  {
    forall i :: InRange(i) && i != x ==> SlotAgrees(t, k, i)
  }

  /** A descriptor the kernel has just handed out: nothing is tracked there yet. */
  ghost predicate NewSlot(t: Fds, k: map<int, bool>, fd: int)
    requires WellFormed(t)
  {
    InRange(fd) ==> t.fdTab[fd].None? && fd in k && !k[fd]
  }

  /** What holds between the kernel's half of a call and the handler's. */
  ghost predicate DueOk(t: Fds, k: map<int, bool>, due: Due)
    requires WellFormed(t)
  {
    match due
    case NoHandler => Agree(t, k)
    case AfterOpen(ret, _, _) => Agree(t, k) && NewSlot(t, k, ret)
    case AfterClose(fd, _, _) => Tracked(t, fd) && AgreeBut(t, k, fd)
    case AfterDup(fd, ret) => Agree(t, k) && Tracked(t, fd) && NewSlot(t, k, ret)
    case AfterDup2(fd, ret) =>
      if !InRange(ret) then Agree(t, k)
      else AgreeBut(t, k, ret) && ret in k && (ret != fd ==> !k[ret]) && (t.fdTab[ret].None? ==> !t.closeOnExec[ret])
    case AfterGetFd(fd, ret) => Agree(t, k) && Tracked(t, fd) && ret == (if t.closeOnExec[fd] then 1 else 0)
    case AfterSetFd(fd, cloexec, ret) => ret == 0 && Tracked(t, fd) && AgreeBut(t, k, fd) && fd in k && k[fd] == cloexec
    case AfterExec(ok) =>
      if ok then forall i :: InRange(i) ==> ExecAgrees(t, k, i) else Agree(t, k)
    case AfterFork(_) => Agree(t, k)
  }

  ghost predicate ExecAgrees(t: Fds, k: map<int, bool>, i: int)
    requires WellFormed(t) && InRange(i)
  {
    if t.fdTab[i].None? then !t.closeOnExec[i] else t.closeOnExec[i] || (i in k && !k[i])
  }

  ghost predicate ProcOk(pr: Proc) {
    WellFormed(pr.fds) && if pr.due.None? then Agree(pr.fds, pr.kernel) else DueOk(pr.fds, pr.kernel, pr.due.value)
  }

  ghost predicate Inv(s: State) {
    RefOk(s) && !s.aborted && forall p :: p in s.procs ==> ProcOk(s.procs[p])
  }

  lemma InitialInv(s: State)
    requires Initial(s)
    ensures Inv(s)
  {
    forall q, i | q in s.procs && InRange(i) ensures SlotOk(s, q, i) {
    }
    forall q, i | q in s.procs && InRange(i) ensures SlotAgrees(s.procs[q].fds, s.procs[q].kernel, i) {
    }
  }

  // ----- the kernel's half -----

  lemma CallKeeps(t: Fds, k: map<int, bool>, s: State, p: Pid, c: Syscall)
    requires p in s.procs && s.procs[p].fds == t && s.procs[p].kernel == k
    requires WellFormed(t) && Agree(t, k) && KernelAllows(s, p, c)
    ensures DueOk(t, KernelRuns(k, c), BeforeCall(t, c))
  {
    var k' := KernelRuns(k, c);
    forall i | InRange(i) && i in k' && i in k && k'[i] == k[i] ensures SlotAgrees(t, k', i) {
      assert SlotAgrees(t, k, i);
    }
    forall i | InRange(i) && t.fdTab[i].None? ensures SlotAgrees(t, k', i) {
      assert SlotAgrees(t, k, i);
    }
    forall i | InRange(i) && t.fdTab[i].Some? ensures i in k && k[i] == t.closeOnExec[i] {
      assert SlotAgrees(t, k, i);
    }
  }

  lemma SameTables(s: State, s': State)
    requires RefOk(s) && s'.procs.Keys == s.procs.Keys && s' == s.(procs := s'.procs)
    requires forall q :: q in s.procs ==> s'.procs[q].fds == s.procs[q].fds
    ensures RefOk(s')
  {
    forall f | f in s'.files ensures FileOk(s', f) {
      assert FileOk(s, f);
      assert Slots(s'.procs, f) == Slots(s.procs, f);
    }
    forall q, i | q in s'.procs && InRange(i) ensures SlotOk(s', q, i) {
      assert SlotOk(s, q, i);
    }
  }

  // ----- the handler's half -----

  /** The handler leaves a table that agrees with the kernel again. */
  ghost predicate HandlerOk(s: State, s': State, p: Pid)
    requires p in s.procs
  {
    && RefOk(s') && !s'.aborted && p in s'.procs
    && s'.procs[p] == s.procs[p].(fds := s'.procs[p].fds)
    && Agree(s'.procs[p].fds, s'.procs[p].kernel)
    && (forall q :: q in s.procs && q != p ==> q in s'.procs && s'.procs[q] == s.procs[q])
    && (forall q :: q in s'.procs && q !in s.procs ==> s'.procs[q] == Proc(s.procs[p].fds, s.procs[p].kernel, None))
  }

  lemma HandlerDone(s: State, s': State, p: Pid, t': Fds)
    requires p in s.procs && RefOk(s') && !s'.aborted && OnlyFds(s, s', p, t')
    requires WellFormed(t') && Agree(t', s.procs[p].kernel)
    ensures HandlerOk(s, s', p)
  {
  }

  lemma OpenKeeps(s: State, p: Pid, ret: int, managed: bool, fsfd: int)
    requires RefOk(s) && !s.aborted && p in s.procs && InRange(ret)
    requires Agree(s.procs[p].fds, s.procs[p].kernel) && NewSlot(s.procs[p].fds, s.procs[p].kernel, ret)
    ensures HandlerOk(s, AddNewFd(s, p, ret, managed, fsfd), p)
  {
    var t, k := s.procs[p].fds, s.procs[p].kernel;
    assert SlotAgrees(t, k, ret);
    AddNewRef(s, p, ret, managed, fsfd);
    AgreeAfterSet(t, Added(t, ret, s.nextId, fsfd), k, ret);
    HandlerDone(s, AddNewFd(s, p, ret, managed, fsfd), p, Added(t, ret, s.nextId, fsfd));
  }

  lemma CloseKeeps(s: State, p: Pid, fd: int, ret: int, fsRet: int)
    requires RefOk(s) && !s.aborted && p in s.procs && Tracked(s.procs[p].fds, fd) && !(s.asserts && CloseFails(s, p, fd, ret, fsRet))
    requires AgreeBut(s.procs[p].fds, s.procs[p].kernel, fd)
    ensures HandlerOk(s, AfterCloseCall(s, p, fd, ret, fsRet), p) && HandlerOk(s, CloseFd(s, p, fd), p)
  {
    var t, k := s.procs[p].fds, s.procs[p].kernel;
    AfterCloseRef(s, p, fd, ret, fsRet);
    CloseFdRef(s, p, fd);
    AgreeAfterSet(t, Cleared(t, fd), k, fd);
    HandlerDone(s, AfterCloseCall(s, p, fd, ret, fsRet), p, Cleared(t, fd));
    HandlerDone(s, CloseFd(s, p, fd), p, Cleared(t, fd));
  }

  lemma DupKeeps(s: State, p: Pid, fd: int, ret: int)
    requires RefOk(s) && !s.aborted && p in s.procs && Tracked(s.procs[p].fds, fd) && InRange(ret)
    requires Agree(s.procs[p].fds, s.procs[p].kernel) && NewSlot(s.procs[p].fds, s.procs[p].kernel, ret)
    ensures HandlerOk(s, DoDup(s, p, fd, ret), p)
  {
    var t, k := s.procs[p].fds, s.procs[p].kernel;
    DoDupRef(s, p, fd, ret);
    AgreeAfterSet(t, Duplicated(t, fd, ret), k, ret);
    HandlerDone(s, DoDup(s, p, fd, ret), p, Duplicated(t, fd, ret));
  }

  lemma Dup2Keeps(s: State, p: Pid, fd: int, ret: int)
    requires RefOk(s) && !s.aborted && p in s.procs && InRange(ret)
    requires DueOk(s.procs[p].fds, s.procs[p].kernel, AfterDup2(fd, ret))
    ensures HandlerOk(s, AfterDup2Call(s, p, fd, ret), p)
  {
    var t, k := s.procs[p].fds, s.procs[p].kernel;
    if Tracked(t, ret) {
      CloseKeeps(s, p, ret, 0, 0);
      CloseFdRef(s, p, ret);
    } else {
      AgreeAfterSet(t, t, k, ret);
    }
    var s1 := if Tracked(t, ret) then CloseFd(s, p, ret) else s;
    assert HandlerOk(s, s1, p) && !Tracked(s1.procs[p].fds, ret);
    if Tracked(s1.procs[p].fds, fd) {
      DupKeeps(s1, p, fd, ret);
    }
  }

  lemma ExecKeeps(s: State, p: Pid)
    requires RefOk(s) && !s.aborted && p in s.procs && DueOk(s.procs[p].fds, s.procs[p].kernel, AfterExec(true))
    ensures HandlerOk(s, CloseFrom(s, p, 0, true), p)
  {
    CloseFromRef(s, p, 0, true);
    var s' := CloseFrom(s, p, 0, true);
    AgreeAfterExec(s.procs[p].fds, s'.procs[p].fds, s.procs[p].kernel);
    HandlerDone(s, s', p, s'.procs[p].fds);
  }

  lemma HandlerKeeps(s: State, p: Pid, due: Due)
    requires RefOk(s) && !s.aborted && p in s.procs && DueOk(s.procs[p].fds, s.procs[p].kernel, due)
    requires due.AfterFork? && due.child.Some? ==> due.child.value !in s.procs
    requires due.AfterClose? ==> !(s.asserts && CloseFails(s, p, due.fd, due.ret, due.fsRet))
    ensures HandlerOk(s, RunHandler(s, p, due), p)
  {
    match due
    case NoHandler =>
    case AfterOpen(ret, managed, fsfd) => if InRange(ret) { OpenKeeps(s, p, ret, managed, fsfd); }
    case AfterClose(fd, ret, fsRet) => CloseKeeps(s, p, fd, ret, fsRet);
    case AfterDup(fd, ret) => if InRange(ret) { DupKeeps(s, p, fd, ret); }
    case AfterDup2(fd, ret) => if InRange(ret) { Dup2Keeps(s, p, fd, ret); }
    case AfterGetFd(fd, ret) =>
    case AfterSetFd(fd, cloexec, _) => SetFdKeeps(s, p, fd, cloexec);
    case AfterExec(ok) => if ok { ExecKeeps(s, p); }
    case AfterFork(child) => if child.Some? { ForkRef(s, p, child.value); }
  }

  /** A change of one slot that leaves it in agreement. */
  lemma AgreeAfterSet(t: Fds, t': Fds, k: map<int, bool>, x: int)
    requires WellFormed(t) && WellFormed(t') && InRange(x) && AgreeBut(t, k, x) && SlotAgrees(t', k, x)
    requires forall i :: InRange(i) && i != x ==> t'.fdTab[i] == t.fdTab[i] && t'.closeOnExec[i] == t.closeOnExec[i]
    ensures Agree(t', k)
  {
    forall i | InRange(i) && i != x ensures SlotAgrees(t', k, i) {
      assert SlotAgrees(t, k, i);
    }
  }

  lemma AgreeAfterExec(t: Fds, t': Fds, k: map<int, bool>)
    requires ClosedFrom(t, t', 0, true)
    requires forall i :: InRange(i) ==> ExecAgrees(t, k, i)
    ensures Agree(t', k)
  {
    forall i | InRange(i) ensures SlotAgrees(t', k, i) {
      assert ExecAgrees(t, k, i) && IndexClosed(t, t', i, 0, true);
    }
  }

  lemma SetFdKeeps(s: State, p: Pid, fd: int, cloexec: bool)
    requires RefOk(s) && !s.aborted && p in s.procs && DueOk(s.procs[p].fds, s.procs[p].kernel, AfterSetFd(fd, cloexec, 0))
    ensures HandlerOk(s, RunHandler(s, p, AfterSetFd(fd, cloexec, 0)), p)
  {
    var t, k := s.procs[p].fds, s.procs[p].kernel;
    var t' := t.(closeOnExec := t.closeOnExec[fd := cloexec]);
    AgreeAfterSet(t, t', k, fd);
    var s' := SetFds(s, p, t');
    forall f | f in s'.files ensures FileOk(s', f) {
      assert FileOk(s, f);
      assert Slots(s'.procs, f) == Slots(s.procs, f);
    }
    forall q, i | q in s'.procs && InRange(i) ensures SlotOk(s', q, i) {
      assert SlotOk(s, q, i);
    }
  }

  // ----- steps and runs -----

  lemma SlotsAfterDrop(procs: map<Pid, Proc>, p: Pid, f: FileId)
    requires p in procs && forall i :: 0 <= i < |procs[p].fds.fdTab| ==> procs[p].fds.fdTab[i].None?
    ensures Slots(procs - {p}, f) == Slots(procs, f)
  {
    forall q, i ensures (q, i) in Slots(procs - {p}, f) <==> (q, i) in Slots(procs, f) {
    }
  }

  /** A task without descriptors can go. */
  lemma DropKeeps(s: State, p: Pid)
    requires RefOk(s) && p in s.procs && forall i :: InRange(i) ==> s.procs[p].fds.fdTab[i].None?
    ensures RefOk(s.(procs := s.procs - {p}))
  {
    var s' := s.(procs := s.procs - {p});
    forall f | f in s'.files ensures FileOk(s', f) {
      assert FileOk(s, f);
      SlotsAfterDrop(s.procs, p, f);
    }
    forall q, i | q in s'.procs && InRange(i) ensures SlotOk(s', q, i) {
      assert SlotOk(s, q, i);
    }
  }

  lemma ExitKeeps(s: State, p: Pid)
    requires Inv(s) && p in s.procs
    ensures Inv(Next(s, Exit(p)))
  {
    CloseFromRef(s, p, 0, false);
    var s1 := CloseFrom(s, p, 0, false);
    forall i | InRange(i) ensures s1.procs[p].fds.fdTab[i].None? {
      assert IndexClosed(s.procs[p].fds, s1.procs[p].fds, i, 0, false);
    }
    DropKeeps(s1, p);
    forall q | q in s1.procs && q != p ensures ProcOk(s1.procs[q]) {
      assert ProcOk(s.procs[q]);
    }
  }

  lemma ReturnKeeps(s: State, p: Pid)
    requires Inv(s) && Enabled(s, Return(p)) && !GivesUp(s, Return(p))
    ensures Inv(Next(s, Return(p)))
  {
    assert ProcOk(s.procs[p]);
    var s1 := s.(procs := s.procs[p := s.procs[p].(due := None)]);
    SameTables(s, s1);
    HandlerKeeps(s1, p, s.procs[p].due.value);
    var s' := Next(s, Return(p));
    forall q | q in s'.procs ensures ProcOk(s'.procs[q]) {
      if q !in s.procs { OnlyForksAdd(s1, p, s.procs[p].due.value, q); }
      NewProcOk(s, s1, s', p, q);
    }
  }

  lemma SameBuild(s: State, e: Event)
    requires AllWellFormed(s) && e.pid in s.procs
    ensures Next(s, e).asserts == s.asserts
  {
  }

  lemma StepKeeps(s: State, e: Event)
    requires Inv(s) && Enabled(s, e) && !GivesUp(s, e)
    ensures Inv(Next(s, e))
  {
    match e
    case Call(p, c) =>
      assert ProcOk(s.procs[p]);
      CallKeeps(s.procs[p].fds, s.procs[p].kernel, s, p, c);
      SameTables(s, Next(s, e));
    case Return(p) => ReturnKeeps(s, p);
    case Exit(p) => ExitKeeps(s, p);
  }

  lemma OnlyForksAdd(s: State, p: Pid, due: Due, q: Pid)
    requires RefOk(s) && p in s.procs && q !in s.procs && q in RunHandler(s, p, due).procs
    ensures due.AfterFork?
  {
  }

  lemma NewProcOk(s: State, s1: State, s': State, p: Pid, q: Pid)
    requires Inv(s) && p in s.procs && s.procs[p].due.Some?
    requires s1 == s.(procs := s.procs[p := s.procs[p].(due := None)]) && HandlerOk(s1, s', p) && q in s'.procs
    requires q !in s.procs ==> s.procs[p].due.value.AfterFork?
    ensures ProcOk(s'.procs[q])
  {
    assert ProcOk(s.procs[p]);
    if q in s.procs && q != p {
      assert ProcOk(s.procs[q]);
    }
  }

  /** After every run the invariant holds, unless the debug build has given up, which happens exactly
      when some close fails along the run. */
  lemma {:induction false} RunKeeps(s: State, run: seq<Event>)
    requires Inv(s) && Legal(s, run)
    ensures After(s, run).asserts == s.asserts
    ensures After(s, run).aborted <==> s.asserts && ClosesFail(s, run)
    ensures !After(s, run).aborted ==> Inv(After(s, run))
    decreases |run|
  {
    if run != [] {
      SameBuild(s, run[0]);
      if GivesUp(s, run[0]) {
        FailedCloseAborts(s, run[0]);
        assert run[1..] == [];
      } else {
        StepKeeps(s, run[0]);
        RunKeeps(Next(s, run[0]), run[1..]);
      }
    }
  }

  /** The debug build gives up exactly at the end of a close that failed, the shipped build never; no
      assertion on slots, counts or flags would ever fail, and no null or freed pointer is followed. */
  lemma GivesUpExactly(s: State, e: Event)
    requires Inv(s) && Enabled(s, e)
    ensures Next(s, e).aborted <==> s.asserts && FailedClose(s, e)
  {
    if GivesUp(s, e) {
      FailedCloseAborts(s, e);
    } else {
      StepKeeps(s, e);
    }
  }

  lemma FailedCloseAborts(s: State, e: Event)
    requires Inv(s) && Enabled(s, e) && GivesUp(s, e)
    ensures Next(s, e).aborted
  {
    var p, d := e.pid, s.procs[e.pid].due.value;
    assert ProcOk(s.procs[p]) && Tracked(s.procs[p].fds, d.fd);
  }

  /** The shipped build runs on over every run, failed closes included. */
  lemma ShippedNeverGivesUp(s: State, run: seq<Event>)
    requires Initial(s) && Legal(s, run) && !s.asserts
    ensures !After(s, run).aborted && Inv(After(s, run))
  {
    InitialInv(s);
    RunKeeps(s, run);
  }

  // ----- what the invariant says -----

  /** In every state that the shipped build reaches, and in the debug build while no close has failed,
      every live file counts exactly its slots, and every slot points to a live file with that file's
      fsfd. */
  lemma CountsAreExact(s: State, run: seq<Event>)
    requires Initial(s) && Legal(s, run) && (s.asserts ==> !ClosesFail(s, run))
    ensures var s' := After(s, run);
            && (forall f :: f in s'.files ==> s'.files[f].nshared == |Slots(s'.procs, f)| && Slots(s'.procs, f) != {})
            && (forall p, i, f :: p in s'.procs && (p, i) in Slots(s'.procs, f) ==>
                  f in s'.files && i < |s'.procs[p].fds.fsfd| && s'.procs[p].fds.fsfd[i] == s'.files[f].openFsfd)
  {
    InitialInv(s);
    RunKeeps(s, run);
    var s' := After(s, run);
    forall f | f in s'.files ensures s'.files[f].nshared == |Slots(s'.procs, f)| && Slots(s'.procs, f) != {} {
      FileCounted(s', f);
    }
    forall p, i, f | p in s'.procs && (p, i) in Slots(s'.procs, f)
      ensures f in s'.files && i < |s'.procs[p].fds.fsfd| && s'.procs[p].fds.fsfd[i] == s'.files[f].openFsfd
    {
      SlotLive(s', p, i, f);
    }
  }

  lemma FileCounted(s: State, f: FileId)
    requires RefOk(s) && f in s.files
    ensures s.files[f].nshared == |Slots(s.procs, f)| && Slots(s.procs, f) != {}
  {
    assert FileOk(s, f);
  }

  lemma SlotLive(s: State, p: Pid, i: int, f: FileId)
    requires RefOk(s) && p in s.procs && (p, i) in Slots(s.procs, f)
    ensures f in s.files && 0 <= i < |s.procs[p].fds.fsfd| && s.procs[p].fds.fsfd[i] == s.files[f].openFsfd
  {
    assert WellFormed(s.procs[p].fds);
    assert SlotOk(s, p, i);
  }

  /** Over every run, a file system's close is called at most once for a file, and never for one
      that a slot still points to. */
  lemma ClosedOnce(s: State, run: seq<Event>, i: nat)
    requires Initial(s) && Legal(s, run) && (s.asserts ==> !ClosesFail(s, run)) && i < |After(s, run).closes|
    ensures var s' := After(s, run);
            && (forall j :: 0 <= j < |s'.closes| && j != i ==> s'.closes[j].0 != s'.closes[i].0)
            && s'.closes[i].0 !in s'.files && Slots(s'.procs, s'.closes[i].0) == {}
  {
    InitialInv(s);
    RunKeeps(s, run);
    var s' := After(s, run);
    NoSlotOfUnknown(s', s'.closes[i].0);
  }

  /** Between calls a tracked descriptor is open in the kernel with the same close-on-exec
      flag, so a descriptor that the kernel hands out anew lands in an empty slot. */
  lemma TrackedIsOpen(s: State, run: seq<Event>, p: Pid, fd: int)
    requires Initial(s) && Legal(s, run) && (s.asserts ==> !ClosesFail(s, run))
    requires p in After(s, run).procs && After(s, run).procs[p].due.None?
    ensures var pr := After(s, run).procs[p];
            && WellFormed(pr.fds)
            && (Tracked(pr.fds, fd) ==> fd in pr.kernel && pr.kernel[fd] == pr.fds.closeOnExec[fd])
            && (InRange(fd) && !Tracked(pr.fds, fd) ==> !pr.fds.closeOnExec[fd])
            && (InRange(fd) && fd !in pr.kernel ==> pr.fds.fdTab[fd].None? && !pr.fds.closeOnExec[fd])
  {
    InitialInv(s);
    RunKeeps(s, run);
    var pr := After(s, run).procs[p];
    assert ProcOk(pr);
    if InRange(fd) { assert SlotAgrees(pr.fds, pr.kernel, fd); }
  }

  /** A file system's close is called exactly when a close of the last slot of a file that it
      manages returns, with the fsfd the file was opened with, and then the file is gone. The debug
      build does not get there when the kernel's close has failed, and gives up when the file system's
      close fails. */
  lemma LastCloseOnly(s: State, e: Event)
    requires Inv(s) && Enabled(s, e)
    ensures var s' := Next(s, e);
            s'.closes != s.closes <==>
              && e.Return? && s.procs[e.pid].due.value.AfterClose? && (s.asserts ==> s.procs[e.pid].due.value.ret == 0)
              && var fd := s.procs[e.pid].due.value.fd;
                 Tracked(s.procs[e.pid].fds, fd) &&
                 var f := s.procs[e.pid].fds.fdTab[fd].value;
                 && f in s.files && s.files[f].managed && Slots(s.procs, f) == {(e.pid, fd)}
                 && s'.closes == s.closes + [(f, s.files[f].openFsfd)]
                 && (f !in s'.files || (s.asserts && s'.aborted))
  {
    match e
    case Call(_, _) =>
    case Exit(p) => CloseFromRef(s, p, 0, false);
    case Return(p) =>
      assert ProcOk(s.procs[p]);
      var s1 := s.(procs := s.procs[p := s.procs[p].(due := None)]);
      SameTables(s, s1);
      var due := s.procs[p].due.value;
      if due.AfterClose? {
        LastClose(s, s1, p, due.fd, due.ret, due.fsRet);
      } else {
        OtherHandlers(s1, p, due);
      }
  }

  lemma LastClose(s: State, s1: State, p: Pid, fd: int, ret: int, fsRet: int)
    requires RefOk(s) && RefOk(s1) && p in s.procs && s1 == s.(procs := s.procs[p := s.procs[p].(due := None)])
    requires Tracked(s.procs[p].fds, fd)
    ensures var f := s.procs[p].fds.fdTab[fd].value;
            var s' := AfterCloseCall(s1, p, fd, ret, fsRet);
            && f in s.files
            && (s'.closes != s.closes <==> (s.asserts ==> ret == 0) && s.files[f].managed && Slots(s.procs, f) == {(p, fd)})
            && (s'.closes != s.closes ==> s'.closes == s.closes + [(f, s.files[f].openFsfd)] && (f !in s'.files || (s.asserts && s'.aborted)))
  {
    CloseFdShape(s1, p, fd);
    LastSlot(s, p, fd);
  }

  /** A count of one means that this slot is the only one. */
  lemma LastSlot(s: State, p: Pid, fd: int)
    requires RefOk(s) && p in s.procs && Tracked(s.procs[p].fds, fd)
    ensures var f := s.procs[p].fds.fdTab[fd].value;
            && f in s.files && s.procs[p].fds.fsfd[fd] == s.files[f].openFsfd
            && (s.files[f].nshared == 1 <==> Slots(s.procs, f) == {(p, fd)})
  {
    var f := s.procs[p].fds.fdTab[fd].value;
    assert SlotOk(s, p, fd) && FileOk(s, f);
    assert (p, fd) in Slots(s.procs, f);
    SingletonIff(Slots(s.procs, f), (p, fd));
  }

  lemma SingletonIff<T>(xs: set<T>, x: T)
    requires x in xs
    ensures |xs| == 1 <==> xs == {x}
  {
    assert |xs - {x}| == |xs| - 1;
  }

  lemma OtherHandlers(s: State, p: Pid, due: Due)
    requires RefOk(s) && !s.aborted && p in s.procs && DueOk(s.procs[p].fds, s.procs[p].kernel, due) && !due.AfterClose?
    ensures RunHandler(s, p, due).closes == s.closes
  {
    if due.AfterExec? && due.ok {
      CloseFromRef(s, p, 0, true);
    }
  }

  /** A slot that dup2 has written is tracked exactly when the old descriptor was a tracked,
      different one: dup2(fd, fd) leaves an open descriptor that OKFS has forgotten. */
  lemma Dup2Tracks(s: State, p: Pid, fd: int, ret: int)
    requires Inv(s) && p in s.procs && s.procs[p].due == Some(AfterDup2(fd, ret)) && InRange(ret)
    ensures var pr := Next(s, Return(p)).procs[p];
            && (Tracked(pr.fds, ret) <==> Tracked(s.procs[p].fds, fd) && fd != ret)
            && ret in pr.kernel
  {
    assert ProcOk(s.procs[p]);
    var s1 := s.(procs := s.procs[p := s.procs[p].(due := None)]);
    SameTables(s, s1);
    assert ProcOk(s.procs[p]);
    Dup2Effect(s1, p, fd, ret);
  }

  lemma Dup2Effect(s: State, p: Pid, fd: int, ret: int)
    requires RefOk(s) && p in s.procs && InRange(ret)
    ensures var s' := AfterDup2Call(s, p, fd, ret);
            p in s'.procs && s'.procs[p].kernel == s.procs[p].kernel
            && (Tracked(s'.procs[p].fds, ret) <==> Tracked(s.procs[p].fds, fd) && fd != ret)
  {
    Dup2First(s, p, ret);
    var t := s.procs[p].fds;
    var s1 := if Tracked(t, ret) then CloseFd(s, p, ret) else s;
    if Tracked(s1.procs[p].fds, fd) {
      DoDupShape(s1, p, fd, ret);
    }
  }

  /** The target of a dup2 is closed first. */
  lemma Dup2First(s: State, p: Pid, ret: int)
    requires RefOk(s) && p in s.procs && InRange(ret)
    ensures var t := s.procs[p].fds;
            var s1 := if Tracked(t, ret) then CloseFd(s, p, ret) else s;
            && RefOk(s1) && p in s1.procs && s1.procs[p].kernel == s.procs[p].kernel
            && s1.procs[p].fds == if Tracked(t, ret) then Cleared(t, ret) else t
  {
    if Tracked(s.procs[p].fds, ret) {
      CloseFdRef(s, p, ret);
    }
  }
}
