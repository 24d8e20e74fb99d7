/** Descriptor tables shared across tasks (src/filesystems/vfs_fd_calls.c, vfs_open.c,
    src/task.c, src/control.c) beside a model of the kernel's own tables. Live `okfs_file`
    objects are the keys of a map, so a freed file is one that is no longer in it. A call is
    two steps: the kernel runs it (with the before-handler's decision), and later OKFS runs
    the after-handler; other tasks may act in between.

    ASSERT is empty unless DEBUG_OKFS is defined (src/debug.h lines 8-42), and the repository undefines
    it. `asserts` says which build runs: the shipped one goes on where the debug build gives up. */
module FdModel {
  import opened Common

  type FileId = nat

  const OPEN_MAX: nat := 256

  /** `openFsfd` is the fsfd the file was opened with; no code reads it. */
  datatype OkfsFile = OkfsFile(nshared: int, managed: bool, openFsfd: int)

  /** The three arrays of `struct task`. */
  datatype Fds = Fds(fdTab: seq<Option<FileId>>, closeOnExec: seq<bool>, fsfd: seq<int>)

  /** The after-handler that is due, with the arguments and the kernel's return value. */
  datatype Due =
    | NoHandler
    | AfterOpen(ret: int, managed: bool, newFsfd: int)
    | AfterClose(fd: int, ret: int, fsRet: int)
    | AfterDup(fd: int, ret: int)
    | AfterDup2(fd: int, ret: int)
    | AfterGetFd(fd: int, ret: int)
    | AfterSetFd(fd: int, cloexec: bool, ret: int)
    | AfterExec(ok: bool)
    | AfterFork(child: Option<Pid>)

  /** `kernel` is the kernel's table: the open descriptors with their close-on-exec flags. */
  datatype Proc = Proc(fds: Fds, kernel: map<int, bool>, due: Option<Due>)

  /** `closes` lists the calls of a file system's close: which file, with which fsfd. `aborted` is the
      end of OKFS, by a failed assertion or by a null or freed pointer that is followed. */
  datatype State = State(
    procs: map<Pid, Proc>,
    files: map<FileId, OkfsFile>,
    nextId: FileId,
    closes: seq<(FileId, int)>,
    aborted: bool,
    asserts: bool)

  datatype Syscall =
    | Open(ret: int, managed: bool, newFsfd: int)
    | OpenUntracked(ret: int)
    | Close(fd: int, ret: int, fsRet: int) // fsRet is what the file system's close will answer
    | Dup(fd: int, ret: int)
    | Dup2(fd: int, newfd: int, ret: int)
    | DupFd(fd: int, ret: int)
    | GetFd(fd: int, ret: int)
    | SetFd(fd: int, cloexec: bool, ret: int)
    | Exec(ok: bool)
    | Fork(child: Option<Pid>)

  datatype Event = Call(pid: Pid, call: Syscall) | Return(pid: Pid) | Exit(pid: Pid)

  // ----- tables -----

  function Repeat<T>(n: nat, v: T): (r: seq<T>)
    ensures |r| == n && forall i :: 0 <= i < n ==> r[i] == v
  {
    if n == 0 then [] else Repeat(n - 1, v) + [v]
  }

  function EmptyFds(): Fds {
    Fds(Repeat(OPEN_MAX, None), Repeat(OPEN_MAX, false), Repeat(OPEN_MAX, 0))
  }

  predicate InRange(fd: int) {
    0 <= fd < OPEN_MAX
  }

  predicate WellFormed(t: Fds) {
    |t.fdTab| == OPEN_MAX && |t.closeOnExec| == OPEN_MAX && |t.fsfd| == OPEN_MAX
  }

  predicate Tracked(t: Fds, fd: int) {
    0 <= fd < |t.fdTab| && t.fdTab[fd].Some?
  }

  predicate AllWellFormed(s: State) {
    forall p :: p in s.procs ==> WellFormed(s.procs[p].fds)
  }

  function SetFds(s: State, p: Pid, t: Fds): State
    requires p in s.procs
  {
    s.(procs := s.procs[p := s.procs[p].(fds := t)])
  }

  /** The slot writes of okfs_close_fd, okfs_do_dup and add_new_fd. */
  function Cleared(t: Fds, fd: int): (r: Fds)
    requires WellFormed(t) && InRange(fd)
    ensures WellFormed(r)
  {
    t.(fdTab := t.fdTab[fd := None], closeOnExec := t.closeOnExec[fd := false])
  }

  function Duplicated(t: Fds, oldfd: int, newfd: int): (r: Fds)
    requires WellFormed(t) && InRange(oldfd) && InRange(newfd)
    ensures WellFormed(r)
  {
    t.(fdTab := t.fdTab[newfd := t.fdTab[oldfd]], closeOnExec := t.closeOnExec[newfd := false], fsfd := t.fsfd[newfd := t.fsfd[oldfd]])
  }

  function Added(t: Fds, fd: int, f: FileId, newFsfd: int): (r: Fds)
    requires WellFormed(t) && InRange(fd)
    ensures WellFormed(r)
  {
    t.(fdTab := t.fdTab[fd := Some(f)], fsfd := t.fsfd[fd := newFsfd])
  }

  function Abort(s: State): State {
    s.(aborted := true)
  }

  // ----- handlers -----

  /** okfs_close_fd (vfs_fd_calls.c lines 91-106). */
  function CloseFd(s: State, p: Pid, fd: int): (r: State)
    requires AllWellFormed(s) && p in s.procs && InRange(fd)
    ensures AllWellFormed(r) && r.procs.Keys == s.procs.Keys && r.asserts == s.asserts
  {
    var t := s.procs[p].fds;
    if t.fdTab[fd].None? || t.fdTab[fd].value !in s.files then Abort(s)
    else
      var f := t.fdTab[fd].value;
      var n := s.files[f].nshared - 1;
      var s' := SetFds(s, p, Cleared(t, fd));
      if s.asserts && n < 0 then Abort(s')
      else s'.(files := if n == 0 then s.files - {f} else s.files[f := s.files[f].(nshared := n)])
  }

  /** okfs_after_close (lines 109-127): the file system's close, for the last sharer only. The debug
      build gives up when the kernel's close or the file system's close has failed. */
  function AfterCloseCall(s: State, p: Pid, fd: int, ret: int, fsRet: int): State
    requires AllWellFormed(s) && p in s.procs && InRange(fd)
  {
    var t := s.procs[p].fds;
    if t.fdTab[fd].None? || t.fdTab[fd].value !in s.files || (s.asserts && ret != 0) then Abort(s)
    else
      var f := t.fdTab[fd].value;
      if s.files[f].managed && s.files[f].nshared == 1 then
        var s' := s.(closes := s.closes + [(f, t.fsfd[fd])]);
        if s.asserts && fsRet != 0 then Abort(s') else CloseFd(s', p, fd)
      else CloseFd(s, p, fd)
  }

  /** The handler of a close finds a result that is not zero. */
  predicate CloseFails(s: State, p: Pid, fd: int, ret: int, fsRet: int) {
    ret != 0 ||
    (fsRet != 0 && p in s.procs && Tracked(s.procs[p].fds, fd) &&
     var f := s.procs[p].fds.fdTab[fd].value; f in s.files && s.files[f].managed && s.files[f].nshared == 1)
  }

  /** okfs_do_dup (lines 259-271). */
  function DoDup(s: State, p: Pid, oldfd: int, newfd: int): (r: State)
    requires AllWellFormed(s) && p in s.procs && newfd < OPEN_MAX
    ensures AllWellFormed(r)
  {
    var t := s.procs[p].fds;
    if newfd < 0 then s
    else if !Tracked(t, oldfd) || t.fdTab[oldfd].value !in s.files then Abort(s)
    else
      var f := t.fdTab[oldfd].value;
      SetFds(s, p, Duplicated(t, oldfd, newfd)).(files := s.files[f := s.files[f].(nshared := s.files[f].nshared + 1)])
  }

  /** okfs_dup2 (lines 282-300). */
  function AfterDup2Call(s: State, p: Pid, oldfd: int, newfd: int): State
    requires AllWellFormed(s) && p in s.procs
  {
    if newfd < 0 || newfd >= OPEN_MAX then s
    else
      var s' := if Tracked(s.procs[p].fds, newfd) then CloseFd(s, p, newfd) else s;
      if Tracked(s'.procs[p].fds, oldfd) then DoDup(s', p, oldfd, newfd) else s'
  }

  /** add_new_fd (vfs_open.c lines 46-69). */
  function AddNewFd(s: State, p: Pid, osfd: int, managed: bool, newFsfd: int): State
    requires AllWellFormed(s) && p in s.procs && InRange(osfd)
  {
    var t := s.procs[p].fds;
    if s.asserts && t.fdTab[osfd].Some? then Abort(s)
    else
      SetFds(s, p, Added(t, osfd, s.nextId, newFsfd))
        .(files := s.files[s.nextId := OkfsFile(1, managed, newFsfd)], nextId := s.nextId + 1)
  }

  /** The loops that close descriptors on exit (task.c lines 46-51) and on exec (control.c
      lines 332-338), from index i on. */
  function CloseFrom(s: State, p: Pid, i: nat, flaggedOnly: bool): (r: State)
    requires AllWellFormed(s) && p in s.procs && i <= OPEN_MAX
    ensures AllWellFormed(r) && r.procs.Keys == s.procs.Keys && r.asserts == s.asserts
    decreases |s.procs.Keys|, OPEN_MAX - i
  {
    if i == OPEN_MAX then s
    else
      var t := s.procs[p].fds;
      CloseFrom(if Tracked(t, i) && (flaggedOnly ==> t.closeOnExec[i]) then CloseFd(s, p, i) else s, p, i + 1, flaggedOnly)
  }

  /** One more sharer for every file in a copied table (task.c lines 175-179). */
  function ShareAll(files: map<FileId, OkfsFile>, tab: seq<Option<FileId>>): map<FileId, OkfsFile>
    decreases |tab|
  {
    if tab == [] then files
    else
      var n := |tab| - 1;
      var files' := ShareAll(files, tab[..n]);
      if tab[n].None? || tab[n].value !in files' then files'
      else files'[tab[n].value := files'[tab[n].value].(nshared := files'[tab[n].value].nshared + 1)]
  }

  /** after_fork with add_slave (task.c lines 167-179): the child shares its parent's descriptors. */
  function AfterForkCall(s: State, p: Pid, child: Option<Pid>): State
    requires p in s.procs
  {
    if child.None? then s
    else
      var pr := s.procs[p];
      s.(procs := s.procs[child.value := Proc(pr.fds, pr.kernel, None)], files := ShareAll(s.files, pr.fds.fdTab))
  }

  /** The after-handlers. */
  function RunHandler(s: State, p: Pid, due: Due): State
    requires AllWellFormed(s) && p in s.procs
  {
    match due
    case NoHandler => s
    case AfterOpen(ret, managed, newFsfd) => if InRange(ret) then AddNewFd(s, p, ret, managed, newFsfd) else s
    case AfterClose(fd, ret, fsRet) => if InRange(fd) then AfterCloseCall(s, p, fd, ret, fsRet) else s
    case AfterDup(fd, ret) => if ret >= OPEN_MAX then s else DoDup(s, p, fd, ret)
    case AfterDup2(fd, ret) => AfterDup2Call(s, p, fd, ret)
    case AfterGetFd(fd, ret) =>
      if s.asserts && ret >= 0 && InRange(fd) && ret != (if s.procs[p].fds.closeOnExec[fd] then 1 else 0) then Abort(s) else s
    case AfterSetFd(fd, cloexec, ret) =>
      var t := s.procs[p].fds;
      if ret >= 0 && InRange(fd) then SetFds(s, p, t.(closeOnExec := t.closeOnExec[fd := cloexec])) else s
    case AfterExec(ok) => if ok then CloseFrom(s, p, 0, true) else s
    case AfterFork(child) => AfterForkCall(s, p, child)
  }

  // ----- the kernel -----

  /** The kernel's choices: a new descriptor is one that was not open, and a descriptor is closed also
      when its close returns an error. */
  predicate KernelAllows(s: State, p: Pid, c: Syscall)
    requires p in s.procs
  {
    var k := s.procs[p].kernel;
    match c
    case Open(ret, _, _) => ret !in k
    case OpenUntracked(ret) => ret !in k
    case Close(_, _, _) => true
    case Dup(fd, ret) => ret < 0 || (fd in k && ret !in k)
    case Dup2(fd, newfd, ret) => ret < 0 || (fd in k && ret == newfd)
    case DupFd(fd, ret) => ret < 0 || (fd in k && ret !in k)
    case GetFd(fd, ret) => ret == if fd !in k then -1 else if k[fd] then 1 else 0
    case SetFd(fd, _, ret) => ret == if fd in k then 0 else -1
    case Exec(_) => true
    case Fork(child) => child.Some? ==> child.value !in s.procs
  }

  /** exec closes what is flagged. */
  function Surviving(k: map<int, bool>): map<int, bool> {
    map fd | fd in k && !k[fd] :: false
  }

  function KernelRuns(k: map<int, bool>, c: Syscall): map<int, bool> {
    match c
    case Open(ret, _, _) => if ret >= 0 then k[ret := false] else k
    case OpenUntracked(ret) => if ret >= 0 then k[ret := false] else k
    case Close(fd, _, _) => k - {fd}
    case Dup(fd, ret) => if ret >= 0 then k[ret := false] else k
    case Dup2(fd, newfd, ret) => if ret >= 0 && fd != newfd then k[newfd := false] else k
    case DupFd(fd, ret) => if ret >= 0 then k[ret := false] else k
    case GetFd(_, _) => k
    case SetFd(fd, cloexec, _) => if fd in k then k[fd := cloexec] else k
    case Exec(ok) => if ok then Surviving(k) else k
    case Fork(_) => k
  }

  /** What the before-handler leaves in next_call, with the kernel's answer. */
  function BeforeCall(t: Fds, c: Syscall): Due {
    match c
    case Open(ret, managed, newFsfd) => AfterOpen(ret, managed, newFsfd)
    case OpenUntracked(_) => NoHandler
    case Close(fd, ret, fsRet) => if Tracked(t, fd) then AfterClose(fd, ret, fsRet) else NoHandler
    case Dup(fd, ret) => if Tracked(t, fd) then AfterDup(fd, ret) else NoHandler
    case Dup2(fd, _, ret) => AfterDup2(fd, ret)
    case DupFd(fd, ret) => if Tracked(t, fd) then AfterDup(fd, ret) else NoHandler
    case GetFd(fd, ret) => if Tracked(t, fd) then AfterGetFd(fd, ret) else NoHandler
    case SetFd(fd, cloexec, ret) => if Tracked(t, fd) then AfterSetFd(fd, cloexec, ret) else NoHandler
    case Exec(ok) => AfterExec(ok)
    case Fork(child) => AfterFork(child)
  }

  // ----- steps -----

  /** The event is the end of a close that has failed. */
  predicate FailedClose(s: State, e: Event) {
    && e.Return? && e.pid in s.procs && s.procs[e.pid].due.Some? && s.procs[e.pid].due.value.AfterClose?
    && var d := s.procs[e.pid].due.value; CloseFails(s, e.pid, d.fd, d.ret, d.fsRet)
  }

  /** Only the debug build gives up there. */
  predicate GivesUp(s: State, e: Event) {
    s.asserts && FailedClose(s, e)
  }

  predicate Enabled(s: State, e: Event) {
    && !s.aborted && AllWellFormed(s)
    && e.pid in s.procs
    && match e
       case Call(p, c) => s.procs[p].due.None? && KernelAllows(s, p, c)
       case Return(p) =>
         s.procs[p].due.Some? && (s.procs[p].due.value.AfterFork? && s.procs[p].due.value.child.Some? ==> s.procs[p].due.value.child.value !in s.procs)
       case Exit(_) => true
  }

  function Next(s: State, e: Event): State
    requires AllWellFormed(s) && e.pid in s.procs
  {
    match e
    case Call(p, c) =>
      var pr := s.procs[p];
      s.(procs := s.procs[p := Proc(pr.fds, KernelRuns(pr.kernel, c), Some(BeforeCall(pr.fds, c)))])
    case Return(p) =>
      if s.procs[p].due.None? then s else
      RunHandler(s.(procs := s.procs[p := s.procs[p].(due := None)]), p, s.procs[p].due.value)
    case Exit(p) =>
      var s' := CloseFrom(s, p, 0, false);
      s'.(procs := s'.procs - {p})
  }

  predicate Legal(s: State, run: seq<Event>)
    decreases |run|
  {
    run == [] || (Enabled(s, run[0]) && Legal(Next(s, run[0]), run[1..]))
  }

  function After(s: State, run: seq<Event>): State
    requires Legal(s, run)
    decreases |run|
  {
    if run == [] then s else After(Next(s, run[0]), run[1..])
  }

  /** Some close fails along the run. */
  predicate ClosesFail(s: State, run: seq<Event>)
    requires Legal(s, run)
    decreases |run|
  {
    run != [] && (FailedClose(s, run[0]) || ClosesFail(Next(s, run[0]), run[1..]))
  }

  function Start(p: Pid, kernel: map<int, bool>, asserts: bool): State {
    State(map[p := Proc(EmptyFds(), kernel, None)], map[], 0, [], false, asserts)
  }

  /** The first task: OKFS tracks none of the descriptors it was started with. */
  ghost predicate Initial(s: State) {
    exists p, k, asserts :: s == Start(p, k, asserts)
  }
}
