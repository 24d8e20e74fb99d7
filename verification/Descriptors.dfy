/** The descriptor handlers over task objects and file objects: slots of many tasks point to one
    file, whose share counter is changed in place through any of them. `model` is the state of the
    step relation that the objects stand for. */
module Descriptors {
  import opened Common
  import opened FdModel
  import opened FdLaws
  import opened FdTheorems

  /** struct okfs_file */
  class SharedFile {
    var nshared: int
    const managed: bool
    ghost const id: FileId
    ghost const openFsfd: int

    constructor (managed: bool, ghost id: FileId, ghost openFsfd: int)
      ensures nshared == 1 && this.managed == managed && this.id == id && this.openFsfd == openFsfd
    {
      nshared := 1;
      this.managed, this.id, this.openFsfd := managed, id, openFsfd;
    }
  }

  /** A slot is empty, or it points to a live file. */
  ghost predicate SlotIs(f: SharedFile?, m: Option<FileId>, live: map<FileId, SharedFile>) {
    if f == null then m == None else m == Some(f.id) && f.id in live && live[f.id] == f
  }

  /** The slots of a task stand for those of the model. */
  ghost predicate Shows(fdTab: seq<SharedFile?>, m: seq<Option<FileId>>, live: map<FileId, SharedFile>) {
    |fdTab| == |m| == OPEN_MAX && forall i :: InRange(i) ==> SlotIs(fdTab[i], m[i], live)
  }

  /** The descriptor part of struct task; `kernel` is the kernel's table. */
  class FdTask {
    const pid: Pid
    var fdTab: seq<SharedFile?>
    var closeOnExec: seq<bool>
    var fsfd: seq<int>
    var due: Option<Due>
    ghost var kernel: map<int, bool>

    constructor (pid: Pid, fdTab: seq<SharedFile?>, closeOnExec: seq<bool>, fsfd: seq<int>, ghost kernel: map<int, bool>)
      ensures this.pid == pid && this.fdTab == fdTab && this.closeOnExec == closeOnExec && this.fsfd == fsfd
      ensures due == None && this.kernel == kernel
    {
      this.pid, this.fdTab, this.closeOnExec, this.fsfd, due, this.kernel := pid, fdTab, closeOnExec, fsfd, None, kernel;
    }

    ghost predicate Is(pr: Proc, live: map<FileId, SharedFile>)
      reads this
    {
      && WellFormed(pr.fds) && Shows(fdTab, pr.fds.fdTab, live)
      && closeOnExec == pr.fds.closeOnExec && fsfd == pr.fds.fsfd && kernel == pr.kernel && due == pr.due
    }

    /** A new file changes nothing for a task, nor does the end of one it does not point to. */
    lemma IsWith(pr: Proc, live: map<FileId, SharedFile>, f: SharedFile)
      requires Is(pr, live) && f.id !in live
      ensures Is(pr, live[f.id := f])
    {
      forall i | InRange(i) ensures SlotIs(fdTab[i], pr.fds.fdTab[i], live[f.id := f]) {
        assert SlotIs(fdTab[i], pr.fds.fdTab[i], live);
      }
    }

    lemma IsWithout(pr: Proc, live: map<FileId, SharedFile>, id: FileId)
      requires Is(pr, live) && forall i :: 0 <= i < |pr.fds.fdTab| ==> pr.fds.fdTab[i] != Some(id)
      ensures Is(pr, live - {id})
    {
      forall i | InRange(i) ensures SlotIs(fdTab[i], pr.fds.fdTab[i], live - {id}) {
        assert SlotIs(fdTab[i], pr.fds.fdTab[i], live);
      }
    }

    method Clear(fd: int, ghost pr: Proc, ghost live: map<FileId, SharedFile>)
      requires Is(pr, live) && InRange(fd)
      modifies this
      ensures Is(pr.(fds := Cleared(pr.fds, fd)), live)
    {
      closeOnExec := closeOnExec[fd := false];
      fdTab := fdTab[fd := null];
    }

    method Fill(fd: int, f: SharedFile, n: int, ghost pr: Proc, ghost live: map<FileId, SharedFile>)
      requires Is(pr, live) && InRange(fd) && f.id in live && live[f.id] == f
      modifies this
      ensures Is(pr.(fds := Added(pr.fds, fd, f.id, n)), live)
    {
      fdTab := fdTab[fd := f];
      fsfd := fsfd[fd := n];
    }

    method Duplicate(oldfd: int, newfd: int, ghost pr: Proc, ghost live: map<FileId, SharedFile>)
      requires Is(pr, live) && InRange(oldfd) && InRange(newfd)
      modifies this
      ensures Is(pr.(fds := Duplicated(pr.fds, oldfd, newfd)), live)
    {
      assert SlotIs(fdTab[oldfd], pr.fds.fdTab[oldfd], live);
      fdTab := fdTab[newfd := fdTab[oldfd]];
      closeOnExec := closeOnExec[newfd := false];
      fsfd := fsfd[newfd := fsfd[oldfd]];
    }

    /** A call is entered: the kernel runs it, and a handler is due behind it. */
    method Enter(d: Due, ghost k: map<int, bool>, ghost pr: Proc, ghost live: map<FileId, SharedFile>)
      requires Is(pr, live)
      modifies this
      ensures Is(pr.(kernel := k, due := Some(d)), live)
    {
      due := Some(d);
      kernel := k;
    }

    method SetFlag(fd: int, b: bool, ghost pr: Proc, ghost live: map<FileId, SharedFile>)
      requires Is(pr, live) && InRange(fd)
      modifies this
      ensures Is(pr.(fds := pr.fds.(closeOnExec := pr.fds.closeOnExec[fd := b])), live)
    {
      closeOnExec := closeOnExec[fd := b];
    }
  }

  ghost predicate FileIs(f: SharedFile, id: FileId, v: OkfsFile)
    reads f
  {
    f.id == id && f.nshared == v.nshared && f.managed == v.managed && f.openFsfd == v.openFsfd
  }

  /** All tasks. `live` are the file objects that have been allocated and not freed; `asserts` is false
      in the build that ships. */
  class Table {
    const asserts: bool
    var tasks: map<Pid, FdTask>
    var aborted: bool
    ghost var live: map<FileId, SharedFile>
    ghost var model: State
    ghost var repr: set<FdTask>
    ghost var files: set<SharedFile>

    /** Tasks and live files are those of the model, and no slot points to a freed file. */
    ghost predicate Valid()
      reads this, repr, files
    {
      && aborted == model.aborted && asserts == model.asserts
      && tasks.Keys == model.procs.Keys && live.Keys == model.files.Keys
      && (forall p :: p in tasks ==> tasks[p] in repr && tasks[p].pid == p && tasks[p].Is(model.procs[p], live))
      && (forall f :: f in live ==> live[f] in files && FileIs(live[f], f, model.files[f]))
    }

    constructor (p: Pid, ghost kernel: map<int, bool>, asserts: bool)
      ensures Valid() && model == Start(p, kernel, asserts) && fresh(repr) && fresh(files)
    {
      var t := new FdTask(p, Repeat(OPEN_MAX, null), Repeat(OPEN_MAX, false), Repeat(OPEN_MAX, 0), kernel);
      tasks := map[p := t];
      aborted := false;
      this.asserts := asserts;
      live := map[];
      model := Start(p, kernel, asserts);
      repr := {t};
      files := {};
    }

    /** A failed assertion of the debug build, or a null pointer that is followed. */
    method Quit()
      requires Valid()
      modifies this`aborted, this`model
      ensures Valid() && model == Abort(old(model))
    {
      aborted := true;
      model := Abort(model);
    }

    /** One sharer more or less. */
    method Count(f: SharedFile, delta: int)
      requires Valid() && f.id in live && live[f.id] == f
      modifies this`model, f
      ensures Valid() && f.nshared == old(f.nshared) + delta && f.id in old(model).files
      ensures model == old(model).(files := old(model.files)[f.id := old(model.files)[f.id].(nshared := f.nshared)])
    {
      f.nshared := f.nshared + delta;
      model := model.(files := model.files[f.id := model.files[f.id].(nshared := f.nshared)]);
    }

    /** The model follows a change of one task object. */
    ghost method Follow(p: Pid, pr: Proc)
      requires p in tasks && tasks[p].Is(pr, live)
      requires aborted == model.aborted && asserts == model.asserts && tasks.Keys == model.procs.Keys && live.Keys == model.files.Keys
      requires forall q :: q in tasks ==> tasks[q] in repr && tasks[q].pid == q && (q != p ==> tasks[q].Is(model.procs[q], live))
      requires forall f :: f in live ==> live[f] in files && FileIs(live[f], f, model.files[f])
      modifies this`model
      ensures Valid() && model == old(model).(procs := old(model.procs)[p := pr])
    {
      model := model.(procs := model.procs[p := pr]);
    }

    method ClearSlot(p: Pid, fd: int)
      requires Valid() && p in tasks && InRange(fd)
      modifies this`model, tasks[p]
      ensures Valid() && WellFormed(old(model.procs)[p].fds) && model == SetFds(old(model), p, Cleared(old(model.procs)[p].fds, fd))
    {
      ghost var pr := model.procs[p];
      assert tasks[p].Is(pr, live);
      tasks[p].Clear(fd, pr, live);
      Follow(p, pr.(fds := Cleared(pr.fds, fd)));
    }

    method FillSlot(p: Pid, fd: int, f: SharedFile, n: int)
      requires Valid() && p in tasks && InRange(fd) && f.id in live && live[f.id] == f
      modifies this`model, tasks[p]
      ensures Valid() && WellFormed(old(model.procs)[p].fds) && model == SetFds(old(model), p, Added(old(model.procs)[p].fds, fd, f.id, n))
    {
      ghost var pr := model.procs[p];
      assert tasks[p].Is(pr, live);
      tasks[p].Fill(fd, f, n, pr, live);
      Follow(p, pr.(fds := Added(pr.fds, fd, f.id, n)));
    }

    method DuplicateSlot(p: Pid, oldfd: int, newfd: int)
      requires Valid() && p in tasks && InRange(oldfd) && InRange(newfd)
      modifies this`model, tasks[p]
      ensures Valid() && WellFormed(old(model.procs)[p].fds) && model == SetFds(old(model), p, Duplicated(old(model.procs)[p].fds, oldfd, newfd))
    {
      ghost var pr := model.procs[p];
      assert tasks[p].Is(pr, live);
      tasks[p].Duplicate(oldfd, newfd, pr, live);
      Follow(p, pr.(fds := Duplicated(pr.fds, oldfd, newfd)));
    }

    /** A file object that no slot points to yet. */
    ghost method Adopt(f: SharedFile)
      requires Valid() && f.id == model.nextId && f.id !in live && f.nshared == 1
      modifies this`model, this`live, this`files
      ensures Valid() && f.id in live && live[f.id] == f && files == old(files) + {f}
      ensures model == old(model).(files := old(model.files)[f.id := OkfsFile(1, f.managed, f.openFsfd)], nextId := f.id + 1)
    {
      ghost var l := live;
      live := live[f.id := f];
      files := files + {f};
      forall p | p in tasks ensures tasks[p].Is(model.procs[p], live) {
        tasks[p].IsWith(model.procs[p], l, f);
      }
      model := model.(files := model.files[f.id := OkfsFile(1, f.managed, f.openFsfd)], nextId := f.id + 1);
    }

    /** free(): no slot points to the file any more. */
    ghost method Free(id: FileId)
      requires Valid() && id in live && Unused(model.procs, id)
      modifies this`live, this`model
      ensures Valid() && model == old(model).(files := old(model.files) - {id})
    {
      ghost var l := live;
      live := live - {id};
      forall p | p in tasks ensures tasks[p].Is(model.procs[p], live) {
        tasks[p].IsWithout(model.procs[p], l, id);
      }
      model := model.(files := model.files - {id});
    }

    /** The file a slot points to. */
    method FileAt(p: Pid, fd: int) returns (f: SharedFile?)
      requires Valid() && p in tasks && InRange(fd)
      ensures WellFormed(model.procs[p].fds)
      ensures f == null ==> model.procs[p].fds.fdTab[fd] == None
      ensures f != null ==>
                && model.procs[p].fds.fdTab[fd] == Some(f.id) && f.id in live && live[f.id] == f && f in files
                && f.id in model.files && f.nshared == model.files[f.id].nshared && f.managed == model.files[f.id].managed
    {
      assert tasks[p].Is(model.procs[p], live);
      f := tasks[p].fdTab[fd];
      assert SlotIs(f, model.procs[p].fds.fdTab[fd], live);
      assert f != null ==> FileIs(live[f.id], f.id, model.files[f.id]);
    }

    /** The statements of okfs_close_fd: the counter, the slot, and the end of the file. */
    method CloseSlot(p: Pid, fd: int, f: SharedFile)
      requires Valid() && p in tasks && Points(model, p, fd, f.id) && f.id in live && live[f.id] == f && f in files
      requires f.nshared == model.files[f.id].nshared && (f.nshared == 1 ==> OnlyAt(model.procs, f.id, p, fd))
      modifies this`model, this`live, tasks[p], f
      ensures Valid() && model == Closed(old(model), p, fd, f.id)
    {
      ghost var s := model;
      Count(f, -1);
      ClearSlot(p, fd);
      if f.nshared == 0 {
        NowUnused(s, p, fd, f.id, model);
        Free(f.id);
      }
    }

    /** okfs_close_fd (src/filesystems/vfs_fd_calls.c lines 91-106) on a tracked slot: the slot is
        empty, and the file has one sharer less or is freed, which happens exactly for its last slot. */
    method CloseFd(p: Pid, fd: int)
      requires Valid() && p in tasks && Closable(model, p, fd)
      modifies this`model, this`live, repr, files
      ensures Valid() && model == ClosedAt(old(model), p, fd)
      ensures var id := old(model.procs)[p].fds.fdTab[fd].value;
              id in live <==> old(model.files)[id].nshared > 1
    {
      var f := FileAt(p, fd);
      CloseSlot(p, fd, f);
    }

    /** okfs_after_close (lines 109-127): the file system's close for the last slot of a managed file;
        the debug build gives up when it or the kernel's close has failed. */
    method AfterClose(p: Pid, fd: int, ret: int, fsRet: int)
      requires Valid() && p in tasks && Closable(model, p, fd)
      modifies this`model, this`live, this`aborted, repr, files
      ensures Valid() && model == AfterClosed(old(model), p, fd, ret, fsRet)
    {
      if asserts && ret != 0 {
        Quit();
        return;
      }
      var f := FileAt(p, fd);
      if f.managed && f.nshared == 1 {
        Record(p, fd, f);
        if asserts && fsRet != 0 {
          Quit();
          return;
        }
      }
      CloseSlot(p, fd, f);
    }

    /** The call of the file system's close. */
    method Record(p: Pid, fd: int, f: SharedFile)
      requires Valid() && p in tasks && InRange(fd)
      modifies this`model
      ensures Valid() && WellFormed(old(model.procs)[p].fds)
      ensures model == old(model).(closes := old(model.closes) + [(f.id, old(model.procs)[p].fds.fsfd[fd])])
    {
      assert tasks[p].Is(model.procs[p], live);
      model := model.(closes := model.closes + [(f.id, model.procs[p].fds.fsfd[fd])]);
    }

    /** okfs_do_dup (lines 259-271): two slots, one file, one sharer more. */
    method DoDup(p: Pid, oldfd: int, newfd: int)
      requires Valid() && AllWellFormed(model) && p in tasks && newfd < OPEN_MAX
      modifies this`model, this`aborted, repr, files
      ensures Valid() && model == FdModel.DoDup(old(model), p, oldfd, newfd)
    {
      if newfd < 0 {
        return;
      }
      if !InRange(oldfd) {
        Quit();
        return;
      }
      var f := FileAt(p, oldfd);
      if f == null {
        Quit();
      } else {
        ShareSlot(p, oldfd, newfd, f);
      }
    }

    method ShareSlot(p: Pid, oldfd: int, newfd: int, f: SharedFile)
      requires Valid() && p in tasks && Points(model, p, oldfd, f.id) && InRange(newfd)
      requires f.id in live && live[f.id] == f && f.nshared == model.files[f.id].nshared
      modifies this`model, tasks[p], f
      ensures Valid()
      ensures model == SetFds(old(model), p, Duplicated(old(model.procs)[p].fds, oldfd, newfd))
                         .(files := old(model.files)[f.id := old(model.files)[f.id].(nshared := old(model.files)[f.id].nshared + 1)])
    {
      DuplicateSlot(p, oldfd, newfd);
      Count(f, 1);
    }

    /** okfs_dup2 (lines 282-300). */
    method AfterDup2(p: Pid, oldfd: int, newfd: int)
      requires Valid() && AllWellFormed(model) && p in tasks
      requires Tracked(model.procs[p].fds, newfd) ==> Closable(model, p, newfd)
      modifies this`model, this`live, this`aborted, repr, files
      ensures Valid() && model == AfterDup2Call(old(model), p, oldfd, newfd)
    {
      if newfd < 0 || newfd >= OPEN_MAX {
        return;
      }
      CloseTarget(p, newfd);
      if 0 <= oldfd < OPEN_MAX {
        var g := FileAt(p, oldfd);
        if g != null {
          DoDup(p, oldfd, newfd);
        }
      }
    }

    /** "if fd2 in use close it" */
    method CloseTarget(p: Pid, newfd: int)
      requires Valid() && AllWellFormed(model) && p in tasks && InRange(newfd)
      requires Tracked(model.procs[p].fds, newfd) ==> Closable(model, p, newfd)
      modifies this`model, this`live, repr, files
      ensures Valid() && AllWellFormed(model)
      ensures model == if Tracked(old(model.procs)[p].fds, newfd) then FdModel.CloseFd(old(model), p, newfd) else old(model)
    {
      var f := FileAt(p, newfd);
      if f != null {
        ClosedIs(model, p, newfd, f.id);
        CloseFd(p, newfd);
      }
    }

    /** add_new_fd (src/filesystems/vfs_open.c lines 46-69): a new file with one slot. */
    method AddNewFd(p: Pid, osfd: int, managed: bool, newFsfd: int)
      requires Valid() && AllWellFormed(model) && p in tasks && InRange(osfd) && model.nextId !in live
      modifies this`model, this`live, this`files, this`aborted, repr
      ensures Valid() && fresh(files - old(files)) && model == FdModel.AddNewFd(old(model), p, osfd, managed, newFsfd)
    {
      var f := FileAt(p, osfd);
      if asserts && f != null {
        Quit();
      } else {
        OpenSlot(p, osfd, managed, newFsfd);
      }
    }

    method OpenSlot(p: Pid, osfd: int, managed: bool, newFsfd: int)
      requires Valid() && p in tasks && InRange(osfd) && model.nextId !in live
      modifies this`model, this`live, this`files, tasks[p]
      ensures Valid() && fresh(files - old(files)) && WellFormed(old(model.procs)[p].fds)
      ensures model == SetFds(old(model), p, Added(old(model.procs)[p].fds, osfd, old(model.nextId), newFsfd))
                         .(files := old(model.files)[old(model.nextId) := OkfsFile(1, managed, newFsfd)], nextId := old(model.nextId) + 1)
    {
      var f := new SharedFile(managed, model.nextId, newFsfd);
      Adopt(f);
      FillSlot(p, osfd, f, newFsfd);
    }

    /** One turn of a closing loop. */
    method CloseTurn(p: Pid, i: nat, flaggedOnly: bool)
      requires Valid() && RefOk(model) && p in tasks && i < OPEN_MAX
      modifies this`model, this`live, repr, files
      ensures Valid() && RefOk(model) && p in model.procs
      ensures CloseFrom(model, p, i + 1, flaggedOnly) == CloseFrom(old(model), p, i, flaggedOnly)
    {
      CloseOneRef(model, p, i, flaggedOnly);
      var f := FileAt(p, i);
      var flag := FlagAt(p, i);
      if f != null && (flaggedOnly ==> flag) {
        CountsAllowClose(model, p, i);
        CloseFd(p, i);
      }
    }

    method FlagAt(p: Pid, fd: int) returns (b: bool)
      requires Valid() && p in tasks && InRange(fd)
      ensures WellFormed(model.procs[p].fds) && b == model.procs[p].fds.closeOnExec[fd]
    {
      assert tasks[p].Is(model.procs[p], live);
      b := tasks[p].closeOnExec[fd];
    }

    /** The closing loops of change_slave_state (src/task.c lines 48-50) and after_execve
        (src/control.c lines 332-338): exactly the slots they should are empty afterwards. */
    method CloseAll(p: Pid, flaggedOnly: bool)
      requires Valid() && RefOk(model) && p in tasks
      modifies this`model, this`live, repr, files
      ensures Valid() && RefOk(model) && model == CloseFrom(old(model), p, 0, flaggedOnly)
    {
      ghost var goal := CloseFrom(model, p, 0, flaggedOnly);
      var i := 0;
      while i < OPEN_MAX
        invariant i <= OPEN_MAX && Valid() && RefOk(model) && p in model.procs
        invariant CloseFrom(model, p, i, flaggedOnly) == goal
      {
        CloseTurn(p, i, flaggedOnly);
        i := i + 1;
      }
      NothingLeft(model, p, flaggedOnly);
    }

    /** The descriptor part of add_slave (src/task.c lines 167-179): the child's slots point to the
        parent's files, and every file has one sharer more for each of its slots. */
    method ShareWithChild(p: Pid, child: Pid)
      requires Valid() && p in tasks && child !in tasks
      modifies this`tasks, this`model, this`repr, files
      ensures Valid() && fresh(repr - old(repr)) && model == AfterForkCall(old(model), p, Some(child))
    {
      Insert(p, child);
      CountShares(child);
    }

    /** The loop of lines 175-179. */
    method CountShares(p: Pid)
      requires Valid() && p in tasks
      modifies this`model, files
      ensures Valid() && model == old(model).(files := ShareAll(old(model.files), old(model.procs)[p].fds.fdTab))
    {
      ghost var s := model;
      ghost var tab := s.procs[p].fds.fdTab;
      assert tasks[p].Is(s.procs[p], live);
      var i := 0;
      while i < OPEN_MAX
        invariant i <= OPEN_MAX && Valid() && |tab| == OPEN_MAX
        invariant model == s.(files := ShareAll(s.files, tab[..i]))
      {
        ShareStep(s.files, tab, i);
        ShareTurn(p, i);
        i := i + 1;
      }
      assert tab[..i] == tab;
    }

    method ShareTurn(p: Pid, i: nat)
      requires Valid() && p in tasks && InRange(i)
      modifies this`model, files
      ensures Valid() && WellFormed(old(model.procs)[p].fds)
      ensures model == old(model).(files := OneShare(old(model.files), old(model.procs)[p].fds.fdTab[i]))
    {
      var f := FileAt(p, i);
      if f != null {
        Count(f, 1);
      }
    }

    /** The copy of the three arrays. */
    method Insert(p: Pid, child: Pid)
      requires Valid() && p in tasks && child !in tasks
      modifies this`tasks, this`model, this`repr
      ensures Valid() && child in tasks && fresh(repr - old(repr)) && |old(model.procs)[p].fds.fdTab| == OPEN_MAX
      ensures model == old(model).(procs := old(model.procs)[child := Proc(old(model.procs)[p].fds, old(model.procs)[p].kernel, None)])
    {
      var t := tasks[p];
      assert t.Is(model.procs[p], live);
      var c := new FdTask(child, t.fdTab, t.closeOnExec, t.fsfd, t.kernel);
      tasks := tasks[child := c];
      repr := repr + {c};
      ghost var pr := Proc(model.procs[p].fds, model.procs[p].kernel, None);
      assert c.Is(pr, live);
      model := model.(procs := model.procs[child := pr]);
    }

    method SetFlag(p: Pid, fd: int, b: bool)
      requires Valid() && p in tasks && InRange(fd)
      modifies this`model, tasks[p]
      ensures Valid() && WellFormed(old(model.procs)[p].fds)
      ensures var t := old(model.procs)[p].fds; model == SetFds(old(model), p, t.(closeOnExec := t.closeOnExec[fd := b]))
    {
      ghost var pr := model.procs[p];
      assert tasks[p].Is(pr, live);
      tasks[p].SetFlag(fd, b, pr, live);
      Follow(p, pr.(fds := pr.fds.(closeOnExec := pr.fds.closeOnExec[fd := b])));
    }

    /** The handler that is due is taken (src/okfs.c lines 130-145). */
    method TakeDue(p: Pid) returns (due: Option<Due>)
      requires Valid() && p in tasks
      modifies this`model, tasks[p]
      ensures Valid() && due == old(model.procs)[p].due
      ensures model == Taken(old(model), p)
    {
      ghost var pr := model.procs[p];
      assert tasks[p].Is(pr, live);
      due := tasks[p].due;
      tasks[p].due := None;
      Follow(p, pr.(due := None));
    }

    /** The handlers that touch slots (the rest of the list is in RunHandler). */
    method RunSlotHandler(p: Pid, due: Due)
      requires Valid() && RefOk(model) && p in tasks && HandlerReady(model, p, due)
      requires due.AfterClose? || due.AfterDup? || due.AfterDup2? || due.AfterSetFd? || due.AfterGetFd?
      modifies this`model, this`live, this`aborted, repr, files
      ensures Valid() && AllWellFormed(old(model)) && model == FdModel.RunHandler(old(model), p, due)
    {
      ghost var s := model;
      if due.AfterClose? {
        CountsAllowClose(s, p, due.fd);
        AfterClosedIs(s, p, due.fd, due.ret, due.fsRet);
        AfterClose(p, due.fd, due.ret, due.fsRet);
      } else if due.AfterDup? {
        if due.ret < OPEN_MAX {
          DoDup(p, due.fd, due.ret);
        }
      } else if due.AfterDup2? {
        if Tracked(s.procs[p].fds, due.ret) {
          CountsAllowClose(s, p, due.ret);
        }
        AfterDup2(p, due.fd, due.ret);
      } else if due.AfterSetFd? {
        if due.ret >= 0 && InRange(due.fd) {
          SetFlag(p, due.fd, due.cloexec);
        }
      } else if asserts && due.ret >= 0 && InRange(due.fd) {
        var flag := FlagAt(p, due.fd);
        if due.ret != (if flag then 1 else 0) {
          Quit();
        }
      }
    }

    /** The handlers of open, exec and fork. */
    method RunTableHandler(p: Pid, due: Due)
      requires Valid() && RefOk(model) && p in tasks && (due.AfterOpen? || due.AfterExec? || due.AfterFork?)
      requires due.AfterFork? && due.child.Some? ==> due.child.value !in tasks
      modifies this, repr, files
      ensures Valid() && fresh(repr - old(repr)) && fresh(files - old(files))
      ensures AllWellFormed(old(model)) && model == FdModel.RunHandler(old(model), p, due)
    {
      if due.AfterOpen? {
        if InRange(due.ret) {
          NextIsNew(model);
          AddNewFd(p, due.ret, due.managed, due.newFsfd);
        }
      } else if due.AfterExec? {
        if due.ok {
          CloseAll(p, true);
        }
      } else if due.child.Some? {
        ShareWithChild(p, due.child.value);
      }
    }

    /** The after-handler of the call that task p is in, once it is known to be ready. */
    method RunDue(p: Pid)
      requires Valid() && p in tasks && model.procs[p].due.Some? && RefOk(Taken(model, p)) && HandlerReady(Taken(model, p), p, model.procs[p].due.value)
      requires var due := model.procs[p].due.value; due.AfterFork? && due.child.Some? ==> due.child.value !in tasks
      modifies this, repr, files
      ensures Valid() && fresh(repr - old(repr)) && fresh(files - old(files))
      ensures model == FdModel.RunHandler(Taken(old(model), p), p, old(model.procs)[p].due.value)
    {
      var d := TakeDue(p);
      var due := d.value;
      if due.AfterOpen? || due.AfterExec? || due.AfterFork? {
        RunTableHandler(p, due);
      } else if !due.NoHandler? {
        RunSlotHandler(p, due);
      }
    }

    /** okfs_op_on_fd (src/filesystems/vfs_fd_calls.c lines 65-76), and the same test at the head of
        okfs_before_fcntl (lines 405-408): is there something to do behind the call? */
    method OpOnFd(p: Pid, fd: int) returns (tracked: bool)
      requires Valid() && p in tasks
      ensures WellFormed(model.procs[p].fds) && tracked == Tracked(model.procs[p].fds, fd)
    {
      assert tasks[p].Is(model.procs[p], live);
      if fd < 0 || fd >= OPEN_MAX {
        return false;
      }
      var f := FileAt(p, fd);
      return f != null;
    }

    /** The handlers in front of the calls: what they leave in next_call. */
    method Before(p: Pid, c: Syscall) returns (d: Due)
      requires Valid() && p in tasks
      ensures d == BeforeCall(model.procs[p].fds, c)
    {
      d := NoHandler;
      var tracked := false;
      if c.Close? || c.Dup? || c.DupFd? || c.GetFd? || c.SetFd? {
        tracked := OpOnFd(p, c.fd);
      }
      match c {
        case Open(ret, managed, newFsfd) => d := AfterOpen(ret, managed, newFsfd);
        case OpenUntracked(_) =>
        case Close(fd, ret, fsRet) =>
          if tracked { d := Due.AfterClose(fd, ret, fsRet); }
        case Dup(fd, ret) =>
          if tracked { d := AfterDup(fd, ret); }
        case Dup2(fd, _, ret) => d := Due.AfterDup2(fd, ret);
        case DupFd(fd, ret) =>
          if tracked { d := AfterDup(fd, ret); }
        case GetFd(fd, ret) =>
          if tracked { d := AfterGetFd(fd, ret); }
        case SetFd(fd, cloexec, ret) =>
          if tracked { d := AfterSetFd(fd, cloexec, ret); }
        case Exec(ok) => d := AfterExec(ok);
        case Fork(child) => d := AfterFork(child);
      }
    }

    /** A call: its handler in front, and the kernel's work. */
    method Call(p: Pid, c: Syscall)
      requires Valid() && FdTheorems.Inv(model) && Enabled(model, Event.Call(p, c))
      modifies this`model, repr
      ensures Valid() && model == Next(old(model), Event.Call(p, c)) && FdTheorems.Inv(model)
    {
      StepKeeps(model, Event.Call(p, c));
      ghost var pr := model.procs[p];
      var d := Before(p, c);
      assert tasks[p].Is(pr, live);
      tasks[p].Enter(d, KernelRuns(pr.kernel, c), pr, live);
      Follow(p, Proc(pr.fds, KernelRuns(pr.kernel, c), Some(d)));
    }

    /** The handler of the call that task p is in (src/okfs.c lines 130-145) is the model's step: counts
        stay exact, tables agree with the kernel, and only the debug build gives up, exactly when a
        close has failed. */
    method Return(p: Pid)
      requires Valid() && FdTheorems.Inv(model) && Enabled(model, Event.Return(p))
      modifies this, repr, files
      ensures Valid() && fresh(repr - old(repr)) && fresh(files - old(files))
      ensures model == Next(old(model), Event.Return(p))
      ensures model.aborted <==> asserts && FailedClose(old(model), Event.Return(p))
      ensures !model.aborted ==> FdTheorems.Inv(model)
    {
      ReturnFacts(model, p);
      RunDue(p);
    }

    /** The descriptors of a task that ended (src/task.c lines 46-51). */
    method Exit(p: Pid)
      requires Valid() && FdTheorems.Inv(model) && Enabled(model, Event.Exit(p))
      modifies this`tasks, this`model, this`live, repr, files
      ensures Valid() && model == Next(old(model), Event.Exit(p)) && FdTheorems.Inv(model)
    {
      StepKeeps(model, Event.Exit(p));
      CloseAll(p, false);
      Remove(p);
    }

    method Step(e: Event)
      requires Valid() && FdTheorems.Inv(model) && Enabled(model, e)
      modifies this, repr, files
      ensures Valid() && fresh(repr - old(repr)) && fresh(files - old(files))
      ensures model == Next(old(model), e) && (!aborted ==> FdTheorems.Inv(model))
    {
      match e {
        case Call(p, c) => Call(p, c);
        case Return(p) => Return(p);
        case Exit(p) => Exit(p);
      }
    }

    /** The slots of all task objects that point to a file object. */
    ghost function Pointers(f: SharedFile): set<(Pid, int)>
      requires Valid()
      reads this, repr, files
    {
      set p, i | p in tasks && 0 <= i < |tasks[p].fdTab| && tasks[p].fdTab[i] == f :: (p, i)
    }

    lemma PointersAre(f: FileId)
      requires Valid() && f in live
      ensures Pointers(live[f]) == Slots(model.procs, f)
    {
      forall p, i ensures (p, i) in Pointers(live[f]) <==> (p, i) in Slots(model.procs, f) {
        if p in tasks && InRange(i) {
          assert tasks[p].Is(model.procs[p], live) && FileIs(live[f], f, model.files[f]);
          assert SlotIs(tasks[p].fdTab[i], model.procs[p].fds.fdTab[i], live);
        }
      }
    }

    /** Any run of calls, handlers and exits over the objects. The shipped build gets to the end of it,
        the debug build gives up exactly when a close fails; and unless it has given up, the counter of
        every live file object is the number of slots that point to it. */
    method Run(run: seq<Event>)
      requires Valid() && FdTheorems.Inv(model) && Legal(model, run)
      modifies this, repr, files
      ensures Valid() && fresh(repr - old(repr)) && fresh(files - old(files))
      ensures model == After(old(model), run) && (aborted <==> asserts && ClosesFail(old(model), run))
      ensures !aborted ==> FdTheorems.Inv(model) && forall f :: f in live ==> live[f].nshared == |Pointers(live[f])| >= 1
    {
      RunKeeps(model, run);
      Steps(run);
      if !aborted {
        ObjectsCounted();
      }
    }

    lemma ObjectsCounted()
      requires Valid() && RefOk(model)
      ensures forall f :: f in live ==> live[f].nshared == |Pointers(live[f])| >= 1
    {
      forall f | f in live ensures live[f].nshared == |Pointers(live[f])| >= 1 {
        PointersAre(f);
        assert FileIs(live[f], f, model.files[f]) && FileOk(model, f);
      }
    }

    method Steps(run: seq<Event>)
      requires Valid() && FdTheorems.Inv(model) && Legal(model, run)
      modifies this, repr, files
      ensures Valid() && fresh(repr - old(repr)) && fresh(files - old(files))
      ensures model == After(old(model), run) && (!aborted ==> FdTheorems.Inv(model))
    {
      ghost var start := model;
      var i := 0;
      while i < |run|
        invariant 0 <= i <= |run| && Valid() && fresh(repr - old(repr)) && fresh(files - old(files))
        invariant Legal(model, run[i..]) && After(model, run[i..]) == After(start, run)
        invariant !aborted ==> FdTheorems.Inv(model)
      {
        assert run[i..][0] == run[i] && run[i..][1..] == run[i + 1..];
        Step(run[i]);
        i := i + 1;
      }
    }

    method Remove(p: Pid)
      requires Valid()
      modifies this`tasks, this`model
      ensures Valid() && model == old(model).(procs := old(model.procs) - {p})
    {
      tasks := tasks - {p};
      model := model.(procs := model.procs - {p});
    }
  }

  /** OKFS from its start. */
  method Trace(p: Pid, ghost kernel: map<int, bool>, asserts: bool, run: seq<Event>) returns (gaveUp: bool)
    requires Legal(Start(p, kernel, asserts), run)
    ensures gaveUp <==> asserts && ClosesFail(Start(p, kernel, asserts), run)
  {
    var table := new Table(p, kernel, asserts);
    InitialInv(table.model);
    table.Run(run);
    return table.aborted;
  }

  lemma NothingLeft(s: State, p: Pid, flaggedOnly: bool)
    requires AllWellFormed(s) && p in s.procs
    ensures CloseFrom(s, p, OPEN_MAX, flaggedOnly) == s
  {
  }

  lemma NextIsNew(s: State)
    requires RefOk(s)
    ensures s.nextId !in s.files
  {
    assert s.nextId in s.files ==> FileOk(s, s.nextId);
  }

  /** All that the model says about the end of a call. */
  lemma ReturnFacts(s: State, p: Pid)
    requires FdTheorems.Inv(s) && Enabled(s, Event.Return(p))
    ensures var s1 := Taken(s, p);
            && RefOk(s1) && HandlerReady(s1, p, s.procs[p].due.value)
            && Next(s, Event.Return(p)) == FdModel.RunHandler(s1, p, s.procs[p].due.value)
    ensures var s' := Next(s, Event.Return(p));
            (s'.aborted <==> s.asserts && FailedClose(s, Event.Return(p))) && (!s'.aborted ==> FdTheorems.Inv(s'))
  {
    ReadyForHandler(s, p);
    GivesUpExactly(s, Event.Return(p));
    if !GivesUp(s, Event.Return(p)) {
      StepKeeps(s, Event.Return(p));
    }
  }

  /** The invariant gives every handler what it counts on. */
  lemma ReadyForHandler(s: State, p: Pid)
    requires FdTheorems.Inv(s) && p in s.procs && s.procs[p].due.Some?
    ensures RefOk(Taken(s, p)) && HandlerReady(Taken(s, p), p, s.procs[p].due.value)
  {
    assert ProcOk(s.procs[p]);
    SameTables(s, Taken(s, p));
  }

  ghost function Taken(s: State, p: Pid): State
    requires p in s.procs
  {
    s.(procs := s.procs[p := s.procs[p].(due := None)])
  }

  /** What a handler may count on: its slot is tracked. */
  ghost predicate HandlerReady(s: State, p: Pid, due: Due) {
    && p in s.procs && AllWellFormed(s)
    && (due.AfterClose? ==> Tracked(s.procs[p].fds, due.fd))
  }

  ghost function OneShare(files: map<FileId, OkfsFile>, slot: Option<FileId>): map<FileId, OkfsFile> {
    if slot.None? || slot.value !in files then files
    else files[slot.value := files[slot.value].(nshared := files[slot.value].nshared + 1)]
  }

  lemma ShareStep(files: map<FileId, OkfsFile>, tab: seq<Option<FileId>>, i: nat)
    requires i < |tab|
    ensures ShareAll(files, tab[..i + 1]) == OneShare(ShareAll(files, tab[..i]), tab[i])
  {
    assert tab[..i + 1][..i] == tab[..i] && tab[..i + 1][i] == tab[i];
  }

  ghost predicate Points(s: State, p: Pid, fd: int, f: FileId) {
    p in s.procs && WellFormed(s.procs[p].fds) && InRange(fd) && s.procs[p].fds.fdTab[fd] == Some(f) && f in s.files
  }

  /** No slot but one points to the file. */
  ghost predicate OnlyAt(procs: map<Pid, Proc>, f: FileId, p: Pid, fd: int) {
    forall q, i :: q in procs && 0 <= i < |procs[q].fds.fdTab| && (q != p || i != fd) ==> procs[q].fds.fdTab[i] != Some(f)
  }

  lemma NowUnused(s: State, p: Pid, fd: int, f: FileId, s1: State)
    requires Points(s, p, fd, f) && OnlyAt(s.procs, f, p, fd)
    requires s1.procs == s.procs[p := s.procs[p].(fds := Cleared(s.procs[p].fds, fd))]
    ensures Unused(s1.procs, f)
  {
  }

  /** The state after one sharer less and an empty slot. */
  ghost function Closed(s: State, p: Pid, fd: int, f: FileId): State
    requires Points(s, p, fd, f)
  {
    var n := s.files[f].nshared - 1;
    var s1 := SetFds(s.(files := s.files[f := s.files[f].(nshared := n)]), p, Cleared(s.procs[p].fds, fd));
    if n == 0 then s1.(files := s1.files - {f}) else s1
  }

  /** A tracked slot of a counted file, and the only one when the count is one. */
  ghost predicate Closable(s: State, p: Pid, fd: int) {
    && p in s.procs && Tracked(s.procs[p].fds, fd)
    && var f := s.procs[p].fds.fdTab[fd].value;
       Points(s, p, fd, f) && s.files[f].nshared >= 1 && (s.files[f].nshared == 1 ==> OnlyAt(s.procs, f, p, fd))
  }

  ghost function ClosedAt(s: State, p: Pid, fd: int): State
    requires Closable(s, p, fd)
  {
    Closed(s, p, fd, s.procs[p].fds.fdTab[fd].value)
  }

  /** The same with the call of the file system's close in front. */
  ghost function AfterClosed(s: State, p: Pid, fd: int, ret: int, fsRet: int): State
    requires Closable(s, p, fd)
  {
    var f := s.procs[p].fds.fdTab[fd].value;
    if s.asserts && ret != 0 then Abort(s)
    else if s.files[f].managed && s.files[f].nshared == 1 then
      var s' := s.(closes := s.closes + [(f, s.procs[p].fds.fsfd[fd])]);
      if s.asserts && fsRet != 0 then Abort(s') else Closed(s', p, fd, f)
    else Closed(s, p, fd, f)
  }

  /** Exact counts make every tracked slot closable, and closing it is the step of the model. */
  lemma CountsAllowClose(s: State, p: Pid, fd: int)
    requires RefOk(s) && p in s.procs && Tracked(s.procs[p].fds, fd)
    ensures Closable(s, p, fd) && InRange(fd)
    ensures ClosedAt(s, p, fd) == FdModel.CloseFd(s, p, fd)
    ensures s.files[s.procs[p].fds.fdTab[fd].value].nshared == 1 <==> Slots(s.procs, s.procs[p].fds.fdTab[fd].value) == {(p, fd)}
  {
    var f := s.procs[p].fds.fdTab[fd].value;
    LastSlot(s, p, fd);
    assert FileOk(s, f);
    ClosedIs(s, p, fd, f);
    if s.files[f].nshared == 1 {
      OnlySlot(s.procs, f, p, fd);
    }
  }

  lemma AfterClosedIs(s: State, p: Pid, fd: int, ret: int, fsRet: int)
    requires AllWellFormed(s) && Closable(s, p, fd)
    ensures InRange(fd) && AfterClosed(s, p, fd, ret, fsRet) == AfterCloseCall(s, p, fd, ret, fsRet)
  {
    var f := s.procs[p].fds.fdTab[fd].value;
    ClosedIs(s, p, fd, f);
    ClosedIs(s.(closes := s.closes + [(f, s.procs[p].fds.fsfd[fd])]), p, fd, f);
  }

  lemma OnlySlot(procs: map<Pid, Proc>, f: FileId, p: Pid, fd: int)
    requires Slots(procs, f) == {(p, fd)}
    ensures OnlyAt(procs, f, p, fd)
  {
    forall q, i | q in procs && 0 <= i < |procs[q].fds.fdTab| && (q != p || i != fd) ensures procs[q].fds.fdTab[i] != Some(f) {
      assert (q, i) !in Slots(procs, f);
    }
  }

  lemma ClosedIs(s: State, p: Pid, fd: int, f: FileId)
    requires AllWellFormed(s) && Points(s, p, fd, f) && s.files[f].nshared >= 1
    ensures FdModel.CloseFd(s, p, fd) == Closed(s, p, fd, f)
  {
    assert s.files - {f} == s.files[f := s.files[f].(nshared := 0)] - {f};
  }

  /** No slot points to the file. */
  ghost predicate Unused(procs: map<Pid, Proc>, f: FileId) {
    forall q, i :: q in procs && 0 <= i < |procs[q].fds.fdTab| ==> procs[q].fds.fdTab[i] != Some(f)
  }
}
