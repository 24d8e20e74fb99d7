/** What every step of the descriptor model keeps: exact reference counts, no dangling slot,
    one fsfd per file, at most one close per file, and agreement with the kernel. */
module FdLaws {
  import opened Common
  import opened FdModel

  // ----- reference counts -----

  /** The (task, descriptor) slots that point to a file. */
  ghost function Slots(procs: map<Pid, Proc>, f: FileId): set<(Pid, int)> {
    set p, i | p in procs && 0 <= i < |procs[p].fds.fdTab| && procs[p].fds.fdTab[i] == Some(f) :: (p, i)
  }

  /** A slot points to a live file and holds the fsfd that file was opened with. */
  ghost predicate SlotOk(s: State, p: Pid, i: int)
    requires p in s.procs && WellFormed(s.procs[p].fds) && InRange(i)
  {
    var t := s.procs[p].fds;
    t.fdTab[i].Some? ==> t.fdTab[i].value in s.files && t.fsfd[i] == s.files[t.fdTab[i].value].openFsfd
  }

  ghost predicate FileOk(s: State, f: FileId)
    requires f in s.files
  {
    s.files[f].nshared == |Slots(s.procs, f)| && s.files[f].nshared >= 1 && f < s.nextId
  }

  /** Files whose close was called are gone, and no file was closed twice. */
  ghost predicate ClosesOk(s: State) {
    && (forall k :: 0 <= k < |s.closes| ==> s.closes[k].0 !in s.files && s.closes[k].0 < s.nextId)
    && (forall j, k :: 0 <= j < k < |s.closes| ==> s.closes[j].0 != s.closes[k].0)
  }

  ghost predicate RefOk(s: State) {
    && AllWellFormed(s)
    && (forall p, i {:trigger SlotOk(s, p, i)} :: p in s.procs && InRange(i) ==> SlotOk(s, p, i))
    && (forall f :: f in s.files ==> FileOk(s, f))
    && ClosesOk(s)
  }

  lemma SlotsAfterSet(procs: map<Pid, Proc>, p: Pid, fd: int, v: Option<FileId>, pr: Proc, f: FileId)
    requires p in procs && 0 <= fd < |procs[p].fds.fdTab|
    requires pr.fds.fdTab == procs[p].fds.fdTab[fd := v]
    ensures Slots(procs[p := pr], f) ==
            if v == Some(f) then Slots(procs, f) + {(p, fd)} else Slots(procs, f) - {(p, fd)}
  {
    var after := Slots(procs[p := pr], f);
    var want := if v == Some(f) then Slots(procs, f) + {(p, fd)} else Slots(procs, f) - {(p, fd)};
    forall q, i ensures (q, i) in after <==> (q, i) in want {
    }
  }

  /** Only the descriptor table of p has changed, to t'. */
  ghost predicate OnlyFds(s: State, s': State, p: Pid, t': Fds)
    requires p in s.procs
  {
    && s'.procs.Keys == s.procs.Keys
    && (forall q :: q in s.procs && q != p ==> s'.procs[q] == s.procs[q])
    && s'.procs[p] == s.procs[p].(fds := t')
  }

  /** What okfs_close_fd does, apart from counting. */
  lemma CloseFdShape(s: State, p: Pid, fd: int)
    requires RefOk(s) && p in s.procs && Tracked(s.procs[p].fds, fd)
    ensures var s' := CloseFd(s, p, fd);
            var f := s.procs[p].fds.fdTab[fd].value;
            && f in s.files && s'.files.Keys == (if s.files[f].nshared == 1 then s.files.Keys - {f} else s.files.Keys)
            && (forall g :: g in s'.files ==> s'.files[g].openFsfd == s.files[g].openFsfd)
            && OnlyFds(s, s', p, Cleared(s.procs[p].fds, fd))
            && s'.aborted == s.aborted && s'.closes == s.closes && s'.nextId == s.nextId
  {
    assert SlotOk(s, p, fd);
    assert FileOk(s, s.procs[p].fds.fdTab[fd].value);
  }

  lemma CloseFdFile(s: State, p: Pid, fd: int, g: FileId)
    requires RefOk(s) && p in s.procs && Tracked(s.procs[p].fds, fd) && g in s.files
    ensures var s' := CloseFd(s, p, fd);
            if g in s'.files then FileOk(s', g) else Slots(s'.procs, g) == {}
  {
    var f := s.procs[p].fds.fdTab[fd].value;
    var s' := CloseFd(s, p, fd);
    CloseFdShape(s, p, fd);
    assert FileOk(s, g);
    SlotsAfterSet(s.procs, p, fd, None, s'.procs[p], g);
    assert (p, fd) in Slots(s.procs, g) <==> g == f;
  }

  lemma CloseFdRef(s: State, p: Pid, fd: int)
    requires RefOk(s) && p in s.procs && Tracked(s.procs[p].fds, fd)
    ensures var s' := CloseFd(s, p, fd);
            RefOk(s') && OnlyFds(s, s', p, Cleared(s.procs[p].fds, fd)) && s'.aborted == s.aborted && s'.closes == s.closes
  {
    var s' := CloseFd(s, p, fd);
    CloseFdShape(s, p, fd);
    forall g | g in s'.files ensures FileOk(s', g) {
      CloseFdFile(s, p, fd, g);
    }
    forall q, i | q in s'.procs && InRange(i) ensures SlotOk(s', q, i) {
      CloseFdSlot(s, p, fd, q, i);
    }
  }

  lemma CloseFdSlot(s: State, p: Pid, fd: int, q: Pid, i: int)
    requires RefOk(s) && p in s.procs && Tracked(s.procs[p].fds, fd) && q in s.procs && InRange(i)
    ensures SlotOk(CloseFd(s, p, fd), q, i)
  {
    var s' := CloseFd(s, p, fd);
    CloseFdShape(s, p, fd);
    assert SlotOk(s, q, i);
    var v := s'.procs[q].fds.fdTab[i];
    if v.Some? {
      assert (q, i) in Slots(s'.procs, v.value);
      CloseFdFile(s, p, fd, v.value);
    }
  }

  /** A file system's close is recorded for a file that is gone afterwards. */
  lemma AfterCloseRef(s: State, p: Pid, fd: int, ret: int, fsRet: int)
    requires RefOk(s) && p in s.procs && Tracked(s.procs[p].fds, fd) && !(s.asserts && CloseFails(s, p, fd, ret, fsRet))
    ensures var s' := AfterCloseCall(s, p, fd, ret, fsRet);
            RefOk(s') && OnlyFds(s, s', p, Cleared(s.procs[p].fds, fd)) && s'.aborted == s.aborted
  {
    CloseFdRef(s, p, fd);
    var s1, s' := CloseFd(s, p, fd), AfterCloseCall(s, p, fd, ret, fsRet);
    RecordedClose(s, p, fd, ret, fsRet);
    SameRef(s1, s');
  }

  lemma RecordedClose(s: State, p: Pid, fd: int, ret: int, fsRet: int)
    requires RefOk(s) && p in s.procs && Tracked(s.procs[p].fds, fd) && !(s.asserts && CloseFails(s, p, fd, ret, fsRet))
    ensures var s' := AfterCloseCall(s, p, fd, ret, fsRet);
            s' == CloseFd(s, p, fd).(closes := s'.closes) && ClosesOk(s')
  {
    CloseFdShape(s, p, fd);
    assert FileOk(s, s.procs[p].fds.fdTab[fd].value);
  }

  lemma SameRef(s: State, s': State)
    requires RefOk(s) && s' == s.(closes := s'.closes) && ClosesOk(s')
    ensures RefOk(s')
  {
    forall q, i | q in s'.procs && InRange(i) ensures SlotOk(s', q, i) {
      assert SlotOk(s, q, i);
    }
    forall g | g in s'.files ensures FileOk(s', g) {
      assert FileOk(s, g);
    }
  }

  lemma DoDupShape(s: State, p: Pid, oldfd: int, newfd: int)
    requires RefOk(s) && p in s.procs && Tracked(s.procs[p].fds, oldfd) && InRange(newfd)
    ensures var s' := DoDup(s, p, oldfd, newfd);
            && s'.files.Keys == s.files.Keys
            && (forall g :: g in s'.files ==> s'.files[g].openFsfd == s.files[g].openFsfd)
            && OnlyFds(s, s', p, Duplicated(s.procs[p].fds, oldfd, newfd))
            && s'.aborted == s.aborted && s'.closes == s.closes && s'.nextId == s.nextId
  {
    assert SlotOk(s, p, oldfd);
  }

  lemma DoDupFile(s: State, p: Pid, oldfd: int, newfd: int, g: FileId)
    requires RefOk(s) && p in s.procs && Tracked(s.procs[p].fds, oldfd) && g in s.files
    requires InRange(newfd) && !Tracked(s.procs[p].fds, newfd)
    ensures var s' := DoDup(s, p, oldfd, newfd); g in s'.files && FileOk(s', g)
  {
    var f := s.procs[p].fds.fdTab[oldfd].value;
    var s' := DoDup(s, p, oldfd, newfd);
    DoDupShape(s, p, oldfd, newfd);
    assert FileOk(s, g);
    OneMoreSlot(s.procs, p, newfd, f, s'.procs[p], g);
    assert s'.procs == s.procs[p := s'.procs[p]];
  }

  /** A slot that was empty points to f now. */
  lemma OneMoreSlot(procs: map<Pid, Proc>, p: Pid, fd: int, f: FileId, pr: Proc, g: FileId)
    requires p in procs && 0 <= fd < |procs[p].fds.fdTab| && procs[p].fds.fdTab[fd].None?
    requires pr.fds.fdTab == procs[p].fds.fdTab[fd := Some(f)]
    ensures |Slots(procs[p := pr], g)| == |Slots(procs, g)| + if g == f then 1 else 0
  {
    SlotsAfterSet(procs, p, fd, Some(f), pr, g);
    assert (p, fd) !in Slots(procs, g);
  }

  lemma DoDupRef(s: State, p: Pid, oldfd: int, newfd: int)
    requires RefOk(s) && p in s.procs && Tracked(s.procs[p].fds, oldfd)
    requires InRange(newfd) && !Tracked(s.procs[p].fds, newfd)
    ensures var s' := DoDup(s, p, oldfd, newfd);
            RefOk(s') && OnlyFds(s, s', p, Duplicated(s.procs[p].fds, oldfd, newfd)) && s'.aborted == s.aborted
  {
    DoDupShape(s, p, oldfd, newfd);
    var s' := DoDup(s, p, oldfd, newfd);
    forall g | g in s'.files ensures FileOk(s', g) {
      DoDupFile(s, p, oldfd, newfd, g);
    }
    forall q, i | q in s'.procs && InRange(i) ensures SlotOk(s', q, i) {
      DoDupSlot(s, p, oldfd, newfd, q, i);
    }
  }

  lemma DoDupSlot(s: State, p: Pid, oldfd: int, newfd: int, q: Pid, i: int)
    requires RefOk(s) && p in s.procs && Tracked(s.procs[p].fds, oldfd) && InRange(newfd)
    requires q in DoDup(s, p, oldfd, newfd).procs && InRange(i)
    ensures SlotOk(DoDup(s, p, oldfd, newfd), q, i)
  {
    DoDupShape(s, p, oldfd, newfd);
    assert SlotOk(s, q, if q == p && i == newfd then oldfd else i);
  }

  lemma AddNewFile(s: State, p: Pid, fd: int, managed: bool, fsfd: int, g: FileId)
    requires RefOk(s) && p in s.procs && InRange(fd) && !Tracked(s.procs[p].fds, fd)
    requires g in s.files || g == s.nextId
    ensures var s' := AddNewFd(s, p, fd, managed, fsfd); g in s'.files && FileOk(s', g)
  {
    var s' := AddNewFd(s, p, fd, managed, fsfd);
    SlotsAfterSet(s.procs, p, fd, Some(s.nextId), s'.procs[p], g);
    if g in s.files {
      assert FileOk(s, g);
      assert (p, fd) !in Slots(s.procs, g);
    } else {
      NoSlotOfUnknown(s, g);
    }
  }

  lemma AddNewRef(s: State, p: Pid, fd: int, managed: bool, fsfd: int)
    requires RefOk(s) && p in s.procs && InRange(fd) && !Tracked(s.procs[p].fds, fd)
    ensures var s' := AddNewFd(s, p, fd, managed, fsfd);
            RefOk(s') && OnlyFds(s, s', p, Added(s.procs[p].fds, fd, s.nextId, fsfd)) && s'.aborted == s.aborted
  {
    var s' := AddNewFd(s, p, fd, managed, fsfd);
    assert s.nextId !in s.files by {
      assert s.nextId in s.files ==> FileOk(s, s.nextId);
    }
    forall g | g in s'.files ensures FileOk(s', g) {
      AddNewFile(s, p, fd, managed, fsfd, g);
    }
    forall q, i | q in s'.procs && InRange(i) ensures SlotOk(s', q, i) {
      assert SlotOk(s, q, i);
    }
  }

  lemma NoSlotOfUnknown(s: State, f: FileId)
    requires RefOk(s) && f !in s.files
    ensures Slots(s.procs, f) == {}
  {
    assert forall x :: x in Slots(s.procs, f) ==> x.0 in s.procs && InRange(x.1) && s.procs[x.0].fds.fdTab[x.1] == Some(f);
    forall q, i | q in s.procs && InRange(i) ensures s.procs[q].fds.fdTab[i] != Some(f) {
      assert SlotOk(s, q, i);
    }
  }

  // ----- the loops -----

  predicate Closing(t: Fds, j: int, flaggedOnly: bool)
    requires WellFormed(t) && InRange(j)
  {
    t.fdTab[j].Some? && (flaggedOnly ==> t.closeOnExec[j])
  }

  /** What the loop closes is empty and unflagged, and all else is as before. */
  ghost predicate IndexClosed(t: Fds, t': Fds, j: int, i: nat, flaggedOnly: bool)
    requires WellFormed(t) && WellFormed(t') && InRange(j)
  {
    if j >= i && Closing(t, j, flaggedOnly) then t'.fdTab[j].None? && !t'.closeOnExec[j]
    else t'.fdTab[j] == t.fdTab[j] && t'.closeOnExec[j] == t.closeOnExec[j]
  }

  ghost predicate ClosedFrom(t: Fds, t': Fds, i: nat, flaggedOnly: bool) {
    WellFormed(t) && WellFormed(t') && forall j :: InRange(j) ==> IndexClosed(t, t', j, i, flaggedOnly)
  }

  /** One turn of the loop. */
  function CloseOne(s: State, p: Pid, i: nat, flaggedOnly: bool): (r: State)
    requires AllWellFormed(s) && p in s.procs && i < OPEN_MAX
    ensures AllWellFormed(r) && r.procs.Keys == s.procs.Keys
  {
    if Closing(s.procs[p].fds, i, flaggedOnly) then CloseFd(s, p, i) else s
  }

  /** The tables of all tasks but p, and the rest of p, are the same. */
  ghost predicate SameOthers(s: State, s': State, p: Pid)
    requires p in s.procs
  {
    s'.procs.Keys == s.procs.Keys && OnlyFds(s, s', p, s'.procs[p].fds) && s'.aborted == s.aborted && s'.closes == s.closes
  }

  lemma CloseOneRef(s: State, p: Pid, i: nat, flaggedOnly: bool)
    requires RefOk(s) && p in s.procs && i < OPEN_MAX
    ensures var s1 := CloseOne(s, p, i, flaggedOnly);
            && RefOk(s1) && SameOthers(s, s1, p)
            && s1.procs[p].fds == (if Closing(s.procs[p].fds, i, flaggedOnly) then Cleared(s.procs[p].fds, i) else s.procs[p].fds)
            && CloseFrom(s, p, i, flaggedOnly) == CloseFrom(s1, p, i + 1, flaggedOnly)
  {
    if Closing(s.procs[p].fds, i, flaggedOnly) {
      CloseFdRef(s, p, i);
    }
  }

  lemma SameOthersTwice(s: State, s1: State, s2: State, p: Pid)
    requires p in s.procs && SameOthers(s, s1, p) && SameOthers(s1, s2, p)
    ensures SameOthers(s, s2, p)
  {
  }

  lemma {:induction false} CloseFromRef(s: State, p: Pid, i: nat, flaggedOnly: bool)
    requires RefOk(s) && p in s.procs && i <= OPEN_MAX
    ensures var s' := CloseFrom(s, p, i, flaggedOnly);
            RefOk(s') && SameOthers(s, s', p) && ClosedFrom(s.procs[p].fds, s'.procs[p].fds, i, flaggedOnly)
    decreases OPEN_MAX - i
  {
    var t := s.procs[p].fds;
    if i == OPEN_MAX {
      ClosedNothing(t, flaggedOnly);
    } else {
      CloseOneRef(s, p, i, flaggedOnly);
      var s1 := CloseOne(s, p, i, flaggedOnly);
      CloseFromRef(s1, p, i + 1, flaggedOnly);
      var s' := CloseFrom(s1, p, i + 1, flaggedOnly);
      SameOthersTwice(s, s1, s', p);
      ClosedOneMore(t, s1.procs[p].fds, s'.procs[p].fds, i, flaggedOnly);
    }
  }

  lemma ClosedNothing(t: Fds, flaggedOnly: bool)
    requires WellFormed(t)
    ensures ClosedFrom(t, t, OPEN_MAX, flaggedOnly)
  {
    forall j | InRange(j) ensures IndexClosed(t, t, j, OPEN_MAX, flaggedOnly) {
    }
  }

  lemma ClosedOneMore(t: Fds, t1: Fds, t': Fds, i: nat, flaggedOnly: bool)
    requires WellFormed(t) && i < OPEN_MAX && ClosedFrom(t1, t', i + 1, flaggedOnly)
    requires t1 == if Closing(t, i, flaggedOnly) then Cleared(t, i) else t
    ensures ClosedFrom(t, t', i, flaggedOnly)
  {
    forall j | InRange(j) ensures IndexClosed(t, t', j, i, flaggedOnly) {
      assert IndexClosed(t1, t', j, i + 1, flaggedOnly);
    }
  }

  // ----- fork -----

  function Count(tab: seq<Option<FileId>>, f: FileId): nat {
    if tab == [] then 0 else Count(tab[..|tab| - 1], f) + (if tab[|tab| - 1] == Some(f) then 1 else 0)
  }

  lemma {:induction false} ShareAllIs(files: map<FileId, OkfsFile>, tab: seq<Option<FileId>>)
    ensures var r := ShareAll(files, tab);
            r.Keys == files.Keys &&
            forall f :: f in files ==> r[f] == files[f].(nshared := files[f].nshared + Count(tab, f))
    decreases |tab|
  {
    if tab != [] {
      ShareAllIs(files, tab[..|tab| - 1]);
    }
  }

  ghost function Column(c: Pid, tab: seq<Option<FileId>>, f: FileId): set<(Pid, int)> {
    set i | 0 <= i < |tab| && tab[i] == Some(f) :: (c, i)
  }

  lemma {:induction false} ColumnSize(c: Pid, tab: seq<Option<FileId>>, f: FileId)
    ensures |Column(c, tab, f)| == Count(tab, f)
    decreases |tab|
  {
    if tab != [] {
      var n := |tab| - 1;
      ColumnSize(c, tab[..n], f);
      assert Column(c, tab, f) == Column(c, tab[..n], f) + (if tab[n] == Some(f) then {(c, n)} else {});
    }
  }

  lemma ForkFiles(s: State, p: Pid, c: Pid, f: FileId)
    requires RefOk(s) && p in s.procs && c !in s.procs && f in s.files
    ensures var s' := AfterForkCall(s, p, Some(c));
            f in s'.files && s'.files[f].openFsfd == s.files[f].openFsfd && FileOk(s', f)
  {
    var tab := s.procs[p].fds.fdTab;
    var s' := AfterForkCall(s, p, Some(c));
    ShareAllIs(s.files, tab);
    assert FileOk(s, f);
    ColumnSize(c, tab, f);
    SlotsAfterFork(s.procs, c, s'.procs[c], f);
  }

  lemma SlotsAfterFork(procs: map<Pid, Proc>, c: Pid, pr: Proc, f: FileId)
    requires c !in procs
    ensures |Slots(procs[c := pr], f)| == |Slots(procs, f)| + |Column(c, pr.fds.fdTab, f)|
  {
    var had, got, all := Slots(procs, f), Column(c, pr.fds.fdTab, f), Slots(procs[c := pr], f);
    forall q, i ensures (q, i) in all <==> (q, i) in had || (q, i) in got {
    }
    assert all == had + got;
    assert had !! got;
  }

  lemma ForkRef(s: State, p: Pid, c: Pid)
    requires RefOk(s) && p in s.procs && c !in s.procs
    ensures var s' := AfterForkCall(s, p, Some(c));
            RefOk(s') && s'.aborted == s.aborted && s'.procs == s.procs[c := Proc(s.procs[p].fds, s.procs[p].kernel, None)]
  {
    var tab := s.procs[p].fds.fdTab;
    var s' := AfterForkCall(s, p, Some(c));
    ShareAllIs(s.files, tab);
    forall f | f in s'.files ensures FileOk(s', f) && s'.files[f].openFsfd == s.files[f].openFsfd {
      ForkFiles(s, p, c, f);
    }
    forall q, i | q in s'.procs && InRange(i) ensures SlotOk(s', q, i) {
      assert SlotOk(s, if q == c then p else q, i);
    }
  }
}
