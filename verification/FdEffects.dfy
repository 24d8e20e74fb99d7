/** What each call does to the descriptors of its task, from its entry to the end of its handler, whatever
    other tasks do in between; and that nobody else's descriptors change. Nothing here speaks of the
    handlers. */
module FdEffects {
  import opened Common
  import opened FdModel
  import opened FdLaws
  import opened FdTheorems

  // ----- a call and its return -----

  /** Task p makes the call c, other tasks do what `mid` says, and the handler of c runs. */
  ghost predicate Spans(s: State, p: Pid, c: Syscall, mid: seq<Event>) {
    && Inv(s) && p in s.procs && Enabled(s, Call(p, c))
    && Legal(Next(s, Call(p, c)), mid) && (forall e :: e in mid ==> e.pid != p)
    && Enabled(Meanwhile(s, p, c, mid), Return(p))
  }

  /** The state in which the handler starts. */
  function Meanwhile(s: State, p: Pid, c: Syscall, mid: seq<Event>): State
    requires AllWellFormed(s) && p in s.procs && Legal(Next(s, Call(p, c)), mid)
  {
    After(Next(s, Call(p, c)), mid)
  }

  /** The state in which it has run. */
  function Returned(s: State, p: Pid, c: Syscall, mid: seq<Event>): State
    requires Spans(s, p, c, mid)
  {
    Next(Meanwhile(s, p, c, mid), Return(p))
  }

  /** The whole is a run like any other. */
  lemma {:induction false} RunOn(s: State, a: seq<Event>, b: seq<Event>)
    requires Legal(s, a)
    ensures Legal(s, a + b) <==> Legal(After(s, a), b)
    ensures Legal(s, a + b) ==> After(s, a + b) == After(After(s, a), b)
    decreases |a|
  {
    if a == [] {
      assert a + b == b;
    } else {
      assert (a + b)[0] == a[0] && (a + b)[1..] == a[1..] + b;
      RunOn(Next(s, a[0]), a[1..], b);
    }
  }

  lemma SpanIsRun(s: State, p: Pid, c: Syscall, mid: seq<Event>)
    requires Spans(s, p, c, mid)
    ensures Legal(s, [Call(p, c)] + (mid + [Return(p)]))
    ensures After(s, [Call(p, c)] + (mid + [Return(p)])) == Returned(s, p, c, mid)
  {
    var m, r := Meanwhile(s, p, c, mid), [Return(p)];
    assert r[1..] == [] && Legal(Next(m, Return(p)), r[1..]);
    assert Legal(m, r) && After(m, r) == Next(m, Return(p));
    RunOn(Next(s, Call(p, c)), mid, r);
    var one := [Call(p, c)];
    assert one[1..] == [] && Legal(Next(s, Call(p, c)), one[1..]);
    assert Legal(s, one) && After(s, one) == Next(s, Call(p, c));
    RunOn(s, one, mid + r);
  }

  // ----- the others -----

  /** Nothing that one task does changes the descriptors, the kernel's table or the call of another. */
  lemma OthersLeave(s: State, e: Event, p: Pid)
    requires Inv(s) && Enabled(s, e) && !GivesUp(s, e) && p in s.procs && e.pid != p
    ensures p in Next(s, e).procs && Next(s, e).procs[p] == s.procs[p]
  {
    match e
    case Call(_, _) =>
    case Exit(q) => CloseFromRef(s, q, 0, false);
    case Return(q) =>
      assert ProcOk(s.procs[q]);
      var s1 := s.(procs := s.procs[q := s.procs[q].(due := None)]);
      SameTables(s, s1);
      HandlerKeeps(s1, q, s.procs[q].due.value);
  }

  lemma {:induction false} OthersLeaveAll(s: State, mid: seq<Event>, p: Pid)
    requires Inv(s) && Legal(s, mid) && p in s.procs && !After(s, mid).aborted && forall e :: e in mid ==> e.pid != p
    ensures Inv(After(s, mid)) && p in After(s, mid).procs && After(s, mid).procs[p] == s.procs[p]
    decreases |mid|
  {
    if mid != [] {
      var e := mid[0];
      assert e in mid;
      assert forall x :: x in mid[1..] ==> x in mid;
      SameBuild(s, e);
      if GivesUp(s, e) {
        FailedCloseAborts(s, e);
        assert false;
      } else {
        OthersLeave(s, e, p);
        StepKeeps(s, e);
        OthersLeaveAll(Next(s, e), mid[1..], p);
      }
    }
  }

  /** The handler starts with what the call has left. */
  lemma Between(s: State, p: Pid, c: Syscall, mid: seq<Event>)
    requires Spans(s, p, c, mid)
    ensures var m, pr := Meanwhile(s, p, c, mid), s.procs[p];
            Inv(m) && p in m.procs && m.procs[p] == Proc(pr.fds, KernelRuns(pr.kernel, c), Some(BeforeCall(pr.fds, c)))
  {
    StepKeeps(s, Call(p, c));
    OthersLeaveAll(Next(s, Call(p, c)), mid, p);
  }

  // ----- what a table looks like before and after -----

  /** The slot is as it was. */
  ghost predicate SlotSame(t: Fds, t': Fds, i: int)
    requires WellFormed(t) && WellFormed(t') && InRange(i)
  {
    t'.fdTab[i] == t.fdTab[i] && t'.closeOnExec[i] == t.closeOnExec[i] && (t.fdTab[i].Some? ==> t'.fsfd[i] == t.fsfd[i])
  }

  ghost predicate OnlySlot(t: Fds, t': Fds, fd: int) {
    WellFormed(t) && WellFormed(t') && forall i :: 0 <= i < 256 && i != fd ==> SlotSame(t, t', i)
  }

  /** Task p has got the table t', and nobody else's table has changed; the files that are left are what
      they were, but for their counts. */
  ghost predicate Leads(s: State, s': State, p: Pid, t': Fds) {
    && p in s.procs && s'.procs.Keys == s.procs.Keys
    && s'.procs == s.procs[p := s.procs[p].(due := None, fds := t')]
    && forall f :: f in s'.files && f in s.files ==> SameKind(s, s', f)
  }

  ghost predicate SameKind(s: State, s': State, f: FileId)
    requires f in s.files && f in s'.files
  {
    s'.files[f].managed == s.files[f].managed && s'.files[f].openFsfd == s.files[f].openFsfd
  }

  lemma Handled(s: State, p: Pid)
    requires Inv(s) && p in s.procs && s.procs[p].due.Some?
    ensures var s1 := s.(procs := s.procs[p := s.procs[p].(due := None)]);
            RefOk(s1) && !s1.aborted && DueOk(s.procs[p].fds, s.procs[p].kernel, s.procs[p].due.value)
            && Next(s, Return(p)) == RunHandler(s1, p, s.procs[p].due.value)
  {
    assert ProcOk(s.procs[p]);
    SameTables(s, s.(procs := s.procs[p := s.procs[p].(due := None)]));
  }

  // ----- open -----

  /** An open that returned a descriptor in range leaves there a file that was not live before, with a
      count of one, of the kind and with the fsfd asked for; nothing else changes. */
  lemma OpenTracks(s: State, p: Pid, ret: int, managed: bool, newFsfd: int, mid: seq<Event>)
    requires Spans(s, p, Open(ret, managed, newFsfd), mid) && 0 <= ret < 256
    ensures var m, s' := Meanwhile(s, p, Open(ret, managed, newFsfd), mid), Returned(s, p, Open(ret, managed, newFsfd), mid);
            && p in s'.procs
            && var t' := s'.procs[p].fds;
               && Leads(m, s', p, t') && OnlySlot(s.procs[p].fds, t', ret)
               && t'.fdTab[ret].Some? && !t'.closeOnExec[ret] && t'.fsfd[ret] == newFsfd
               && !s'.aborted && s'.closes == m.closes
               && var f := t'.fdTab[ret].value;
                  f !in m.files && Slots(m.procs, f) == {} && s'.files == m.files[f := OkfsFile(1, managed, newFsfd)]
  {
    var m := Meanwhile(s, p, Open(ret, managed, newFsfd), mid);
    Between(s, p, Open(ret, managed, newFsfd), mid);
    Handled(m, p);
    var m1 := m.(procs := m.procs[p := m.procs[p].(due := None)]);
    FreshId(m);
    NoSlotOfUnknown(m, m.nextId);
    assert SlotAgrees(m.procs[p].fds, m.procs[p].kernel, ret);
  }

  lemma FreshId(s: State)
    requires RefOk(s)
    ensures s.nextId !in s.files
  {
    assert s.nextId in s.files ==> FileOk(s, s.nextId);
  }

  /** An open that failed, or whose descriptor OKFS has no slot for, leaves nothing behind. */
  lemma OpenUnseen(s: State, p: Pid, ret: int, managed: bool, newFsfd: int, mid: seq<Event>)
    requires Spans(s, p, Open(ret, managed, newFsfd), mid) && !(0 <= ret < 256)
    ensures var m, s' := Meanwhile(s, p, Open(ret, managed, newFsfd), mid), Returned(s, p, Open(ret, managed, newFsfd), mid);
            Leads(m, s', p, s.procs[p].fds) && s'.files == m.files && s'.closes == m.closes && !s'.aborted
  {
    Between(s, p, Open(ret, managed, newFsfd), mid);
    Handled(Meanwhile(s, p, Open(ret, managed, newFsfd), mid), p);
  }

  // ----- dup and fcntl -----

  ghost predicate DupCall(c: Syscall) {
    c.Dup? || c.DupFd?
  }

  /** After dup or F_DUPFD of a tracked descriptor the new slot points to the same file, which has one
      sharer more; nothing else changes. */
  lemma DupShares(s: State, p: Pid, c: Syscall, mid: seq<Event>)
    requires DupCall(c) && Spans(s, p, c, mid) && 0 <= c.ret < 256 && Tracked(s.procs[p].fds, c.fd)
    ensures var m, s' := Meanwhile(s, p, c, mid), Returned(s, p, c, mid);
            && p in s'.procs
            && var t, t' := s.procs[p].fds, s'.procs[p].fds;
               && Leads(m, s', p, t') && OnlySlot(t, t', c.ret) && !s'.aborted && s'.closes == m.closes
               && t'.fdTab[c.ret] == t.fdTab[c.fd] && !t'.closeOnExec[c.ret] && t'.fsfd[c.ret] == t.fsfd[c.fd]
               && var f := t.fdTab[c.fd].value;
                  f in m.files && s'.files == m.files[f := m.files[f].(nshared := m.files[f].nshared + 1)]
  {
    Between(s, p, c, mid);
    DupHandled(Meanwhile(s, p, c, mid), p, c.fd, c.ret);
  }

  lemma DupHandled(m: State, p: Pid, fd: int, ret: int)
    requires Inv(m) && p in m.procs && m.procs[p].due == Some(AfterDup(fd, ret)) && InRange(ret)
    ensures var s' := Next(m, Return(p));
            && p in s'.procs
            && var t, t' := m.procs[p].fds, s'.procs[p].fds;
               && Leads(m, s', p, t') && OnlySlot(t, t', ret) && !s'.aborted && s'.closes == m.closes
               && Tracked(t, fd)
               && t'.fdTab[ret] == t.fdTab[fd] && !t'.closeOnExec[ret] && t'.fsfd[ret] == t.fsfd[fd]
               && var f := t.fdTab[fd].value;
                  f in m.files && s'.files == m.files[f := m.files[f].(nshared := m.files[f].nshared + 1)]
  {
    Handled(m, p);
    var m1 := m.(procs := m.procs[p := m.procs[p].(due := None)]);
    DupEffect(m1, p, fd, ret);
    SameLead(m, m1, Next(m, Return(p)), p);
  }

  /** The table is what counts, not the handler that was due. */
  lemma SameLead(m: State, m1: State, s': State, p: Pid)
    requires p in m.procs && m1 == m.(procs := m.procs[p := m.procs[p].(due := None)])
    requires p in s'.procs && Leads(m1, s', p, s'.procs[p].fds)
    ensures Leads(m, s', p, s'.procs[p].fds)
  {
    assert forall f :: f in s'.files && f in m.files ==> (SameKind(m1, s', f) <==> SameKind(m, s', f));
  }

  lemma DuplicatedSlot(t: Fds, fd: int, ret: int)
    requires WellFormed(t) && InRange(fd) && InRange(ret)
    ensures var t' := Duplicated(t, fd, ret);
            OnlySlot(t, t', ret) && t'.fdTab[ret] == t.fdTab[fd] && !t'.closeOnExec[ret] && t'.fsfd[ret] == t.fsfd[fd]
  {
  }

  /** A dup that failed, went out of range or was of a descriptor that OKFS does not track changes nothing. */
  lemma DupUnseen(s: State, p: Pid, c: Syscall, mid: seq<Event>)
    requires DupCall(c) && Spans(s, p, c, mid) && !(0 <= c.ret < 256 && Tracked(s.procs[p].fds, c.fd))
    ensures var m, s' := Meanwhile(s, p, c, mid), Returned(s, p, c, mid);
            Leads(m, s', p, s.procs[p].fds) && s'.files == m.files && s'.closes == m.closes && !s'.aborted
  {
    Between(s, p, c, mid);
    Handled(Meanwhile(s, p, c, mid), p);
  }

  /** F_SETFD sets the flag of a tracked descriptor and of no other. */
  lemma FlagSet(s: State, p: Pid, c: Syscall, mid: seq<Event>)
    requires c.SetFd? && Spans(s, p, c, mid)
    ensures var m, s' := Meanwhile(s, p, c, mid), Returned(s, p, c, mid);
            && p in s'.procs && s'.files == m.files && s'.closes == m.closes && !s'.aborted
            && var t, t' := s.procs[p].fds, s'.procs[p].fds;
               Leads(m, s', p, t') && t' == if Tracked(t, c.fd) then t.(closeOnExec := t.closeOnExec[c.fd := c.cloexec]) else t
  {
    Between(s, p, c, mid);
    Handled(Meanwhile(s, p, c, mid), p);
  }

  /** Looking at a flag, and opening what OKFS does not track, change nothing. */
  lemma NothingSeen(s: State, p: Pid, c: Syscall, mid: seq<Event>)
    requires (c.GetFd? || c.OpenUntracked?) && Spans(s, p, c, mid)
    ensures var m, s' := Meanwhile(s, p, c, mid), Returned(s, p, c, mid);
            Leads(m, s', p, s.procs[p].fds) && s'.files == m.files && s'.closes == m.closes && !s'.aborted
  {
    Between(s, p, c, mid);
    Handled(Meanwhile(s, p, c, mid), p);
  }

  // ----- close -----

  /** A close of a tracked descriptor empties its slot; the file loses a sharer, and is gone exactly when
      no other slot points to it. Other slots stay, and a close of another descriptor changes nothing. */
  lemma CloseForgets(s: State, p: Pid, c: Syscall, mid: seq<Event>)
    requires c.Close? && Spans(s, p, c, mid) && !GivesUp(Meanwhile(s, p, c, mid), Return(p))
    ensures var m, s' := Meanwhile(s, p, c, mid), Returned(s, p, c, mid);
            && p in s'.procs && !s'.aborted
            && var t, t' := s.procs[p].fds, s'.procs[p].fds;
               && Leads(m, s', p, t')
               && (if Tracked(t, c.fd) then SlotEmptied(m, s', p, c.fd) else t' == t && s'.files == m.files && s'.closes == m.closes)
  {
    Between(s, p, c, mid);
    var m := Meanwhile(s, p, c, mid);
    if Tracked(s.procs[p].fds, c.fd) {
      CloseHandled(m, p, c.fd, c.ret, c.fsRet);
    } else {
      Handled(m, p);
    }
  }

  /** The slot fd of p, which pointed to a file, is empty, and the file has one sharer less or none. */
  ghost predicate SlotEmptied(m: State, s': State, p: Pid, fd: int) {
    && p in m.procs && p in s'.procs
    && var t, t' := m.procs[p].fds, s'.procs[p].fds;
       && Tracked(t, fd) && OnlySlot(t, t', fd) && t'.fdTab[fd].None? && !t'.closeOnExec[fd]
       && var f := t.fdTab[fd].value;
          && f in m.files
          && s'.files == if Slots(m.procs, f) == {(p, fd)} then m.files - {f}
                         else m.files[f := m.files[f].(nshared := m.files[f].nshared - 1)]
  }

  lemma CloseHandled(m: State, p: Pid, fd: int, ret: int, fsRet: int)
    requires Inv(m) && p in m.procs && m.procs[p].due == Some(AfterClose(fd, ret, fsRet)) && !GivesUp(m, Return(p))
    ensures var s' := Next(m, Return(p));
            p in s'.procs && !s'.aborted && Leads(m, s', p, s'.procs[p].fds) && SlotEmptied(m, s', p, fd)
  {
    Handled(m, p);
    var m1 := m.(procs := m.procs[p := m.procs[p].(due := None)]);
    var s' := Next(m, Return(p));
    LastSlot(m, p, fd);
    RecordedClose(m1, p, fd, ret, fsRet);
    assert s' == CloseFd(m1, p, fd).(closes := s'.closes);
    CloseEmpties(m, m1, p, fd);
    SameTable(m, CloseFd(m1, p, fd), s', p, fd);
  }

  /** What a file system is told does not matter to the tables. */
  lemma SameTable(m: State, s1: State, s': State, p: Pid, fd: int)
    requires p in s1.procs && s' == s1.(closes := s'.closes) && Leads(m, s1, p, s1.procs[p].fds) && SlotEmptied(m, s1, p, fd)
    ensures Leads(m, s', p, s'.procs[p].fds) && SlotEmptied(m, s', p, fd)
  {
    assert forall f :: f in s'.files && f in m.files ==> (SameKind(m, s1, f) <==> SameKind(m, s', f));
  }

  lemma CloseEmpties(m: State, m1: State, p: Pid, fd: int)
    requires RefOk(m1) && p in m.procs && Tracked(m.procs[p].fds, fd)
    requires m1 == m.(procs := m.procs[p := m.procs[p].(due := None)])
    requires var f := m.procs[p].fds.fdTab[fd].value; f in m.files && (m.files[f].nshared == 1 <==> Slots(m.procs, f) == {(p, fd)})
    ensures var s' := CloseFd(m1, p, fd);
            p in s'.procs && s'.aborted == m.aborted && Leads(m, s', p, s'.procs[p].fds) && SlotEmptied(m, s', p, fd)
  {
    CloseFdShape(m1, p, fd);
    CloseCounts(m1, p, fd);
    Emptied(m, CloseFd(m1, p, fd), p, fd, m.procs[p].fds.fdTab[fd].value);
  }

  lemma Emptied(m: State, s': State, p: Pid, fd: int, f: FileId)
    requires p in m.procs && WellFormed(m.procs[p].fds) && InRange(fd) && m.procs[p].fds.fdTab[fd] == Some(f) && f in m.files
    requires s'.procs.Keys == m.procs.Keys && (forall q :: q in m.procs && q != p ==> s'.procs[q] == m.procs[q])
    requires s'.procs[p] == m.procs[p].(due := None, fds := Cleared(m.procs[p].fds, fd))
    requires m.files[f].nshared == 1 <==> Slots(m.procs, f) == {(p, fd)}
    requires s'.files == if m.files[f].nshared == 1 then m.files - {f} else m.files[f := m.files[f].(nshared := m.files[f].nshared - 1)]
    ensures Leads(m, s', p, s'.procs[p].fds) && SlotEmptied(m, s', p, fd)
  {
    ClearedSlot(m.procs[p].fds, fd);
    assert s'.procs == m.procs[p := m.procs[p].(due := None, fds := Cleared(m.procs[p].fds, fd))];
  }

  lemma ClearedSlot(t: Fds, fd: int)
    requires WellFormed(t) && InRange(fd)
    ensures var t' := Cleared(t, fd); OnlySlot(t, t', fd) && t'.fdTab[fd].None? && !t'.closeOnExec[fd]
  {
  }

  lemma CloseCounts(s: State, p: Pid, fd: int)
    requires RefOk(s) && p in s.procs && Tracked(s.procs[p].fds, fd)
    ensures var f, files' := s.procs[p].fds.fdTab[fd].value, CloseFd(s, p, fd).files;
            && f in s.files
            && files' == (if s.files[f].nshared == 1 then s.files - {f} else s.files[f := s.files[f].(nshared := s.files[f].nshared - 1)])
  {
    assert SlotOk(s, p, fd);
    assert FileOk(s, s.procs[p].fds.fdTab[fd].value);
  }

  // ----- dup2 -----

  /** dup2 to a slot in range closes what was there and shares the file of the old descriptor, when that
      is another one and tracked; out of range it changes nothing. */
  lemma Dup2Moves(s: State, p: Pid, c: Syscall, mid: seq<Event>)
    requires c.Dup2? && Spans(s, p, c, mid)
    ensures var m, s' := Meanwhile(s, p, c, mid), Returned(s, p, c, mid);
            && p in s'.procs && !s'.aborted && s'.closes == m.closes
            && var t, t' := s.procs[p].fds, s'.procs[p].fds;
               && Leads(m, s', p, t')
               && (if 0 <= c.ret < 256 then
                     && OnlySlot(t, t', c.ret) && !t'.closeOnExec[c.ret]
                     && (if Tracked(t, c.fd) && c.fd != c.ret then t'.fdTab[c.ret] == t.fdTab[c.fd] && t'.fsfd[c.ret] == t.fsfd[c.fd]
                         else t'.fdTab[c.ret] == None)
                   else t' == t && s'.files == m.files)
  {
    var m := Meanwhile(s, p, c, mid);
    Between(s, p, c, mid);
    Handled(m, p);
    if 0 <= c.ret < 256 {
      Dup2Handled(m, m.(procs := m.procs[p := m.procs[p].(due := None)]), p, c.fd, c.ret);
    }
  }

  lemma Dup2Handled(m: State, m1: State, p: Pid, fd: int, ret: int)
    requires RefOk(m) && RefOk(m1) && p in m.procs && InRange(ret) && m1 == m.(procs := m.procs[p := m.procs[p].(due := None)])
    requires m.procs[p].fds.fdTab[ret].None? ==> !m.procs[p].fds.closeOnExec[ret]
    ensures var s' := AfterDup2Call(m1, p, fd, ret);
            && p in s'.procs && s'.aborted == m.aborted && s'.closes == m.closes
            && var t, t' := m.procs[p].fds, s'.procs[p].fds;
               && Leads(m, s', p, t')
               && OnlySlot(t, t', ret) && !t'.closeOnExec[ret]
               && (if Tracked(t, fd) && fd != ret then t'.fdTab[ret] == t.fdTab[fd] && t'.fsfd[ret] == t.fsfd[fd]
                   else t'.fdTab[ret] == None)
  {
    var t := m.procs[p].fds;
    var s1 := if Tracked(t, ret) then CloseFd(m1, p, ret) else m1;
    TargetClosed(m, m1, p, ret);
    var t1 := s1.procs[p].fds;
    assert InRange(fd) && fd != ret ==> SlotSame(t, t1, fd);
    assert Tracked(t1, fd) <==> Tracked(t, fd) && fd != ret;
    if Tracked(t1, fd) {
      SharedThen(m, s1, p, fd, ret);
    }
  }

  /** The second half of a dup2. */
  lemma SharedThen(m: State, s1: State, p: Pid, fd: int, ret: int)
    requires p in m.procs && p in s1.procs && RefOk(s1) && InRange(ret) && fd != ret
    requires s1.procs[p].due.None? && Leads(m, s1, p, s1.procs[p].fds) && OnlySlot(m.procs[p].fds, s1.procs[p].fds, ret)
    requires Tracked(m.procs[p].fds, fd) && Tracked(s1.procs[p].fds, fd)
    ensures var s' := DoDup(s1, p, fd, ret);
            && p in s'.procs && s'.aborted == s1.aborted && s'.closes == s1.closes
            && var t, t' := m.procs[p].fds, s'.procs[p].fds;
               && Leads(m, s', p, t') && OnlySlot(t, t', ret) && !t'.closeOnExec[ret]
               && t'.fdTab[ret] == t.fdTab[fd] && t'.fsfd[ret] == t.fsfd[fd]
  {
    assert SlotSame(m.procs[p].fds, s1.procs[p].fds, fd);
    DupEffect(s1, p, fd, ret);
    TwoSteps(m, s1, DoDup(s1, p, fd, ret), p, ret);
  }

  /** Two changes to one table are one. */
  lemma TwoSteps(m: State, s1: State, s': State, p: Pid, ret: int)
    requires p in m.procs && p in s1.procs && p in s'.procs
    requires Leads(m, s1, p, s1.procs[p].fds) && Leads(s1, s', p, s'.procs[p].fds) && s'.files.Keys == s1.files.Keys
    requires OnlySlot(m.procs[p].fds, s1.procs[p].fds, ret) && OnlySlot(s1.procs[p].fds, s'.procs[p].fds, ret)
    ensures Leads(m, s', p, s'.procs[p].fds) && OnlySlot(m.procs[p].fds, s'.procs[p].fds, ret)
  {
    var t, t1, t' := m.procs[p].fds, s1.procs[p].fds, s'.procs[p].fds;
    forall i | 0 <= i < 256 && i != ret ensures SlotSame(t, t', i) {
      assert SlotSame(t, t1, i) && SlotSame(t1, t', i);
    }
    forall f | f in s'.files && f in m.files ensures SameKind(m, s', f) {
      assert SameKind(m, s1, f) && SameKind(s1, s', f);
    }
  }

  /** What stood at the target of a dup2 has gone. */
  lemma TargetClosed(m: State, m1: State, p: Pid, ret: int)
    requires RefOk(m) && RefOk(m1) && p in m.procs && InRange(ret) && m1 == m.(procs := m.procs[p := m.procs[p].(due := None)])
    requires m.procs[p].fds.fdTab[ret].None? ==> !m.procs[p].fds.closeOnExec[ret]
    ensures var t := m.procs[p].fds;
            var s1 := if Tracked(t, ret) then CloseFd(m1, p, ret) else m1;
            && RefOk(s1) && p in s1.procs && s1.aborted == m.aborted && s1.closes == m.closes
            && s1.procs[p].due.None? && Leads(m, s1, p, s1.procs[p].fds)
            && OnlySlot(t, s1.procs[p].fds, ret) && s1.procs[p].fds.fdTab[ret].None? && !s1.procs[p].fds.closeOnExec[ret]
  {
    if Tracked(m.procs[p].fds, ret) {
      LastSlot(m, p, ret);
      CloseFdRef(m1, p, ret);
      CloseEmpties(m, m1, p, ret);
    }
  }

  lemma DupEffect(s: State, p: Pid, fd: int, ret: int)
    requires RefOk(s) && p in s.procs && s.procs[p].due.None? && Tracked(s.procs[p].fds, fd) && InRange(ret)
    ensures var s', f := DoDup(s, p, fd, ret), s.procs[p].fds.fdTab[fd].value;
            && p in s'.procs && s'.aborted == s.aborted && s'.closes == s.closes
            && f in s.files && s'.files == s.files[f := s.files[f].(nshared := s.files[f].nshared + 1)]
            && var t, t' := s.procs[p].fds, s'.procs[p].fds;
               && Leads(s, s', p, t') && OnlySlot(t, t', ret) && !t'.closeOnExec[ret]
               && t'.fdTab[ret] == t.fdTab[fd] && t'.fsfd[ret] == t.fsfd[fd]
  {
    assert SlotOk(s, p, fd);
    DuplicatedSlot(s.procs[p].fds, fd, ret);
  }

  // ----- exec, fork and exit -----

  /** The closing loops leave files alone but for their counts. */
  lemma {:induction false} LoopKeepsKinds(s: State, p: Pid, i: nat, flaggedOnly: bool)
    requires RefOk(s) && p in s.procs && i <= OPEN_MAX
    ensures var s' := CloseFrom(s, p, i, flaggedOnly);
            forall f :: f in s'.files ==> f in s.files && SameKind(s, s', f)
    decreases OPEN_MAX - i
  {
    if i < OPEN_MAX {
      CloseOneRef(s, p, i, flaggedOnly);
      var s1 := CloseOne(s, p, i, flaggedOnly);
      if Closing(s.procs[p].fds, i, flaggedOnly) { CloseCounts(s, p, i); }
      LoopKeepsKinds(s1, p, i + 1, flaggedOnly);
    }
  }

  /** A successful exec empties the slots flagged and keeps the others; a failed one keeps all. */
  lemma ExecCloses(s: State, p: Pid, c: Syscall, mid: seq<Event>)
    requires c.Exec? && Spans(s, p, c, mid)
    ensures var m, s' := Meanwhile(s, p, c, mid), Returned(s, p, c, mid);
            && p in s'.procs && !s'.aborted && s'.closes == m.closes
            && var t, t' := s.procs[p].fds, s'.procs[p].fds;
               && Leads(m, s', p, t')
               && (!c.ok ==> t' == t && s'.files == m.files)
               && (c.ok ==> WellFormed(t) && WellFormed(t') && forall i :: 0 <= i < 256 ==>
                     if Tracked(t, i) && t.closeOnExec[i] then t'.fdTab[i] == None && !t'.closeOnExec[i] else SlotSame(t, t', i))
  {
    var m := Meanwhile(s, p, c, mid);
    Between(s, p, c, mid);
    Handled(m, p);
    if c.ok {
      LoopCloses(m.(procs := m.procs[p := m.procs[p].(due := None)]), p, true);
    }
  }

  lemma OneChanged(procs: map<Pid, Proc>, procs': map<Pid, Proc>, p: Pid, pr: Proc)
    requires p in procs && procs'.Keys == procs.Keys && procs'[p] == pr && forall q :: q in procs && q != p ==> procs'[q] == procs[q]
    ensures procs' == procs[p := pr] && procs' - {p} == procs - {p}
  {
  }

  lemma LoopCloses(s: State, p: Pid, flaggedOnly: bool)
    requires RefOk(s) && p in s.procs && s.procs[p].due.None?
    ensures var s' := CloseFrom(s, p, 0, flaggedOnly);
            && p in s'.procs && s'.aborted == s.aborted && s'.closes == s.closes
            && var t, t' := s.procs[p].fds, s'.procs[p].fds;
               && Leads(s, s', p, t') && WellFormed(t) && WellFormed(t')
               && forall i :: 0 <= i < 256 ==>
                    if Tracked(t, i) && (flaggedOnly ==> t.closeOnExec[i]) then t'.fdTab[i] == None && !t'.closeOnExec[i] else SlotSame(t, t', i)
  {
    CloseFromRef(s, p, 0, flaggedOnly);
    LoopKeepsKinds(s, p, 0, flaggedOnly);
    var s' := CloseFrom(s, p, 0, flaggedOnly);
    var t, t' := s.procs[p].fds, s'.procs[p].fds;
    OneChanged(s.procs, s'.procs, p, s.procs[p].(due := None, fds := t'));
    forall i | 0 <= i < 256
      ensures if Tracked(t, i) && (flaggedOnly ==> t.closeOnExec[i]) then t'.fdTab[i] == None && !t'.closeOnExec[i] else SlotSame(t, t', i)
    {
      assert IndexClosed(t, t', i, 0, flaggedOnly) && SlotOk(s, p, i) && SlotOk(s', p, i);
      if t'.fdTab[i].Some? { assert SameKind(s, s', t'.fdTab[i].value); }
    }
  }

  /** The number of slots of a table that point to the file. */
  ghost function Uses(t: Fds, f: FileId): nat {
    |set i | 0 <= i < |t.fdTab| && t.fdTab[i] == Some(f)|
  }

  /** A fork gives the child the table of its parent, and every file one sharer more for each slot that
      points to it; a failed one changes nothing. */
  lemma ForkShares(s: State, p: Pid, child: Option<Pid>, mid: seq<Event>)
    requires Spans(s, p, Fork(child), mid)
    ensures var m, s', t := Meanwhile(s, p, Fork(child), mid), Returned(s, p, Fork(child), mid), s.procs[p].fds;
            && !s'.aborted && s'.closes == m.closes && s'.files.Keys == m.files.Keys && p in m.procs
            && (child.None? ==> s'.files == m.files && s'.procs == m.procs[p := m.procs[p].(due := None)])
            && (child.Some? ==>
                  && s'.procs == m.procs[p := m.procs[p].(due := None)][child.value := Proc(t, s.procs[p].kernel, None)]
                  && forall f :: f in m.files ==> s'.files[f] == m.files[f].(nshared := m.files[f].nshared + Uses(t, f)))
  {
    var m := Meanwhile(s, p, Fork(child), mid);
    Between(s, p, Fork(child), mid);
    Handled(m, p);
    if child.Some? { ForkEffect(m.(procs := m.procs[p := m.procs[p].(due := None)]), p, child.value); }
  }

  lemma ForkEffect(s: State, p: Pid, c: Pid)
    requires RefOk(s) && p in s.procs && c !in s.procs
    ensures var s', t := AfterForkCall(s, p, Some(c)), s.procs[p].fds;
            && s'.aborted == s.aborted && s'.closes == s.closes && s'.files.Keys == s.files.Keys
            && s'.procs == s.procs[c := Proc(t, s.procs[p].kernel, None)]
            && forall f :: f in s.files ==> s'.files[f] == s.files[f].(nshared := s.files[f].nshared + Uses(t, f))
  {
    var t := s.procs[p].fds;
    ShareAllIs(s.files, t.fdTab);
    forall f | f in s.files ensures Count(t.fdTab, f) == Uses(t, f) {
      CountIs(t.fdTab, f);
    }
  }

  lemma {:induction false} CountIs(tab: seq<Option<FileId>>, f: FileId)
    ensures Count(tab, f) == |set i | 0 <= i < |tab| && tab[i] == Some(f)|
  {
    var all := set i | 0 <= i < |tab| && tab[i] == Some(f);
    if tab != [] {
      var n := |tab| - 1;
      CountIs(tab[..n], f);
      var front := set i | 0 <= i < |tab[..n]| && tab[..n][i] == Some(f);
      assert all == if tab[n] == Some(f) then front + {n} else front;
    } else {
      assert all == {};
    }
  }

  /** A task that ends takes its slots with it, and nobody else's. */
  lemma ExitDrops(s: State, p: Pid)
    requires Inv(s) && Enabled(s, Exit(p))
    ensures var s' := Next(s, Exit(p));
            && s'.procs == s.procs - {p} && !s'.aborted && s'.closes == s.closes
            && (forall f :: f in s'.files ==> f in s.files && SameKind(s, s', f))
            && (forall f :: f in s.files ==> (f in s'.files <==> Slots(s.procs - {p}, f) != {}))
  {
    ExitShape(s, p);
    ExitKeeps(s, p);
    var s' := Next(s, Exit(p));
    forall f | f in s.files ensures f in s'.files <==> Slots(s'.procs, f) != {} {
      LiveIff(s', f);
    }
  }

  lemma ExitShape(s: State, p: Pid)
    requires RefOk(s) && p in s.procs
    ensures var s' := Next(s, Exit(p));
            && s'.procs == s.procs - {p} && s'.aborted == s.aborted && s'.closes == s.closes
            && (forall f :: f in s'.files ==> f in s.files && SameKind(s, s', f))
  {
    CloseFromRef(s, p, 0, false);
    LoopKeepsKinds(s, p, 0, false);
    var s1 := CloseFrom(s, p, 0, false);
    OneChanged(s.procs, s1.procs, p, s1.procs[p]);
    forall f | f in s1.files ensures f in s.files && SameKind(s, s1.(procs := s1.procs - {p}), f) {
      assert SameKind(s, s1, f);
    }
  }

  lemma LiveIff(s: State, f: FileId)
    requires RefOk(s)
    ensures f in s.files <==> Slots(s.procs, f) != {}
  {
    if f in s.files { FileCounted(s, f); } else { NoSlotOfUnknown(s, f); }
  }
}
