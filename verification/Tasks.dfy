/** The table of traced tasks and the removal of tasks from it (src/task.c). The table maps
    the pids of the live `struct task` objects to their contents, so that a freed task is one
    that is no longer in the map; a child list is a sequence of pids. */
module Tasks {
  import opened Common

  /** The pid OKFS writes into an orphan; no traced task has it. */
  const INIT: Pid := 1

  /** Signals run from 1 to NSIG; the loops of the code stop one short of it. */
  const NSIG := 64
  type Signal = s: int | 1 <= s <= NSIG witness 1

  const LAST_SIGNAL: Signal := 64

  const SIGKILL: Signal := 9
  const SIGCHLD: Signal := 17
  const SIGCONT: Signal := 18
  const SIGSTOP: Signal := 19
  const SIGTSTP: Signal := 20
  const SIGTTIN: Signal := 21
  const SIGTTOU: Signal := 22
  const SIGUNPAUSE: Signal := 31

  predicate StoppingSig(sig: Signal) {
    sig == SIGSTOP || sig == SIGTSTP || sig == SIGTTIN || sig == SIGTTOU
  }

  datatype RunState = Running | Stopped | Zombie | StoppedAndNotified

  predicate StoppedTask(st: RunState) {
    st == Stopped || st == StoppedAndNotified
  }

  /** What ptrace can do with an address of a task: nothing (a null pointer, or one into no mapping),
      read, or read and write. */
  datatype Reach = Unmapped | ReadOnly | Writable

  /** The arguments of wait4: which child is waited for, and where its status is to go. */
  datatype WaitArgs = WaitArgs(pid: int, noHang: bool, untraced: bool, badOptions: bool, status: Reach)

  /** What `next_call` points to. */
  datatype Handler = NoHandler | AfterWnohang | AfterIsZombie | AfterIsStopped | AfterFork

  /** `struct task`, with what the kernel keeps for the same process: its pending signals,
      and whether its end has been reported. `statAddr` is the second argument of the wait that is to
      report `stoppedChild`; `rpl` says that memory of the task is replaced (`rpl_code`). */
  datatype Task = Task(
    ppid: Pid, gid: int, state: RunState, children: seq<Pid>,
    duringCall: bool, nextCall: Handler, restartCall: Option<WaitArgs>, stoppedChild: Option<Pid>, statAddr: Reach,
    sigpendingMask: set<Signal>, defaultStop: set<Signal>, noCldStop: bool, rpl: bool,
    kernelPending: set<Signal>, exited: bool)

  type Table = map<Pid, Task>

  // ----- the forest -----

  /** Child nodes point to live tasks that name their owner as parent; lists do not repeat. */
  ghost predicate Linked(tab: Table) {
    && INIT !in tab
    && (forall p :: p in tab ==> Distinct(tab[p].children) && tab[p].ppid != p)
    && (forall p, c {:trigger c in tab[p].children} :: p in tab && c in tab[p].children ==> c in tab && tab[c].ppid == p)
  }

  /** And every task that is not an orphan is in its parent's list. */
  ghost predicate Forest(tab: Table) {
    && Linked(tab)
    && (forall c :: c in tab && tab[c].ppid != INIT ==> tab[c].ppid in tab && c in tab[tab[c].ppid].children)
  }

  // ----- remove_slave -----

  function SetParent(tab: Table, c: Pid, ppid: Pid): Table
    requires c in tab
  {
    tab[c := tab[c].(ppid := ppid)]
  }

  /** remove_slave (lines 65-100): unlink the task, then orphan its children one by one,
      removing those that are zombies. */
  function RemoveSlave(tab: Table, pid: Pid): (r: Table)
    ensures r.Keys <= tab.Keys && (pid in tab ==> |r| < |tab|)
    decreases |tab|, 0
  {
    if pid !in tab then tab else
    var rest := tab - {pid};
    assert |rest| < |tab| by { Shrinks(tab, pid); }
    OrphanAll(rest, tab[pid].children)
  }

  function OrphanAll(tab: Table, kids: seq<Pid>): (r: Table)
    ensures r.Keys <= tab.Keys && |r| <= |tab|
    decreases |tab|, 1, |kids|
  {
    if kids == [] then tab
    else if kids[0] !in tab then OrphanAll(tab, kids[1..])
    else
      var t1 := SetParent(tab, kids[0], INIT);
      assert t1.Keys == tab.Keys && |t1| == |tab| by { SameKeys(tab, kids[0]); }
      var t2 := if t1[kids[0]].state == Zombie then RemoveSlave(t1, kids[0]) else t1;
      OrphanAll(t2, kids[1..])
  }

  lemma Shrinks(tab: Table, pid: Pid)
    requires pid in tab
    ensures |tab - {pid}| < |tab|
  {
    assert (tab - {pid}).Keys == tab.Keys - {pid};
  }

  lemma SameKeys(tab: Table, c: Pid)
    requires c in tab
    ensures SetParent(tab, c, INIT).Keys == tab.Keys && |SetParent(tab, c, INIT)| == |tab|
  {
    assert SetParent(tab, c, INIT).Keys == tab.Keys;
  }

  // ----- what removal removes -----

  /** Closed under "zombie child of". */
  ghost predicate ZombieClosed(tab: Table, gone: set<Pid>) {
    forall p, c {:trigger c in tab[p].children} ::
      p in gone && p in tab && c in tab[p].children && c in tab && tab[c].state == Zombie ==> c in gone
  }

  /** The least set of tasks that holds the roots and every zombie child of a member. */
  ghost predicate IsZombieClosure(tab: Table, roots: set<Pid>, gone: set<Pid>) {
    && roots <= gone <= tab.Keys
    && ZombieClosed(tab, gone)
    && (forall s: set<Pid> :: roots <= s && ZombieClosed(tab, s) ==> gone <= s)
  }

  lemma ClosureIsUnique(tab: Table, roots: set<Pid>, a: set<Pid>, b: set<Pid>)
    requires IsZombieClosure(tab, roots, a) && IsZombieClosure(tab, roots, b)
    ensures a == b
  {
  }

  ghost predicate ChildOfGone(tab: Table, gone: set<Pid>, q: Pid) {
    exists p :: p in gone && p in tab && q in tab[p].children
  }

  /** The survivors: the same tasks, except that the children of what is gone (and the
      children handed over) are orphans now. */
  ghost predicate Survivors(tab: Table, kids: seq<Pid>, gone: set<Pid>, r: Table) {
    && r.Keys == tab.Keys - gone
    && forall q :: q in r ==>
         r[q] == if q in kids || ChildOfGone(tab, gone, q) then tab[q].(ppid := INIT) else tab[q]
  }

  /** Children whose parent has just been unlinked. */
  ghost predicate HandedOver(tab: Table, kids: seq<Pid>) {
    && Distinct(kids)
    && (forall c :: c in kids ==> c in tab)
    && (forall p, c {:trigger c in tab[p].children} :: p in tab && c in kids ==> c !in tab[p].children)
  }

  function Zombies(tab: Table, kids: seq<Pid>): set<Pid> {
    set c | c in kids && c in tab && tab[c].state == Zombie
  }

  ghost predicate Removal(tab: Table, roots: set<Pid>, kids: seq<Pid>, r: Table) {
    var gone := tab.Keys - r.Keys;
    IsZombieClosure(tab, roots, gone) && Survivors(tab, kids, gone, r) && Linked(r)
  }

  /** Removing an orphan removes it and the closure of zombie children, nothing else; the
      surviving children of what is gone are orphans and all else is as before. */
  lemma {:induction false} RemoveExact(tab: Table, pid: Pid)
    requires Linked(tab) && pid in tab && tab[pid].ppid == INIT
    ensures Removal(tab, {pid}, [], RemoveSlave(tab, pid))
    decreases |tab|, 0
  {
    var rest := tab - {pid};
    Shrinks(tab, pid);
    var kids := tab[pid].children;
    assert forall q :: q in rest ==> rest[q] == tab[q];
    OrphanExact(rest, kids);
    Unlinked(tab, pid, RemoveSlave(tab, pid));
  }

  /** Unlinking a task and handing its children over is removal of the task. */
  lemma Unlinked(tab: Table, pid: Pid, r: Table)
    requires Linked(tab) && pid in tab && tab[pid].ppid == INIT
    requires var rest := tab - {pid}; Removal(rest, Zombies(rest, tab[pid].children), tab[pid].children, r)
    ensures Removal(tab, {pid}, [], r)
  {
    var rest, kids := tab - {pid}, tab[pid].children;
    var gone, gone' := tab.Keys - r.Keys, rest.Keys - r.Keys;
    assert gone == gone' + {pid};
    assert forall q :: q in rest ==> rest[q] == tab[q];
    UnlinkedClosure(tab, pid, gone');
    forall q | q in r
      ensures ChildOfGone(tab, gone, q) <==> q in kids || ChildOfGone(rest, gone', q)
    {
      if q in kids { assert pid in gone && q in tab[pid].children; }
    }
  }

  lemma UnlinkedClosure(tab: Table, pid: Pid, gone: set<Pid>)
    requires Linked(tab) && pid in tab && tab[pid].ppid == INIT
    requires var rest := tab - {pid}; IsZombieClosure(rest, Zombies(rest, tab[pid].children), gone)
    ensures IsZombieClosure(tab, {pid}, gone + {pid})
  {
    var rest, kids := tab - {pid}, tab[pid].children;
    assert forall q :: q in rest ==> rest[q] == tab[q];
    forall s: set<Pid> | {pid} <= s && ZombieClosed(tab, s) ensures gone + {pid} <= s {
      assert ZombieClosed(rest, s);
      forall c | c in Zombies(rest, kids) ensures c in s {
        assert c in tab[pid].children && rest[c] == tab[c];
      }
    }
  }

  lemma {:induction false} OrphanExact(tab: Table, kids: seq<Pid>)
    requires Linked(tab) && HandedOver(tab, kids)
    ensures Removal(tab, Zombies(tab, kids), kids, OrphanAll(tab, kids))
    decreases |tab|, 1, |kids|
  {
    if kids != [] {
      var c := kids[0];
      var t1 := SetParent(tab, c, INIT);
      SameKeys(tab, c);
      assert Linked(t1);
      var t2 := if t1[c].state == Zombie then RemoveSlave(t1, c) else t1;
      if t1[c].state == Zombie {
        RemoveExact(t1, c);
      }
      HandOn(tab, kids, t1, t2);
      OrphanExact(t2, kids[1..]);
      Combine(tab, kids, t1, t2, OrphanAll(t2, kids[1..]));
    }
  }

  /** The first handed-over child is orphaned, and removed when it is a zombie. */
  ghost predicate FirstDone(tab: Table, kids: seq<Pid>, t1: Table, t2: Table) {
    && kids != [] && kids[0] in tab
    && t1 == SetParent(tab, kids[0], INIT) && t1.Keys == tab.Keys && Linked(t1)
    && (if t1[kids[0]].state == Zombie then Removal(t1, {kids[0]}, [], t2) else t2 == t1)
  }

  /** After the first child is dealt with, the others are still waiting for their turn. */
  lemma HandOn(tab: Table, kids: seq<Pid>, t1: Table, t2: Table)
    requires Linked(tab) && HandedOver(tab, kids) && FirstDone(tab, kids, t1, t2)
    ensures HandedOver(t2, kids[1..]) && Linked(t2)
  {
    forall q | q in kids[1..] ensures q in t2 {
      var others := tab.Keys - {q};
      assert ZombieClosed(t1, others);
    }
    forall p, c | p in t2 && c in kids[1..] ensures c !in t2[p].children {
      assert t2[p].children == tab[p].children;
    }
  }

  lemma Combine(tab: Table, kids: seq<Pid>, t1: Table, t2: Table, r: Table)
    requires Linked(tab) && HandedOver(tab, kids) && FirstDone(tab, kids, t1, t2) && Linked(t2)
    requires Removal(t2, Zombies(t2, kids[1..]), kids[1..], r)
    ensures Removal(tab, Zombies(tab, kids), kids, r)
  {
    var gone, gone1, gone2 := tab.Keys - r.Keys, t1.Keys - t2.Keys, t2.Keys - r.Keys;
    assert gone == gone1 + gone2;
    CombineClosure(tab, kids, t1, t2, gone1, gone2);
    forall q | q in r
      ensures ChildOfGone(tab, gone, q) <==> ChildOfGone(t1, gone1, q) || ChildOfGone(t2, gone2, q)
    {
      CombineOrphans(tab, kids, t1, t2, gone1, gone2, q);
    }
  }

  lemma CombineOrphans(tab: Table, kids: seq<Pid>, t1: Table, t2: Table, gone1: set<Pid>, gone2: set<Pid>, q: Pid)
    requires FirstDone(tab, kids, t1, t2) && gone1 == t1.Keys - t2.Keys && gone2 <= t2.Keys
    ensures ChildOfGone(tab, gone1 + gone2, q) <==> ChildOfGone(t1, gone1, q) || ChildOfGone(t2, gone2, q)
  {
    assert forall p :: p in gone2 ==> t2[p].children == tab[p].children;
    assert forall p :: p in gone1 ==> t1[p].children == tab[p].children;
    if ChildOfGone(tab, gone1 + gone2, q) {
      var p :| p in gone1 + gone2 && p in tab && q in tab[p].children;
      assert if p in gone1 then ChildOfGone(t1, gone1, q) else ChildOfGone(t2, gone2, q);
    }
  }

  lemma CombineClosure(tab: Table, kids: seq<Pid>, t1: Table, t2: Table, gone1: set<Pid>, gone2: set<Pid>)
    requires Linked(tab) && HandedOver(tab, kids) && FirstDone(tab, kids, t1, t2) && Linked(t2)
    requires gone1 == t1.Keys - t2.Keys && IsZombieClosure(t2, Zombies(t2, kids[1..]), gone2)
    ensures IsZombieClosure(tab, Zombies(tab, kids), gone1 + gone2)
  {
    assert forall q :: q in t2 ==> t2[q].children == tab[q].children && t2[q].state == tab[q].state;
    assert Zombies(tab, kids) <= gone1 + gone2 by {
      forall c | c in Zombies(tab, kids) ensures c in gone1 + gone2 {
        if c != kids[0] {
          assert c in kids[1..];
        }
      }
    }
    forall s: set<Pid> | Zombies(tab, kids) <= s && ZombieClosed(tab, s) ensures gone1 + gone2 <= s {
      assert ZombieClosed(t1, s) && ZombieClosed(t2, s);
      assert Zombies(t2, kids[1..]) <= s;
    }
  }

  /** Removal of an orphan keeps the whole forest. */
  lemma RemoveKeepsForest(tab: Table, pid: Pid)
    requires Forest(tab) && pid in tab && tab[pid].ppid == INIT
    ensures Forest(RemoveSlave(tab, pid))
  {
    RemoveExact(tab, pid);
    var r := RemoveSlave(tab, pid);
    var gone := tab.Keys - r.Keys;
    forall c | c in r && r[c].ppid != INIT ensures r[c].ppid in r && c in r[r[c].ppid].children {
      var p := tab[c].ppid;
      assert p in gone ==> ChildOfGone(tab, gone, c);
    }
  }

  /** A task that survives a removal has changed at most its parent. */
  lemma SurvivorIsSame(tab: Table, pid: Pid, q: Pid)
    requires Linked(tab) && pid in tab && tab[pid].ppid == INIT
    requires q in RemoveSlave(tab, pid)
    ensures q in tab && q != pid && RemoveSlave(tab, pid)[q] == tab[q].(ppid := RemoveSlave(tab, pid)[q].ppid)
  {
    RemoveExact(tab, pid);
  }
}
