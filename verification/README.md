# A Dafny model of OKFS

OKFS runs programs under ptrace and emulates parts of the kernel for them: path resolution over mounted
file systems, descriptor tables shared across processes, the process tree with `wait` and job-control
signals, patches in the traced program's memory, and a remote file system spoken over a shell connection.
This project models those parts and proves what they promise over every input, every run or every
reachable state. `dafny verify dfyconfig.toml` checks all of it.

| component | specification and laws | code |
|---|---|---|
| path canonicaliser | `NameiSpec`, `NameiLaws`, `NameiLinks` | `Namei` (byte buffers), `CText` |
| process table, wait, signals | `Tasks`, `WaitModel`, `WaitLaws`, `WaitTheorems`, `WaitEffects`, `WaitPatch`, `WaitRace`, `WaitHidden`, `WaitEnds`, `WaitLeak` | `Supervisor` (classes `Slave`, `Okfs`: task objects changed in place) |
| descriptor tables | `FdModel`, `FdLaws`, `FdTheorems`, `FdEffects` | `Descriptors` (classes `SharedFile`, `FdTask`, `Table`: slots that share file objects) |
| life of a system call | `CallModel`, `CallLaws`, `CallEffects` | `Calls` (classes `FsResolve`, `Slave`, `Tracer`) |
| memory of a traced task | `Words`, first part of `Memory` | `Memory` (class `Tracee`) |
| shfs connection | `Stream` | `Connection` (class `ShfsData`) |
| shfs quoting and tokenizer | `QuotingSpec` | `Quoting` |
| shfs calendar | first part of `Calendar` | methods of `Calendar` |
| inode cache | `DcacheModel` | `Dcache` (classes `Inode`, `Superblock`) |
| directory records | `DirentSpec` | `Dirents` |

The classes hold a ghost copy of the state of their step relation; `Valid` ties the objects to it, and the
contract of a method says what it does to that state and, where a caller would ask, what that means. What
the steps of a relation do is itself stated without their definitions: `NameiLinks`, `WaitEffects`,
`FdEffects` and `CallEffects` say, event by event and for every state that keeps the invariants, what a reader of the task, of the
descriptors or of the resolved path finds afterwards.

## Two builds

`ASSERT` is empty unless `DEBUG_OKFS` is defined (src/debug.h:8-42), and the repository undefines it there:
the build that ships runs on where the debug build gives up. The build is a parameter, `asserts`, of the
models of descriptors and of calls: `asserts == false` is the shipped build. Theorems about descriptors need
no hypothesis for the shipped build, failed closes included; the debug build gives up exactly when a close
fails, and the theorems speak of its runs up to there. Of the fatal errors of calls only the assertion in
fstat64 belongs to the debug build. The model of wait and signals is that of the shipped build, where a
failed wait for a dead child makes the code follow a null pointer.

## How the outside world enters

- `lstat` and `readlink` are a pure oracle on path strings; the working directory is canonical, resolved and shorter than `PATH_MAX`.
- The kernel is the environment of a step relation. For wait and signals: a signal is taken only outside a call, `pause` returns only when a signal is pending, a child's end is seen by OKFS before its parent's wait reports it, a wait for a child that is known to be dead reports a dead child or fails (as it does for a bad status address), OKFS's own wait fails only when every process is dead, new process numbers are fresh. For descriptors: a call's kernel half and its handler are two steps, a new descriptor is one that was not open, a close may fail and closes the descriptor all the same.
- A request of ptrace for a task that stands still for OKFS succeeds, unless it is for an address that the task gave and cannot use: path pointers, the room behind a path that is replaced, buffers for results and status addresses may be bad. The code at the task's instruction pointer can be read and written.
- The bytes of a connection are a list of arrivals of any sizes, ended by the peer or by an error of `read`.
- Clock values, results of file-system back ends and results of canonicalisation inside call handlers are parameters.

## What the code does that one might not expect

- The canonicaliser is laxer than POSIX on trailing slashes (`name/` is accepted for a file), and a splice that reaches `PATH_MAX` is refused although the result might be short: `NameiLaws.TextRefinesComponents`.
- A link target of `PATH_MAX` bytes or more puts at least its terminator behind the end of the buffer; the remote file system's readlink does not even look at the size of the buffer. `NameiLaws.CanonicalOverruns` says exactly when this happens, `NameiLaws.LongTargetOverruns` gives the inputs.
- The report of a stopped child does not look at the child again. If the child has died in between (`WaitRace.RaceHidesDeadChild` is such a run, and `WaitTheorems.DeadStayZombiesIff` says that no other event does this), its record says "stopped and reported": over every run every blocking wait for that child alone suspends its parent (`WaitHidden.HiddenForEver`), and only a signal ends that sleep (`WaitHidden.SleepsOn`). If the child has been continued in between, it is taken for a stopped one, and the next SIGCONT for it ends OKFS: `WaitPatch.StoppedStayPatchedIff`, `WaitEnds.ContinueAgainEnds`.
- That report does not test the status address either: `waitpid(-1, NULL, WUNTRACED)` with a stopped child ends OKFS (`WaitEnds.NullStatusEnds`).
- A wait with `WNOHANG` that reaps a child takes it off the child list but leaves its task in the table, from which it never goes: `WaitLeak.LeakIff`, `WaitLeak.LeakForEver`. After `WaitLeak.LeakOutlivesAll` every process is dead and OKFS has not ended; it ends with the error of its own wait.
- Stopping a task whose parent is not traced (the first task, or an orphan) ends OKFS in `find_slave`, stopping one whose fork has failed ends it in `slave_rpl_mem` (`WaitEnds.FailedForkThenStopEnds`), and a wait for a dead child that fails in the kernel makes it follow a null pointer: `WaitTheorems.HaltsOnlyWhen` lists all ends.
- Signal 64, once held back from a stopped task, is never handed over: `WaitTheorems.LastSignalStaysHeld`.
- `dup2(fd, fd)` makes OKFS forget an open descriptor: `FdTheorems.Dup2Tracks`.
- A failed fork leaves its patch in place, and the next patch of that task (in the debug build, also its next fstat64 of a file of OKFS) ends OKFS; so does a bad address in the arguments of a call that OKFS handles: `CallLaws.FatalRunExactly`, `CallLaws.FailedForkIsFatal`, `CallLaws.FailedForkBreaksStat`.
- The code compares what `read` returns with `-EAGAIN`, but `read` returns -1: the branch that should try again is dead (`Connection.ShfsData.ReadLine`, `Connection.ShfsData.ReadBytes`), and `Stream.ErrorUnseen` says exactly when a client does not notice.
- A line that fills the line buffer is cut and loses one byte: `Stream.AnswerConserves`.
- `convert_path` answers a path of 512 bytes or more with a negative number, which its callers take for success: `Quoting.ConvertPath`, `Quoting.FrameTwoPaths`.
- The size of a directory fill is compared after a 32-bit sum and returned as an int: `Dirents.CreatDirent` says when it wraps and when it comes back negative.

## Model

| member | source | states |
|---|---|---|
| `CText.MemMove` | src/lib/okfs_lib.c:138-156 | the target area holds what the source area held before, for any overlap and either copying direction |
| `Namei.Canonical` | src/filesystems/vfs_namei.c:56-194 | the buffer algorithm returns exactly the path or the error of the resolution over bytes (what that is for each kind of name and link: `NameiLinks`), for every name, working directory and file system, cyclic links included; every access to the result, the name and the splice buffer is in bounds, and the buffer for link targets is overrun exactly when `Overruns` says so |
| `Namei.Walk` | src/filesystems/vfs_namei.c:90-185 | the main loop ends for every file system (links left, then unread bytes) and keeps the answer of the resolution unchanged from turn to turn |
| `Namei.OneTurn` | src/filesystems/vfs_namei.c:94-184 | one turn is one step of the byte walk, with the result buffer spelling the component stack before and after |
| `Namei.Visit` | src/filesystems/vfs_namei.c:113-184 | an ordinary component is appended, looked at and followed as the specification says, with the same errors |
| `Namei.FollowLink` | src/filesystems/vfs_namei.c:164-182 | after a link the unread bytes are target and rest, and the result buffer is back at the directory the target starts from: the root for an absolute target, the directory of the link for any other (`NameiLinks.AbsoluteLink`, `NameiLinks.RelativeLink`) |
| `Namei.Splice` | src/filesystems/vfs_namei.c:164-173 | target followed by the unread rest, also when the rest already lives in the splice buffer |
| `Namei.Append` | src/filesystems/vfs_namei.c:114-135 | the buffer, grown when needed, spells the stack with one component more, terminated |
| `Namei.MakeRoom` | src/filesystems/vfs_namei.c:118-131 | reallocation leaves room for the component and its terminator and keeps what was written |
| `Namei.Parent` | src/filesystems/vfs_namei.c:106-112 | `..` drops the last component and never goes above the root |
| `Namei.NextComponent` | src/filesystems/vfs_namei.c:94-100 | finds the next component as the splitting of the text defines it |
| `Namei.EmptyPath` | src/filesystems/vfs_namei.c:38-45 | true exactly when only separators are left |
| `Namei.ReadLink` | src/filesystems/vfs_namei.c:156-159 | the target and its terminator are in the buffer, or the terminator lies outside, which is so exactly for targets of `PATH_MAX` bytes or more |
| `Namei.Inspect` | src/filesystems/vfs_namei.c:137-159 | the verdict on a component, the target in the buffer and the number of links used up |
| `Namei.Classify` | src/filesystems/vfs_namei.c:94-113 | the next component is nothing, `.`, `..` or a valid name, and the step of the specification follows from which it is |
| `Namei.Finish` | src/filesystems/vfs_namei.c:186-189 | the returned C string is the rendering of the stack, without a trailing separator unless it is the root |
| `NameiLaws.TextRefinesComponents` | src/filesystems/vfs_namei.c:90-189 | walking the bytes gives exactly what the component-stack resolver gives, errors included, unless the walk gives up at a link whose target and rest reach `PATH_MAX`, and then it answers `ENAMETOOLONG`; where either goes at each component is fixed by `NameiLinks.WalkComponent` |
| `NameiLaws.ShortNamesResolveExactly` | src/filesystems/vfs_namei.c:90-189 | when the name and twenty of the longest link targets fit below `PATH_MAX`, bytes and components resolve alike without exception |
| `NameiLaws.StepRefines` | src/filesystems/vfs_namei.c:94-184 | one component of the byte walk is one step of the component resolver |
| `NameiLaws.WalkIsGood` | src/filesystems/vfs_namei.c:90-185 | from a resolved directory, every successful walk ends in a valid stack whose ancestors were all seen not to be links |
| `NameiLaws.CanonicalNameIsCanonical` | src/filesystems/vfs_namei.c:47-54 | a returned path has no empty, `.` or `..` component and no trailing slash, no proper ancestor is a link, and the file itself is none when the last link is read |
| `NameiLaws.CanonicalNameIdempotent` | src/filesystems/vfs_namei.c:47-54 | canonicalising the result again, from any directory, gives the same path |
| `NameiLaws.OverrunIffLongTarget` | src/filesystems/vfs_namei.c:147-168 | a walk writes behind the end of the buffer exactly when it reads a link whose target has `PATH_MAX` bytes or more |
| `NameiLaws.CanonicalOverruns` | src/filesystems/vfs_namei.c:147-168 | the same for `canonical`, which then always answers `ENAMETOOLONG` |
| `NameiLaws.LongTargetOverruns` | src/filesystems/vfs_namei.c:156-159 | every link in the root directory with such a target does it |
| `NameiLaws.CycleIsReported` | src/filesystems/vfs_namei.c:147-152 | a link to itself is answered with `ELOOP`, on every file system, from every directory and with anything behind the name |
| `NameiLinks.WalkComponent` | src/filesystems/vfs_namei.c:94-184 | the answer for a name that goes on with any component, by what it is: `.` stays, `..` goes to the parent or stays at the root, a last component need not exist, an unread last link stays, a twenty-first link is `ELOOP`, a splice of 4096 bytes is `ENAMETOOLONG`, an absolute target starts at the root and any other at the directory of the link |
| `NameiLinks.CanonicalStarts` | src/filesystems/vfs_namei.c:63-88 | no name is `EINVAL`, an empty name `ENOENT`, a relative name without a working directory `EINVAL`; an absolute name is walked from the root and a relative one from the working directory |
| `NameiLinks.RelativeName` | src/filesystems/vfs_namei.c:77-84 | a relative name is canonicalised like the working directory, a separator and that name |
| `NameiLinks.DotNames` | src/filesystems/vfs_namei.c:104-112 | a directory with `/.` behind it is that directory, with `/..` behind it its parent, and the root is its own parent |
| `NameiLinks.AbsoluteLink` | src/filesystems/vfs_namei.c:164-177 | a link whose target is the text of a canonical path leads to that path wherever the link is, with the rest of the name looked up there, or is `ENAMETOOLONG` exactly when target and rest reach 4096 bytes |
| `NameiLinks.RelativeLink` | src/filesystems/vfs_namei.c:164-182 | a link with a relative target leads there from its own directory, with the rest of the name behind it, under the same limit |
| `NameiLinks.LinkChain` | src/filesystems/vfs_namei.c:147-154 | a chain of links resolves to its end exactly when there are at most twenty, and is `ELOOP` otherwise |
| `NameiSpec.SplitRender` | src/filesystems/vfs_namei.c:94-135 | splitting a rendered stack gives the stack back |
| `NameiSpec.SplitJoin` | src/filesystems/vfs_namei.c:164-173 | splitting target and rest is splitting each, which is why a splice of bytes is a splice of components |
| `Tasks.RemoveExact` | src/task.c:65-100 | `remove_slave` ends and removes exactly the task and the least set of zombie children of removed tasks; surviving children become orphans, all else is as before |
| `Tasks.ClosureIsUnique` | src/task.c:86-93 | that set is unique |
| `Tasks.RemoveKeepsForest` | src/task.c:65-100 | child lists and parent numbers still describe one forest, without dangling nodes |
| `Tasks.SurvivorIsSame` | src/task.c:86-93 | a task that survives has changed at most its parent |
| `WaitLaws.StepKeeps` | src/okfs.c:204-234 | every event keeps the invariant: forest, wake-up of suspended parents, handlers that find their child |
| `WaitLaws.RunKeeps` | src/okfs.c:204-234 | the same over every run |
| `WaitLaws.ScannedOk` | src/control.c:124-220 | after the scan the caller is served, or suspended with no child to report |
| `WaitLaws.LeaveHandler` | src/control.c:49-102 | unless a wait for a dead child failed or the status address of a stop report is bad, every handler behind a wait or fork goes through and keeps the invariant |
| `WaitLaws.LeaveKeeps` | src/okfs.c:122-145 | leaving a call keeps the invariant and ends OKFS exactly when a wait for a dead child has failed or the status address of a stop report cannot be used |
| `WaitLaws.ProcessKeeps` | src/okfs_signal.c:95-131 | stopping, waking, holding back or passing on a signal keeps the forest and the wake-up of every suspended parent |
| `WaitLaws.ReapKeeps` | src/control.c:70-78 | reaping removes the child and its zombie descendants and leaves the parent's other children alone |
| `WaitTheorems.NoLostWakeUp` | src/control.c:110-217 | in every reachable state, a task suspended in `pause` with a child that its wait would report has SIGUNPAUSE pending, so its pause can return |
| `WaitTheorems.ReadyChildIsServed` | src/control.c:140-200 | a wait entered while a child can be reported is answered and not suspended |
| `WaitTheorems.HaltsOnlyWhen` | src/okfs.c:204-234 | OKFS ends exactly when its last task is gone, a task without a traced parent or with replaced memory is stopped, a task on record as stopped is continued and has no replaced memory, a task with replaced memory forks, a wait for a dead child fails, the report of a stopped child has a bad status address, or its own wait fails |
| `WaitTheorems.StoppedTaskIsShielded` | src/okfs_signal.c:95-131 | a task that was or becomes stopped is passed no signal but SIGCONT, which makes it run, and the stopping signal that stops it |
| `WaitTheorems.HeldSignalsSurvive` | src/okfs_signal.c:84-131 | over every run, a held signal stays masked or pending for as long as the task is stopped, and still is when the task runs again |
| `WaitTheorems.LastSignalStaysHeld` | src/okfs_signal.c:84-93 | signal 64 stays in the mask for as long as the task is in the table |
| `WaitTheorems.DeadStayZombiesIff` | src/control.c:82-102 | a dead task stops being recorded as a zombie exactly by the report of a stopped child that has died |
| `WaitTheorems.DeadChildWakesParent` | src/task.c:39-62 | over every run without that report, a suspended parent of a matching dead child has SIGUNPAUSE pending |
| `WaitEffects.WaitEntered` | src/control.c:124-220 | in every state with the invariant, for every wait entered: the task is suspended exactly when its options are good, it may block, some listed child is one that it asks for and none of these has news; the same with `WNOHANG` leaves it to be polled; with bad options, or no child that it asks for, no handler and no restart is left, so that the kernel answers `ECHILD` |
| `WaitEffects.WaitChooses` | src/control.c:141-200 | with news, the wait is set up for the first child in list order that it asks for and that is dead, or stopped, unreported and asked for |
| `WaitEffects.CallEntered` | src/okfs.c:101-120 | a fork replaces the code in front of it and leaves its handler, ending OKFS exactly over a patch; any other call leaves none |
| `WaitEffects.PassedExactly` | src/okfs_signal.c:95-131 | a signal gets through to its task, itself and no other, exactly unless it is SIGUNPAUSE, or the task was stopped and it is not SIGCONT, or OKFS ends there |
| `WaitEffects.SignalEffect` | src/okfs_signal.c:49-131 | SIGSTOP, SIGTSTP, SIGTTIN or SIGTTOU with its default action stops a running task and replaces its memory, SIGCONT undoes both for a stopped one, no other signal changes the state |
| `WaitEffects.StopTellsParent` | src/okfs_signal.c:57-61 | a stop wakes the parent and sends it SIGCHLD exactly when it has not set SA_NOCLDSTOP; no signal concerns any other task |
| `WaitEffects.HandedOver` | src/okfs.c:210-214 | whenever a task goes on, its mask is at most signal 64, all other signals held back from it are pending in the kernel, and of what was pending only the signal just taken is gone |
| `WaitEffects.LeaveEnds` | src/control.c:70-102 | OKFS ends behind a call exactly when a wait for a dead child failed or the status of a stopped one cannot be read or written, case by case |
| `WaitEffects.PlainReturn` | src/okfs.c:122-145 | a return with nothing to report, the end of a pause included, wipes the call of its task and changes nothing else |
| `WaitEffects.StopReported` | src/control.c:98-101 | the report of a stopped child marks that child as reported and changes no other task |
| `WaitEffects.ForkReturns` | src/task.c:125-214 | the child runs, has its parent, its group and its dispositions, and nothing else of it; it comes first in the list, and neither has replaced memory |
| `WaitEffects.PollReaps` | src/control.c:49-66 | a reap behind `WNOHANG` takes the child off the list, the others in their order, and leaves its record an orphan |
| `WaitEffects.WaitReaps` | src/control.c:70-78 | any other reap removes the child with the least set of zombie children of removed tasks, orphans their other children and takes the child off the list; no other task changes |
| `WaitEffects.ChildEnds` | src/task.c:39-57 | a child that ends is a zombie and wakes its parent, and nothing else changes |
| `WaitEffects.OrphanEnds` | src/task.c:58-62 | an orphan that ends is removed with that least set; OKFS ends exactly when the table is empty then |
| `WaitRace.RaceHidesDeadChild` | src/control.c:82-102 | a run of ten events after which a dead child is recorded as stopped and reported, and its parent is suspended in a wait for it with no signal pending |
| `WaitHidden.HiddenStep` | src/control.c:124-220 | no event changes such a record but the end of the parent or a wait for others that the kernel answers with this child |
| `WaitHidden.HiddenForEver` | src/control.c:124-220 | the same over every run, and all along every blocking wait for that child alone suspends the parent instead of reporting it |
| `WaitHidden.SleepsOn` | src/control.c:110-118 | over every run in which no signal comes to it, a suspended task with no signal pending stays suspended and its pause does not return |
| `WaitHidden.RaceSleeps` | src/control.c:82-102 | both, for every run that follows the race |
| `WaitPatch.StoppedStayPatchedIff` | src/control.c:98-101 | while OKFS goes on, a task on record as stopped comes to be without its sleeping code exactly by a stop report that hits a child that goes on |
| `WaitPatch.ContinueWakes` | src/okfs_signal.c:65-80 | after every run without such a report, SIGCONT restores the memory of a stopped task and makes it run, and OKFS goes on |
| `WaitEnds.NullStatusEnds` | src/control.c:82-102 | a run of six events that ends OKFS by a wait for stopped children without a status address |
| `WaitEnds.FailedForkThenStopEnds` | src/okfs_signal.c:49-63 | a run of six events that ends it by a SIGSTOP after a failed fork, though the parent is traced |
| `WaitEnds.ContinueAgainEnds` | src/okfs_signal.c:65-80 | a run of ten events that ends it by a SIGCONT for a child that was reported as stopped while it ran |
| `WaitLeak.LeakIff` | src/control.c:49-66 | a dead task without a parent comes into the table exactly by a reap behind `WNOHANG`, or by the removal of the parent of a dead child recorded as stopped |
| `WaitLeak.LeakStays` | src/task.c:65-100 | no event takes it out again |
| `WaitLeak.LeakForEver` | src/task.c:97-99 | over every run from then on the table is never empty, so OKFS cannot end with its last task |
| `WaitLeak.LeakOutlivesAll` | src/control.c:49-66 | a run of six events after which every process is dead, a task is left and OKFS has not ended |
| `Supervisor.Okfs.RemoveSlave` | src/task.c:65-100 | the recursion over task objects removes exactly what the specification removes; `slave` is cleared exactly when its task goes, and OKFS ends exactly when the table is empty |
| `Supervisor.Okfs.OrphanChildren` | src/task.c:86-93 | the loop over the child list |
| `Supervisor.Okfs.RemoveChild` | src/task.c:103-122 | the child leaves the list and has no parent; a process that is not in the list makes the code follow a null pointer, whatever the list |
| `Supervisor.Okfs.Scan` | src/control.c:141-203 | one pass over the child list finds the first child to report, or tells whether any child is waited for |
| `Supervisor.Okfs.BeforeWait` | src/control.c:124-220 | the caller is set up for the child found, for polling, or for sleep, or left to the kernel when no child is waited for; `WaitEffects.WaitEntered` says when each of these happens |
| `Supervisor.Okfs.ChangeSlaveState` | src/task.c:39-62 | new state, notification of the parent, removal of a dead orphan |
| `Supervisor.Slave.DeliverPendingSignals` | src/okfs_signal.c:84-93 | the loop hands every held signal but the last one to the kernel; the mask is empty afterwards exactly when that one was not held |
| `Supervisor.Okfs.AfterWaitIsZombie` | src/control.c:70-78 | the reaped child leaves list and table |
| `Supervisor.Okfs.WakeupSlave` | src/okfs_signal.c:65-80 | a stopped task has its memory restored and runs, or OKFS ends because nothing was replaced |
| `Supervisor.Okfs.Turn` | src/okfs.c:204-234 | one turn of the loop over task objects is one step of the model, keeps its invariant and passes on the signal the model passes on, which `WaitEffects.PassedExactly` names |
| `Supervisor.Okfs.GuardSlaves` | src/okfs.c:204-234 | any run of turns over task objects leads to the state that the run defines, so that the theorems about runs hold of the objects |
| `FdLaws.CloseFdRef` | src/filesystems/vfs_fd_calls.c:91-106 | closing a slot keeps all counts exact and frees the file with its last slot |
| `FdLaws.DoDupRef` | src/filesystems/vfs_fd_calls.c:259-271 | duplicating a slot keeps all counts exact |
| `FdLaws.AddNewRef` | src/filesystems/vfs_open.c:46-69 | a new descriptor in an empty slot keeps all counts exact |
| `FdLaws.ForkRef` | src/task.c:167-179 | sharing a whole table with a child keeps all counts exact |
| `FdLaws.CloseFromRef` | src/control.c:332-338 | the closing loops of exec and exit empty exactly the slots they should and keep all counts exact |
| `FdTheorems.StepKeeps` | src/okfs.c:101-145 | every kernel half, handler half and exit keeps counts and agreement with the kernel, in the debug build except the end of a close that failed |
| `FdTheorems.GivesUpExactly` | src/filesystems/vfs_fd_calls.c:109-127 | the shipped build never gives up, the debug build exactly at the end of a close that failed; no assertion on slots, counts or flags would fail, and no null or freed pointer is followed |
| `FdTheorems.RunKeeps` | src/okfs.c:204-234 | over every run the debug build gives up exactly when some close fails, and otherwise counts and agreement hold at the end |
| `FdTheorems.ShippedNeverGivesUp` | src/debug.h:38-42 | the shipped build gets to the end of every run with counts and agreement intact, whatever closes fail |
| `FdTheorems.CountsAreExact` | src/filesystems/vfs_fd_calls.c:91-127 | over every run of the shipped build, and of the debug build while no close fails, each live file counts exactly its slots, and each slot points to a live file with that file's fsfd |
| `FdTheorems.ClosedOnce` | src/filesystems/vfs_fd_calls.c:109-127 | over the same runs a file system's close is called at most once per file, and every file it was called for is gone and has no slot left |
| `FdTheorems.TrackedIsOpen` | src/filesystems/vfs_open.c:46-69 | over the same runs, between calls, a tracked descriptor is open in the kernel with the same close-on-exec flag, untracked flags are clear, so a new descriptor lands in an empty slot |
| `FdTheorems.LastCloseOnly` | src/filesystems/vfs_fd_calls.c:109-127 | a file system's close is called exactly when the close of the last slot of a managed file returns, with the fsfd it was opened with, and the file is gone; the debug build does not call it when the kernel's close has failed |
| `FdTheorems.Dup2Tracks` | src/filesystems/vfs_fd_calls.c:282-300 | the target of dup2 is tracked exactly when the source was tracked and is another descriptor |
| `FdEffects.SpanIsRun` | src/okfs.c:204-234 | a call, anything that other tasks do meanwhile and the return of the call are a run like any other |
| `FdEffects.OthersLeave` | src/okfs.c:204-234 | no event of one task changes the descriptors, the call or the kernel table of another |
| `FdEffects.OpenTracks` | src/filesystems/vfs_open.c:175-221 | over such a span, an open that returned a descriptor in range leaves there a file that was not live before and that no slot pointed to, with a count of one, of the kind and with the fsfd asked for; nothing else changes |
| `FdEffects.OpenUnseen` | src/filesystems/vfs_open.c:175-221 | an open that failed or went out of range changes nothing |
| `FdEffects.DupShares` | src/filesystems/vfs_fd_calls.c:259-280 | dup and F_DUPFD of a tracked descriptor make the new slot point to the same file, with one sharer more; nothing else changes |
| `FdEffects.DupUnseen` | src/filesystems/vfs_fd_calls.c:273-280 | a dup that failed, went out of range or was of an untracked descriptor changes nothing |
| `FdEffects.Dup2Moves` | src/filesystems/vfs_fd_calls.c:282-300 | dup2 in range closes its target and makes it share the file of the old descriptor when that is tracked and another one; out of range it changes nothing |
| `FdEffects.CloseForgets` | src/filesystems/vfs_fd_calls.c:91-127 | a close empties the slot of a tracked descriptor; its file loses a sharer, or is gone exactly when no other slot points to it; a close of an untracked one changes nothing |
| `FdEffects.FlagSet` | src/filesystems/vfs_fd_calls.c:391-394 | F_SETFD sets the flag of a tracked descriptor and no other |
| `FdEffects.ExecCloses` | src/control.c:325-338 | a successful exec empties exactly the tracked slots that are flagged and keeps the others |
| `FdEffects.ForkShares` | src/task.c:167-179 | the child has the table of its parent, and every file one sharer more for each slot of it |
| `FdEffects.ExitDrops` | src/task.c:46-51 | a task that ends takes its slots with it and nobody else's; a file stays exactly when a slot of another task points to it |
| `Descriptors.Table.CloseFd` | src/filesystems/vfs_fd_calls.c:91-106 | no slot of any task points to a freed file afterwards; the file is freed exactly when its count was one |
| `Descriptors.CountsAllowClose` | src/filesystems/vfs_fd_calls.c:91-106 | a count of one means that this slot is the only one anywhere, so that freeing leaves no dangling pointer |
| `Descriptors.Table.CloseAll` | src/task.c:46-51 | the loop over the whole table |
| `Descriptors.Table.ShareWithChild` | src/task.c:167-179 | the child's slots point to the parent's file objects, and each of these has one sharer more per slot |
| `Descriptors.Table.Call` | src/filesystems/vfs_fd_calls.c:65-76 | the handlers in front of the calls on descriptors, over task objects, leave due exactly what the model does, and the invariant is kept; what comes of each call is in `FdEffects` |
| `Descriptors.Table.Return` | src/okfs.c:130-145 | the handler of any call, over shared objects, is the step of the model: counts stay exact, tables agree with the kernel, and only the debug build gives up, exactly when a close has failed |
| `Descriptors.Table.Exit` | src/task.c:46-51 | the descriptors of a task that ended, with the invariant kept |
| `Descriptors.Table.Run` | src/okfs.c:204-234 | any run of calls, handlers and exits over the objects leads to the state that the run defines, so that `FdEffects` holds of the objects: the counter of every live file object is the number of slots of task objects that point to it, unless the debug build has given up, which it does exactly when a close fails |
| `Descriptors.Trace` | src/okfs.c:240-268 | the same from the start of OKFS |
| `CallLaws.EnterKeeps` | src/okfs.c:101-120 | entering makes a clean task ready for its handler, and is fatal exactly when memory is to be replaced while a patch is there, or when an address is bad |
| `CallLaws.LeaveKeeps` | src/okfs.c:122-145 | leaving leaves the task and a forked child clean and clears the patch unless a fork failed; it is fatal exactly when an address is bad or, in the debug build, when fstat64 finds its file while a patch is there |
| `CallLaws.StepKeeps` | src/okfs.c:91-162 | every entry, exit and death keeps the invariant over all tasks |
| `CallLaws.EntryFindsClean` | src/filesystems/vfs_path_calls.c:49-184 | in every run, a task about to enter a call has empty path fields, no handler left and no patch outstanding, except a patch from its own failed fork |
| `CallLaws.FatalRunExactly` | src/memacc.c:109-151 | over every run OKFS gives up exactly when some task replaces memory (in the debug build, or ends an fstat64 of a file of OKFS) after a fork of its own has failed, or gives a handler a bad address |
| `CallLaws.FatalExactly` | src/memacc.c:109-151 | the same for the next event, with the error it gives; no other check of the modelled handlers fails |
| `CallLaws.NeverFatal` | src/okfs.c:91-162 | over every run in which forks succeed, the "replaced and not restored" errors are never reached in either build; nothing but a bad address ends OKFS |
| `CallLaws.HandlersRunOnce` | src/okfs.c:122-145 | no call has its handler run twice |
| `CallLaws.FailedForkIsFatal` | src/control.c:227-255 | fork fails, the task runs into the pause loop that was left in its code, and an open in a signal handler of its own ends OKFS, in either build |
| `CallLaws.FailedForkBreaksStat` | src/filesystems/vfs_stat.c:108-129 | an fstat64 there, which replaces no memory, ends the debug build and only that |
| `CallLaws.ResolvedSplits` | src/filesystems/vfs_path_calls.c:76-96 | a canonical path is the first mount point that stands in front of it followed by the relative path: whenever the path is mount point i and some rest, also an empty one, it is resolved to a mount k <= i, and it is left to Linux exactly when it is no mount point followed by anything |
| `CallEffects.Entered` | src/okfs.c:101-120 | entering a call concerns its task alone, which is in the call under a number of its own and is to be restarted exactly when a wait was turned into a pause |
| `CallEffects.HandlerLeft` | src/okfs.c:112-119 | for every kind of call but open, link and rename, the handler that will run, and that only fork and clone replace memory |
| `CallEffects.OpenLeft` | src/filesystems/vfs_open.c:224-297 | an open goes on exactly when its path can be canonicalised and, under a mount point, OKFS has opened the file; then it keeps the path, split at the first mount point, replaces memory, and the handler is that of its side; otherwise it is answered and keeps nothing |
| `CallEffects.LinkLeft` | src/filesystems/vfs_path_calls.c:262-288 | link and rename go on, with both paths kept, exactly when both can be canonicalised and lie under the same first mount point or both under none; otherwise they are answered and keep nothing |
| `CallEffects.LeftExactly` | src/okfs.c:122-145 | after a call nothing of it is left, its handler has run exactly when one was due, a fork that succeeded has made one new task with nothing of its own, and memory is replaced exactly where a fork has failed |
| `Calls.FindMount` | src/filesystems/vfs_path_calls.c:76-96 | the loop over the mount list finds the first mount point that the path is made of and a rest, and one is found whenever there is one, the path that is a mount point itself included |
| `Calls.FsResolve.ProcPath` | src/filesystems/vfs_path_calls.c:49-147 | gives up exactly when the pointer is bad or, in the debug build, when a path is left over, succeeds exactly when there is a text that can be canonicalised, and then the canonical path is mount point and relative path; whenever it is mount point i and some rest, a mount k <= i has been found |
| `Calls.Slave.BeforeOpen` | src/filesystems/vfs_open.c:224-297 | gives up exactly when an address is bad, memory is to be replaced over a patch or, in the debug build, a path is left over; otherwise the path and the patch are kept for the handler behind the call, or nothing is kept and an error is returned |
| `Calls.Slave.BeforeLinkRename` | src/filesystems/vfs_path_calls.c:262-288 | both paths are kept, on one file system, or the call is answered and none is kept, or OKFS gives up, exactly for a bad pointer or, in the debug build, a path left over |
| `Calls.Slave.DoAfterFork` | src/control.c:249-285 | a failed fork changes nothing; a successful one leaves neither parent nor child with a patch |
| `Calls.Slave.HandleEntry` | src/okfs.c:101-120 | makes a clean task one that its handler can finish, and gives up exactly when memory is to be replaced over a patch or an address is bad |
| `Calls.Slave.HandleExit` | src/okfs.c:122-145 | leaves the task and a new child clean, with a patch only after a failed fork, and gives up exactly when an address is bad or, in the debug build, when fstat64 finds its file while a patch is there |
| `Calls.Tracer.Stop` | src/okfs.c:91-162 | one stop of one task keeps the invariant over all task objects |
| `Calls.Trace` | src/okfs.c:204-234 | any run of stops over the objects gives up exactly when some task used its memory after a fork of its own had failed, or gave a bad address |
| `Words.MergeBytes` | src/memacc.c:59-67 | the masked merge takes the first n bytes from the source word and leaves the others |
| `Memory.Tracee.MemSet` | src/memacc.c:45-70 | exactly the n target bytes change, although whole words are written |
| `Memory.Tracee.MemGet` | src/memacc.c:73-101 | the n bytes are read back, and nothing else in the buffer changes |
| `Memory.Tracee.RplMem` | src/memacc.c:132-142 | memory patched and the old bytes kept, or refused when a patch is there |
| `Memory.Tracee.RplKnownStr` | src/memacc.c:109-127 | what is kept is what was in memory, for any lengths of old and new string |
| `Memory.Tracee.RestoreMem` | src/memacc.c:144-151 | the kept bytes are written back and the patch is over |
| `Memory.Tracee.GetStr` | src/memacc.c:155-178 | exactly the bytes up to the first NUL, with the doubling buffer never overrun |
| `Memory.PatchAndRestore` | src/memacc.c:109-151 | patch then restore is the identity on all memory |
| `Memory.ForkPatched` | src/control.c:237-278 | after a fork, parent's and child's memory both equal the memory before it |
| `Memory.RestoreUndoes` | src/memacc.c:144-151 | writing back what was there undoes any write of that length |
| `Stream.AnswerConserves` | src/filesystems/shfs/proc.c:57-162 | what one call delivers and what is left are together what was there, exactly when the line is NUL-free and fits both buffers |
| `Stream.ConversationConserves` | src/filesystems/shfs/proc.c:57-162 | for every sequence of calls that are answered, all that was delivered, with line ends, followed by what is left is the stream, exactly when every line fitted |
| `Stream.FittingConversation` | src/filesystems/shfs/proc.c:57-162 | and when the connection breaks on the way, what was delivered is the front of the stream |
| `Stream.FailureSeen` | src/filesystems/shfs/proc.c:57-162 | replies over the bytes before a failed read, compared with replies over the whole stream: equal exactly when those bytes answer every call, or when the whole stream breaks by a failed read at the same call |
| `Stream.ErrorUnseen` | src/filesystems/shfs/proc.c:85-97 | a failed read, EAGAIN like any other, goes unnoticed by a conversation exactly when the bytes before it answer every call, or when the stream would break by another failed read at the same call anyway |
| `Stream.LineAnswered` | src/filesystems/shfs/proc.c:123-142 | the line in front, ended by the first line end within 5120 bytes or cut in their last one, is answered with its front up to a NUL, to the room for it or to its end, and exactly the line and its end are taken off the stream |
| `Stream.OtherAnswers` | src/filesystems/shfs/proc.c:57-162 | a call for bytes that are there gets exactly them, a call that cannot be met fails as the connection ends and closes it, a closed connection answers EIO |
| `Stream.IncomingIs` | src/filesystems/shfs/proc.c:85-97 | what a reader learns: all bytes and EIO, or the bytes in front of the first failed read and -1, whatever its errno |
| `Connection.ShfsData.ReadLine` | src/filesystems/shfs/proc.c:110-162 | the reply and what is still to be delivered are a function of the bytes alone; the branch for -EAGAIN is never taken |
| `Connection.ShfsData.ReadBytes` | src/filesystems/shfs/proc.c:57-108 | the same for reading a number of bytes |
| `Connection.ShfsData.Shift` | src/filesystems/shfs/proc.c:69-79 | the buffer without its first n bytes |
| `Connection.ShfsData.Serve` | src/filesystems/shfs/proc.c:57-162 | any sequence of calls gets the replies, and leaves the bytes, that the stream defines; delivered bytes and the buffered and coming bytes together are the stream exactly when every line fitted |
| `Connection.ChunkingDoesNotMatter` | src/filesystems/shfs/proc.c:57-162 | two connections with the same bytes in different pieces give the same replies to every sequence of calls |
| `Quoting.ConvertPath` | src/filesystems/shfs/shfs.c:55-91 | 1 exactly when the quoted form fits, and then the buffer holds it; 0 exactly when only the quoting makes it too long; negative, with the buffer untouched, exactly when the path itself is too long |
| `Quoting.Spread` | src/filesystems/shfs/shfs.c:74-89 | the backward pass in place ends with every byte's piece where it belongs and never overwrites an unread byte |
| `Quoting.FrameCommand` | src/filesystems/shfs/shfs.c:93-117 | the line is command, blank, arguments and line end exactly when it fits, an error otherwise |
| `Quoting.FrameTwoPaths` | src/filesystems/shfs/shfs.c:171-182 | the line goes out exactly when the quoted form of every path below 512 bytes fits its buffer and the line fits, and holds these forms, and in the place of a longer path, which is not refused, whatever its buffer held; with two paths below 512 bytes it goes out exactly when both forms fit, and the remote side reads exactly the command and both paths |
| `Quoting.GetLine` | src/filesystems/shfs/perl-code.in:428-470 | the character loop returns what the five-state machine returns and consumes as much |
| `QuotingSpec.CommandRoundTrip` | src/filesystems/shfs/perl-code.in:428-470 | the tokenizer on a framed line returns exactly command and arguments, for paths with quotes, blanks, line ends or nothing in them, and stops right behind the final line end |
| `QuotingSpec.SessionRoundTrip` | src/filesystems/shfs/perl-code.in:478-482 | a sequence of framed lines is read as that sequence of commands |
| `QuotingSpec.FeedQuoted` | src/filesystems/shfs/perl-code.in:447-463 | inside quotes, the quoted form of any text adds exactly that text |
| `QuotingSpec.QuoteJoin` | src/filesystems/shfs/shfs.c:54-91 | quoting a concatenation is concatenating the quoted parts |
| `QuotingSpec.QuotedTextsJoin` | src/filesystems/shfs/perl-code.in:450-458 | quoted texts without a blank between them are one word |
| `QuotingSpec.BehindQuote` | src/filesystems/shfs/perl-code.in:454-465 | other characters behind a closing quote, or behind a backslash there, are lost |
| `QuotingSpec.BehindBackslash` | src/filesystems/shfs/perl-code.in:459-464 | behind a backslash there, a quote is added to the word and a blank or line end ends it |
| `QuotingSpec.UnfinishedLine` | src/filesystems/shfs/perl-code.in:436-439 | at the end of the input the word under way is lost, the words in front of it are returned, and with none the program ends |
| `QuotingSpec.EmptyLineIgnored` | src/filesystems/shfs/perl-code.in:478-482 | an empty line is no command and does not end the session |
| `Calendar.StrCTime` | src/filesystems/shfs/shfs.c:963-999 | for every non-negative time, a valid Gregorian date and time of day that the POSIX formula maps back to it |
| `Calendar.SplitYear` | src/filesystems/shfs/shfs.c:975-982 | the year and the day in it add up to the day count |
| `Calendar.SplitMonth` | src/filesystems/shfs/shfs.c:984-994 | month and day are valid and lie at the day of the year, leap day included |
| `Calendar.YearStep` | src/filesystems/shfs/shfs.c:937-942 | the POSIX formula gains a day exactly in the years that `isleap` names |
| `Calendar.DateIsUnique` | src/filesystems/shfs/shfs.c:963-999 | no other valid date has the same number of seconds |
| `Dcache.Superblock.FindInode` | src/filesystems/vfs_dcache.c:44-58 | the chain walk answers as a map from path to the last inode added for it |
| `Dcache.Superblock.SameInoFind` | src/filesystems/vfs_dcache.c:154-168 | the chain walk answers as a map from device and number to inode |
| `Dcache.Superblock.CreatInode` | src/filesystems/vfs_dcache.c:171-187 | one new inode, and still at most one per device and number |
| `Dcache.Superblock.PathInsert` | src/filesystems/vfs_dcache.c:114-125 | the new path hides an older one of the same name and nothing else |
| `Dcache.Superblock.AddInode` | src/filesystems/vfs_dcache.c:197-209 | a known file keeps its inode as it is, an unknown one gets a new inode |
| `Dcache.Superblock.SharedExactly` | src/filesystems/vfs_dcache.c:197-209 | two cached paths share an inode object exactly when device and number agree |
| `Dcache.Superblock.ChangeFileSize` | src/filesystems/vfs_dcache.c:379-387 | the size changes for the file of that path and for no other |
| `Dcache.Replay` | src/filesystems/vfs_dcache.c:44-209 | any sequence of additions, lookups and size changes, with any two hash functions, answers as two plain maps do, and each answer is what the history in front of it and the operation itself say |
| `DcacheModel.HistoryDecides` | src/filesystems/vfs_dcache.c:189-209 | the maps hold for each path the file it was last added for, and for each file its first record with the sizes set since |
| `DcacheModel.AnswersByHistory` | src/filesystems/vfs_dcache.c:44-58 | a lookup answers with the file its path was last added for in the operations before it, and with that file's first record and the sizes set since; an addition or a size change the same with itself counted |
| `DcacheModel.SizeSeenThroughLinks` | src/filesystems/vfs_dcache.c:371-387 | after any history, a size set through one path shows through another exactly when both name the same file |
| `Dirents.SkipTo` | src/filesystems/vfs_readdir.c:95-98 | the first entry whose offset in name bytes reaches the position |
| `Dirents.CreatDirent` | src/filesystems/vfs_readdir.c:87-169 | the bytes are the longest run of entries that fits, from the first at the position; a reader finds exactly these entries, item n with the name of entry n of the run when that has at most 255 bytes and its first 255 bytes otherwise; the result is their size as an int, negative exactly from 2^31 bytes on, 0 and -EINVAL mean the end and no fit, and `count` is exceeded exactly when a 32-bit sum wraps around |
| `DirentSpec.WalkReadsPacked` | src/filesystems/localfs/localfs.c:133-139 | walking by `d_reclen` over packed records recovers every entry: names of up to 255 bytes whole and the first 255 bytes of longer ones, numbers modulo 2^64 or 2^32 by layout, and for an offset the number of bytes of all names in front |
| `DirentSpec.RecordReads` | src/filesystems/vfs_readdir.c:104-113 | every field of a record reads back, whatever follows it |
| `DirentSpec.RecordSizes` | src/filesystems/vfs_readdir.c:107-113 | a record takes 20 or 11 bytes more than what is kept of the name |
| `DirentSpec.StopsAtLongest` | src/filesystems/vfs_readdir.c:114-115 | stopping at the first record that does not fit leaves the longest run that fits |
| `Dirents.CollectBatch` | src/filesystems/localfs/localfs.c:133-139 | a batch of records from the kernel, padded or not, ends up in front of the list, last one first, each with its name, number and kind |

## Left out

- ptrace, ssh, sockets, mounting, fstab and option parsing, logging: foreign calls and I/O plumbing.
- The call table of src/entry.c and src/fake_root.c: a static list.
- `clear_garbage` and `sock_write` (src/filesystems/shfs/proc.c): the resynchronisation compares with a sequence number that never changes and sends its ping without a line end.
- File position and size bookkeeping of read, write and lseek, and the progress of getdents over several calls: `f_pos` counts record bytes but is compared with name bytes.
- `path_remove` and the cache under rename and unlink: it dereferences empty buckets and an unset pointer.
- Register contents across stop and continue.
- Process groups beyond the group number a task inherits, threads, clone flags other than supported or not, close-on-exec at open, and system call number 0.
- `sigaction` is an arbitrary change of the dispositions of a task; the parsing of its arguments is not modelled.
- The sprintf of the six calendar numbers, the expansion of printf formats in `do_command`, ls and mode parsing, statfs: formatting.
- The remote side's shell back end and the commands behind the tokenizer.
- Linked lists (tasks, children, hash chains, directory entries, mounts) are sequences and maps, and a task names its parent, its children and `stopped_child` by process number; that what is named is alive is part of the invariants, the splicing of nodes is not modelled. `struct task` is three classes, `Supervisor.Slave`, `Descriptors.FdTask` and `Calls.Slave`, each with the fields of its component. The three arrays of a task's descriptors are sequences.
- Supervisor.Okfs.RemoveSlave: the unlinking of nodes from the task list is the removal of a key from a map, so aliasing of nodes is not captured.
- `Calls` keeps of a patch only whether it is outstanding; its contents are in `Memory`. Job-control stops, which patch too, are not part of the runs in `CallLaws`; their fatal checks are in `WaitTheorems`. Of the calls that neither wait nor fork, the runs in `WaitTheorems` know only that they are entered and left; how their handlers end OKFS is in `CallLaws`.
- The arguments of mmap, which lie on the task's stack and are read at its entry and exit, and the assertions of the debug build behind a fork's attach and in `wakeup_slave`.
- What a write past the end of a buffer does to the rest of OKFS: `Namei.Canonical` and `Dirents.CreatDirent` say that it happens and go on as the code would with the memory behind the buffer unharmed.
- Memory.Tracee.MemSet: requires the whole last word to be mapped, as the word-wise transfer of the code does.
- Calendar.StrCTime: times before the Epoch, for which the code's remainder is negative.
