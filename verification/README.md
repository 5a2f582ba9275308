# Tetragon: verified models of the stateful core

Tetragon consists of eBPF programs and a Go agent. Below their I/O there are small stateful
algorithms. This project models them in Dafny and proves what they promise, on all inputs, all runs
and all interleavings. Each component has the same layout: the behaviour as functions on values,
laws about those functions, and the code's own in-place form (classes, arrays, loops) proved equal
to them.

| file | component |
|---|---|
| `DPath.dfy`, `GenericPath.dfy` | reconstruction of paths, as one loop and cut into tail calls |
| `BtfTypes.dfy`, `BtfResolve.dfy`, `BtfCorrectness.dfy`, `BtfAcceptance.dfy`, `BtfRoots.dfy`, `BtfInPlace.dfy`, `BtfExamples.dfy` | the field-path compiler and the interpreter of its output |
| `FilterPipeline.dfy`, `PFilter.dfy` | the filter pipeline as a tail-call machine; process filters |
| `CgTracker.dfy` | the cgroup tracker: a directory walk racing with kernel hooks |
| `CgroupRate.dfy`, `ThrottleProtocol.dfy` | the rate limiter and the agent's START/STOP protocol |
| `CgidMap.dfy` | the cgroup id map: slots and two indices |
| `Lifecycle.dfy` | fork, exec and exit over `execve_map`; inherited marks |
| `Enforcer.dfy` | enforcer notifications and the counters of missed ones, under interleaving |
| `EventCache.dfy` | the retry queue of incomplete events |
| `DataEvent.dfy` | large data in chunks, and its reassembly |
| `SystemdSlice.dfy` | systemd slice names and cgroup paths |

`dafny verify dfyconfig.toml` checks the whole project.

## Where the code does less than it seems to

These are consequences of the code as it is. Each has its exact condition below.

- A path's reported length is 0 when the buffer is filled exactly, and for a deleted file whose walk
  adds nothing, although bytes were written; a walk that met only mount points reports no error
  (`DPath.DPathLocalMeaning`, `DPath.ReportedLengthCanBeWrong`).
- The field-path compiler loses the offset of an anonymous member and wraps index products at 32 bits.
  It loads an element indexed through a pointer even if it is a structure, leaves an array element
  that fits a word, and a member that is an enumeration or a float, as an address at the end of a path,
  and does not follow a root pointer hidden behind a qualifier (`BtfCorrectness.CompilerCorrect`,
  `BtfRoots.PaddedRootCorrect`).
- The compiler accepts a member of a pointer to a pointer, and rejects a C path when a failure's text
  contains the next path element (`BtfAcceptance.AcceptedMeansC`, `BtfAcceptance.AcceptsCPaths`).
  `BtfExamples` has inputs for each of these departures.
- An event with two walked arguments can need 41 tail calls, beyond the kernel's limit of 33
  (`FilterPipeline.LongestExceedsLimit`; the exact number is `FilterPipeline.TailCalls`).
- A released cgroup stays in the tracker map exactly when its last release falls between the reading
  of its id by the walk and the update (`CgTracker.StaleExactly`).
- The event that creates a rate entry leaves the rate at 0 on its CPU, below the current count
  (`CgroupRate.RateBetweenCounts`).
- `Add` breaks the indices of the cgroup id map when it changes a container's cgroup id or reuses
  another's (`CgidMap.AddRefines`).
- The exec of an untracked process announces a key that is not in the map (`Lifecycle.StepAgrees`).
- The descriptor of a data event holds the size posted, but its reader subtracts the leftover from it.
  A buffer over 327360 bytes is posted and then rejected, unless it exceeds that by a multiple of
  2^32 bytes (`DataEvent.BytesRoundTrip`); and a lost message can go unnoticed exactly when the
  leftover is one to nine whole chunks (`DataEvent.LossPassesExactly`).
- The enforcer reads the error to return from an entry it has already deleted: it returns the stored
  error exactly when no other thread's notification with another error has taken the freed element
  by then (`Enforcer.Maps.DoEnforcer`).
- The unrolled selector match differs from the loop for a list of no values, and following
  namespace pids finds the value 0 at once (`PFilter.FormsAgree`, `FindNsPidsetReaches`).

## Model

| member | source | states |
|---|---|---|
| DPath.PathMeaning | bpf/lib/bpf_d_path.h:155-202 | after any number of steps, on any graph, the buffer holds the longest suffix of the true path that fits; resolved exactly when the walk arrived and nothing was cut |
| DPath.StopIsFinal | bpf/lib/bpf_d_path.h:165-198 | a walk that stopped, resolved or truncated, repeats the same stop for ever |
| DPath.IterateSplits | bpf/lib/bpf_d_path.h:229-237 | cutting the loop in two and resuming loses nothing |
| DPath.MountCrossed | bpf/lib/bpf_d_path.h:174-187 | above the names climbed to where a mount begins, path and arrival go on in the parent mount, at the dentry on which that mount itself is mounted |
| DPath.RouteIsPath | bpf/lib/bpf_d_path.h:165-201 | along any way from a file to the root, given mount by mount as the file system has it, the walk arrives with exactly one step for each name, crossing and the arrival, and the path is the names, outermost mount first |
| DPath.ArrivalHasRoute | bpf/lib/bpf_d_path.h:165-201 | a walk that arrives has followed such a way |
| DPath.ResolvesTheRoute | bpf/lib/bpf_d_path.h:211-343 | the reported bytes are the end of the text of that way, with " (deleted)" exactly for a file that is unhashed and has a parent |
| DPath.DPathLocalMeaning | bpf/lib/bpf_d_path.h:211-343 | the bytes are the longest suffix that fits; exactly when the error and the reported length are right |
| DPath.TruncatedIsSuffixOfWholePath | bpf/lib/bpf_d_path.h:119-125 | what a full buffer holds is the end of the path of any longer walk |
| DPath.ReportedLengthCanBeWrong | bpf/lib/bpf_d_path.h:239-242 | a concrete deleted file reported with length 0 although ten bytes were written |
| DPath.Prepend | bpf/lib/bpf_d_path.h:88-97 | writes the text in front of the pointer and nothing else, or fails without writing |
| DPath.PrependName | bpf/lib/bpf_d_path.h:111-153 | offset equals remaining length before and after; the bytes are the end of "/name" that fits; no other byte changes and neither bound check fires |
| DPath.CwdReadData.constructor | bpf/lib/bpf_d_path.h:215-227 | the walk starts at the given position with the text already in the buffer |
| DPath.CwdReadData.CwdRead | bpf/lib/bpf_d_path.h:155-202 | one step in place is one step of the walk; bytes outside the text are untouched |
| DPath.DPathLocal | bpf/lib/bpf_d_path.h:211-343 | the loop in place leaves exactly the specified bytes, length and error |
| GenericPath.GenericPathState.PathInit | bpf/process/generic_path.h:29-67 | saves the start of the walk, with " (deleted)" written for an unlinked file |
| GenericPath.GenericPathState.PathWork | bpf/process/generic_path.h:77-117 | one tail call leaves buffer, offset and flag of that many more steps, and saves the position when it goes on |
| GenericPath.GenericPathState.Resolve | bpf/process/generic_path.h:77-136 | the resumable walk, at most 8 calls of N steps, equals one loop of 8N steps in buffer, offset and resolved flag, and takes exactly the calls until it resolves |
| GenericPath.Resume | bpf/process/generic_path.h:103-115 | one more call continues the loop; if it resolves, the remaining calls would change nothing |
| GenericPath.ResolvedStays | bpf/process/generic_path.h:106-109 | further steps of a resolved walk change nothing |
| GenericPath.TruncatedStaysPut | bpf/process/generic_path.h:97-115 | a truncated walk stays put on every later call and never reports success |
| GenericPath.OffloadMeaning | bpf/process/generic_path.h:195-202 | what is stored is the longest suffix of the true path that fits, with its right length |
| GenericPath.OffloadsTheRoute | bpf/process/generic_path.h:195-202 | a way that eight calls can walk is stored with its text, up to 4095 bytes of its end, and resolved exactly if it fits |
| BtfTypes.ParsesExactlyIndices | pkg/btf/btf.go:207-225 | a text reads as the index n exactly when it is n in decimal, after any zeros, in brackets, and n fits in 32 bits |
| BtfTypes.StripsQualifiers | pkg/btf/btf.go:193-205 | resolving follows a chain of qualifiers and typedefs to the first type that is neither |
| BtfResolve.ContainsSubstring | pkg/btf/btf.go:309-313 | the test on an error text is for a substring |
| BtfResolve.FruitlessSearch | pkg/btf/btf.go:300-341 | a search that finds no member changes nothing but the offset it tried |
| BtfResolve.ResolveEmits | pkg/btf/btf.go:247-290 | an accepted C path leaves exactly its steps in the array, whatever was tried before, and marks the previous step if it starts at a pointer; it returns the type C finds at the end: a pointer member's target, else the last hop's type |
| BtfResolve.MembersEmit | pkg/btf/btf.go:292-349 | the member loop emits the steps of the member that C's lookup finds, anonymous members included, and returns its end type |
| BtfResolve.ArrayStepEmits | pkg/btf/btf.go:351-364 | an index emits its scaled offset and then the steps of the rest, and returns the end type |
| BtfCorrectness.CompilerCorrect | pkg/btf/btf.go:247-364 | running the emitted steps gives the C value for every memory and argument if and only if no byte of offset is lost and no load is added or missing at any hop, unless one makes good the other across zero offsets; the returned type is always the one C finds at the end |
| BtfCorrectness.EqualOnAllMemories | bpf/process/generic_calls.h:395-404 | two programs of offsets and loads give the same value for every memory and argument exactly when they add the same offsets between the same loads |
| BtfCorrectness.SameShape | bpf/process/generic_calls.h:395-433 | the steps and the C walk add the same offsets between the same loads exactly when the path keeps its meaning |
| BtfCorrectness.SumsDiffer | pkg/btf/btf.go:302-304 | the offsets of the C walk exceed those of the steps by exactly the bytes lost |
| BtfAcceptance.FruitlessFails | pkg/btf/btf.go:301-341 | a search that finds no member fails with the cause that types, path and wording determine: the first failure mentioned later, or the last |
| BtfAcceptance.AcceptsCPaths | pkg/btf/btf.go:300-330 | a C path is accepted if and only if at no hop an anonymous member tried in vain, other than the last such, fails with a text that contains the next element |
| BtfAcceptance.AcceptedMeansC | pkg/btf/btf.go:258-290 | an accepted path is a C path if and only if it names no member of a pointer to a pointer |
| BtfAcceptance.PointersCollapse | pkg/btf/btf.go:258-269 | such a path compiles as if the outer pointer were not there |
| BtfAcceptance.WhyRejected | pkg/btf/btf.go:270-289 | the failure at an array or at an object without parts names the bad index, the bound, or the element before |
| BtfRoots.PadIs | pkg/sensors/tracing/generic.go:76-82 | the padding is one "[0]" for each pointer the declared type starts with |
| BtfRoots.PaddedRootCorrect | pkg/sensors/tracing/generic.go:92-105 | with its padding an accepted path yields C's value in the object the argument points to, for every memory and argument, if and only if it keeps the meaning behind the pointers, or makes good the load of a pointer that a qualifier hides; its type is that of the path behind the pointers |
| BtfRoots.ArgumentCorrect | pkg/sensors/tracing/generic.go:117-146 | the same for a hook parameter, declared as a pointer or hiding it in a typedef: the compiled steps yield C's value exactly when the path keeps its meaning |
| BtfExamples.AnonymousOffsetIsLost | pkg/btf/btf.go:302-305 | a structure whose anonymous member at offset 8 loses 8 bytes |
| BtfExamples.IndexedStructureIsLoaded | pkg/btf/btf.go:264-267 | "[0].x" through a pointer to a structure is accepted and loads the structure as a pointer |
| BtfExamples.IndexedStructureAtEndIsLoaded | pkg/btf/btf.go:264-267 | "[0]" through a pointer to a structure is accepted and loads from the structure |
| BtfExamples.IndexProductWraps | pkg/btf/btf.go:359 | index 2 in an array of objects of 2^31 bytes is accepted and loses 2^32 bytes |
| BtfExamples.ArrayElementIsNotLoaded | pkg/btf/btf.go:358-363 | an integer array element at the end is accepted and not loaded |
| BtfExamples.EnumerationIsNotLoaded | pkg/btf/btf.go:342-347 | an enumeration member at the end is accepted and not loaded |
| BtfExamples.ConstPointerIsNotFollowed | pkg/sensors/tracing/generic.go:76-82 | a root pointer behind a const gets no padding, and the accepted path misses its load |
| BtfExamples.DoublePointerIsAccepted | pkg/btf/btf.go:258-269 | a member of a pointer to a pointer is accepted |
| BtfExamples.WordingStopsSearch | pkg/btf/btf.go:306-314 | a C path rejected because an error text contains its next element |
| BtfInPlace.ResolveBTFPath | pkg/btf/btf.go:247-290 | filling the array in place computes the compiler function; recursion ends by path left, pointer hops and members left |
| BtfInPlace.ProcessMembers | pkg/btf/btf.go:292-349 | the member loop in place, with its early exit on an error text |
| BtfInPlace.ProcessArray | pkg/btf/btf.go:351-364 | the index step in place |
| BtfInPlace.ExtractArg | bpf/process/generic_calls.h:395-433 | the loop of at most ten steps computes the interpreter function |
| FilterPipeline.FirstMatchIsLeast | bpf/process/generic_calls.h:1414-1444 | the direct search finds the least selector below min(n, 6) that passes both filters, or none exists |
| FilterPipeline.SentExactly | bpf/process/generic_calls.h:1285-1444 | which events are sent, from the configuration alone: those that get through and have a first passing selector among six whose actions do not withhold them, with the action offset |
| FilterPipeline.ReadFailsExactly | bpf/process/generic_calls.h:552-592 | reading fails exactly when the copy of an argument that is read does |
| FilterPipeline.TailCallsBound | bpf/process/generic_calls.h:1285-1444 | the exact number of tail calls is at most 21 + 10k for k walked arguments |
| FilterPipeline.LongestExceedsLimit | bpf/process/generic_path.h:69-117 | however many steps a call walks, there are a graph and an event with two walked arguments that makes 41 tail calls, which meets the bound |
| FilterPipeline.DeepCalls | bpf/process/generic_path.h:77-117 | on a chain of 8N directories the resumable walk of N steps a call takes all eight calls |
| FilterPipeline.WalkedArgCalls | bpf/process/generic_path.h:77-117 | the walk counts in the pipeline with exactly the calls of the resumable machine |
| FilterPipeline.Message.StartProcessFilter | bpf/process/generic_calls.h:20-70 | the shared state starts with nothing marked and all indices zero |
| FilterPipeline.Message.GenericProcessFilter | bpf/process/generic_calls.h:1285-1343 | each pass extends the marks by one selector; when it ends, the marks are exactly the selectors that pass |
| FilterPipeline.Message.GenericReadArg | bpf/process/generic_calls.h:498-550 | a path argument leaves for the walk once and its stored size is the result on return; without a path it is 0 |
| FilterPipeline.Message.GenericProcessEvent | bpf/process/generic_calls.h:552-592 | reads one argument, adds its size, and goes to the next, to the filters, or drops the event on an error |
| FilterPipeline.Message.GenericSetup | bpf/process/generic_calls.h:805-811 | without arguments the pipeline goes straight to the argument filters |
| FilterPipeline.Message.GenericPath | bpf/process/generic_path.h:119-136 | the walk returns to the pipeline with the call that resolves it, the eighth at the latest |
| FilterPipeline.Message.FilterArgs | bpf/process/generic_calls.h:1345-1372 | a marked selector decides by its arguments, an unmarked one rejects, no marks accept |
| FilterPipeline.Message.NextSelidx | bpf/process/generic_calls.h:1374-1412 | the next marked selector, none skipped |
| FilterPipeline.Message.GenericFilterArg | bpf/process/generic_calls.h:1414-1444 | accepts with the least matching selector and hands on its action offset; drops only when none matches; goes on at the next marked selector |
| FilterPipeline.Message.GenericActions | bpf/process/generic_calls.h:1086-1123 | the actions decide whether the event is sent |
| FilterPipeline.Message.Step | bpf/process/generic_calls.h:1285-1444 | every tail call keeps the phase invariant and is exactly one of those still to come |
| FilterPipeline.Message.Run | bpf/process/generic_calls.h:1285-1444 | the two tail-call loops decide what the direct search decides, in exactly the computed number of tail calls, at most 21 + 10k for k walked arguments; an event sent has the sum of the sizes of the arguments read before the total reaches 9000 |
| PFilter.FindPidsetReaches | bpf/process/pfilter.h:8-55 | n lookups find exactly the process and its nearest n ancestors |
| PFilter.FindNsPidsetReaches | bpf/process/pfilter.h:8-55 | by namespace pid they find exactly the process and its nearest n - 1 ancestors, or the value 0 |
| PFilter.FollowsForks | bpf/process/pfilter.h:46-55 | after any history of the lifecycle hooks the search is true exactly for the process and its nearest nine ancestors |
| PFilter.SelectorFilter.SelectorMatchLoop | bpf/process/pfilter.h:308-342 | the loop form: NotIn wants all values to pass, In one of them; the index moves past them |
| PFilter.SelectorFilter.SelectorMatchUnrolled | bpf/process/pfilter.h:343-379 | the unrolled form gives the verdict and index of the loop, a length of zero standing for four |
| PFilter.FormsAgree | bpf/process/pfilter.h:335-379 | the two forms agree for every filter exactly when there is at least one value |
| PFilter.MatchPidsMeaning | bpf/process/pfilter.h:60-142 | In accepts exactly the processes that some value names, NotIn exactly those that none does, except outside namespaces when following namespace pids |
| PFilter.MatchesListed | bpf/process/pfilter.h:86-142 | matchPIDs by the process's own fields and a list of words: pid or namespace pid listed, or that of one of the ancestors the search reaches |
| PFilter.FilterPidsetWalk | bpf/process/pfilter.h:46-55 | the nine-fold step computes the search |
| CgTracker.StepKeepsComplete | bpf/cgroup/bpf_cgtracker.c:49-67 | every step of walk and kernel keeps: each cgroup under the root is mapped or will be reached |
| CgTracker.StepKeepsConfined | pkg/cgtracker/cgtracker.go:70-114 | every step keeps: nothing live outside the subtree is mapped to the root |
| CgTracker.RunKeeps | pkg/cgtracker/cgtracker.go:70-114 | both hold after every interleaving |
| CgTracker.WalkMapsExactlyTheSubtree | pkg/cgtracker/cgtracker.go:70-122 | when the walk ends, in every interleaving with creations, removals and releases, even during a listing, exactly the live cgroups under the root map to it |
| CgTracker.MappedExactly | bpf/cgroup/bpf_cgtracker.c:49-81 | at any time a cgroup, live or removed, is mapped to the root exactly when the start, the walk or its creation mapped it and its release hook has not run since |
| CgTracker.StaleExactly | pkg/cgtracker/cgtracker.go:96-105 | when the walk has ended, a released cgroup is still mapped exactly when its last release fell between the reading of its id and the update |
| CgTracker.NoStaleEntry | pkg/cgtracker/cgtracker.go:96-105 | a released cgroup does not stay mapped if no release of it falls there |
| CgTracker.StaleEntryIsPossible | pkg/cgtracker/cgtracker.go:96-105 | a run that leaves an entry for a removed and released cgroup |
| CgTracker.TrackerMap.CgroupMkdir | bpf/cgroup/bpf_cgtracker.c:49-67 | a new cgroup inherits its parent's tracker if there is one |
| CgTracker.TrackerMap.CgroupRelease | bpf/cgroup/bpf_cgtracker.c:69-81 | the entry of a released cgroup is removed |
| CgTracker.TrackerMap.VisitDir | pkg/cgtracker/cgtracker.go:96-105 | a directory still there is mapped to the root, one that is gone is skipped |
| CgroupRate.WindowAccounting | bpf/process/bpf_rate.h:91-120 | after every event, on the CPU that creates the entry and on the others, the window start is a multiple of the interval within one interval, and the two counts are exactly the events assigned to this window and the one before |
| CgroupRate.WindowMoves | bpf/process/bpf_rate.h:108-118 | the window stays for one interval, moves on by one up to the end of the next, and otherwise starts anew at the event |
| CgroupRate.CreationCounts | bpf/process/bpf_rate.h:92-100 | the creating event is counted in its window, with rate and mark 0 |
| CgroupRate.RateBetweenCounts | bpf/process/bpf_rate.h:122-140 | the rate lies between the current and the summed counts for every event but the one that creates the entry, and is the sliding average, its product taken in 64 bits; the slide never underflows |
| CgroupRate.ThrottledFromFirstReach | bpf/process/bpf_rate.h:142-147 | while nothing clears the mark, an event passes exactly until the rate first reaches the limit, and exactly the event that makes it do so sends the throttle message |
| CgroupRate.MarkIsFirstReach | bpf/process/bpf_rate.h:142-145 | the throttle mark is the time of the event that first reached the limit |
| CgroupRate.UnlimitedPasses | bpf/process/bpf_rate.h:84-90 | without options, or with interval 0, over any run every event passes, no message is sent and no slot changes |
| CgroupRate.Slot.CgroupRate | bpf/process/bpf_rate.h:73-148 | the call in place computes the step, its verdict and whether a throttle message is sent |
| ThrottleProtocol.ReadableMeansAlternating | pkg/cgrouprate/cgrouprate.go:150-190 | a log keeps the protocol exactly when each cgroup's entries alternate between START and removal |
| ThrottleProtocol.CgroupRate.UpdateCgroups | pkg/cgrouprate/cgrouprate.go:150-165 | a START is sent exactly for a cgroup not yet watched |
| ThrottleProtocol.CgroupRate.ProcessCgroup | pkg/cgrouprate/cgrouprate.go:226-278 | a STOP is sent exactly when every CPU is silent or below the limit past its pause, all its marks being written back as zero unless the write fails; a failed lookup removes silently |
| ThrottleProtocol.CgroupRate.ProcessWatched | pkg/cgrouprate/cgrouprate.go:179-187 | exactly the watched cgroups that are over are removed, and no other hash entry changes |
| ThrottleProtocol.CgroupRate.CleanupCgroups | pkg/cgrouprate/cgrouprate.go:192-224 | once in an interval exactly the entries silent on every CPU are deleted, unless a deletion fails |
| ThrottleProtocol.IdleIsQuiet | pkg/cgrouprate/cgrouprate.go:210-251 | an entry idle enough for the cleanup is quiet, so that the same tick has stopped watching its cgroup |
| ThrottleProtocol.CgroupRate.ProcessCgroups | pkg/cgrouprate/cgrouprate.go:167-190 | one tick removes exactly the watched cgroups that are over, then cleans up idle entries if it is time |
| ThrottleProtocol.CgroupRate.Process | pkg/cgrouprate/cgrouprate.go:128-148 | after any sequence of checks and ticks what the agent knows is the fold of the rounds, each cgroup's part of the log has grown by exactly the notices the rounds make for it, and the log keeps the protocol |
| ThrottleProtocol.WatchedExactly | pkg/cgrouprate/cgrouprate.go:128-190 | after any such run a cgroup is watched exactly when it was checked, or watched at the start, and was over at no tick since |
| ThrottleProtocol.StopsNameTheirStart | pkg/cgrouprate/cgrouprate.go:179-181 | over any run every STOP has the name of the START it answers |
| ThrottleProtocol.QuietMeans | pkg/cgrouprate/cgrouprate.go:243-253 | a STOP waits exactly while some CPU had an event in the last five seconds and is at its limit or was throttled in the last five seconds |
| ThrottleProtocol.IdleMeans | pkg/cgrouprate/cgrouprate.go:207-214 | an entry is idle when every CPU has been silent for a minute, times being signed words |
| CgidMap.CountCorrectMeansFound | pkg/cgidmap/cgidmap.go:113-125 | with a non-zero count of free slots the search finds one: the branch that should not happen is unreachable |
| CgidMap.AddRefines | pkg/cgidmap/cgidmap.go:104-173 | slots and indices agree after an Add exactly when it keeps the container's cgroup id and reuses no other's, and then it updates the plain map |
| CgidMap.GetRefines | pkg/cgidmap/cgidmap.go:175-184 | Get answers with the container that has the cgroup id in the plain map, if any |
| CgidMap.FreedRefines | pkg/cgidmap/cgidmap.go:211-215 | freeing a slot removes exactly its container |
| CgidMap.UpdateRefines | pkg/cgidmap/cgidmap.go:187-234 | Update drops exactly the pod's unlisted containers and queues exactly the listed ids not mapped for the pod |
| CgidMap.RunRefines | pkg/cgidmap/cgidmap.go:62-76 | over any sequence of operations the slots with their indices are the plain map |
| CgidMap.Cgidm.constructor | pkg/cgidmap/cgidmap.go:83-89 | the map starts empty |
| CgidMap.Cgidm.AddEntryAllocID | pkg/cgidmap/cgidmap.go:105-126 | appends while there is room or nothing is free, else takes the first free slot |
| CgidMap.Cgidm.UpdateEntry | pkg/cgidmap/cgidmap.go:136-154 | only pod and cgroup id of the slot change |
| CgidMap.Cgidm.AddContainer | pkg/cgidmap/cgidmap.go:157-173 | Add in place computes the Add function |
| CgidMap.Cgidm.GetContainer | pkg/cgidmap/cgidmap.go:175-184 | the lookup in place computes the Get function |
| CgidMap.Cgidm.Update | pkg/cgidmap/cgidmap.go:187-234 | the loop over the slots computes the update function and its queue |
| Lifecycle.StepKeepsValid | bpf/lib/process.h:474-513 | every hook keeps each entry under its own pid with non-zero ktime, and COUNT equal to the size of the map |
| Lifecycle.RunKeepsValid | bpf/lib/process.h:474-513 | so over any run, lossy or not |
| Lifecycle.FindsNearest | bpf/lib/bpf_task.h:105-123 | the search finds exactly the tracked ancestor, of the first four, with no nearer one tracked, and nothing exactly when there is none |
| Lifecycle.HookTouchesItsProcess | bpf/process/bpf_fork.c:24-105 | a fork enters its process, an exit removes it, and no hook changes the entry of another |
| Lifecycle.MessageSent | bpf/process/bpf_exit.h:36-75 | which hooks send a message |
| Lifecycle.StepAgrees | bpf/process/bpf_execve_event.c:381-404 | a hook keeps the event stream in agreement with the map exactly when no entering fork is rate limited and no untracked exec is announced |
| Lifecycle.StreamAgreesWithMap | bpf/process/bpf_exit.h:36-75 | the keys announced and not retired are exactly those in the map after every prefix of a run if and only if every hook of the run is lossless |
| Lifecycle.ParentsAreAnnounced | bpf/process/bpf_fork.c:81-93 | the parent a message names is announced and not retired, unless its ktime is zero |
| Lifecycle.MessageDescribesEntry | bpf/process/bpf_execve_event.c:381-404 | a CLONE or EXEC message reports the entry as the hook leaves it, under the hook's pid and time, with the nearest tracked ancestor as parent or else the real parent's pid; the cleanup key is the entry's old key, and the clone flag marks the first exec after a fork |
| Lifecycle.StepMarks | bpf/process/bpf_mbset.h:25-44 | one hook passes on exactly the marks of its sources and those it sets itself |
| Lifecycle.MarksAreInherited | bpf/process/bpf_process_event.h:327-340 | after any history a process has a matched bit or the init-tree flag exactly when a process it descends from had it at the start or acquired it |
| Lifecycle.ExecveMap.Get | bpf/lib/process.h:474-497 | a missing entry is created zeroed and counted |
| Lifecycle.ExecveMap.Delete | bpf/lib/process.h:504-513 | the entry goes, and is uncounted if it was there |
| Lifecycle.ExecveMap.EventFindParent | bpf/lib/bpf_task.h:105-123 | the nearest tracked of up to four ancestors |
| Lifecycle.ExecveMap.SetInInitTree | bpf/process/bpf_process_event.h:327-340 | the flag is set for a flagged parent or namespace pid 1 |
| Lifecycle.ExecveMap.WakeUpNewTask | bpf/process/bpf_fork.c:24-105 | the fork hook in place computes the fork step |
| Lifecycle.ExecveMap.UpdateMbBitset | bpf/process/bpf_mbset.h:25-44 | the parent's bits and the matched ones are added, none is lost |
| Lifecycle.ExecveMap.Execve | bpf/process/bpf_execve_event.c:352-466 | the exec hook in place computes the exec step, with its cleanup key |
| Lifecycle.ExecveMap.EventExitSend | bpf/process/bpf_exit.h:24-76 | the exit hook in place computes the exit step |
| Enforcer.StepKeepsInv | bpf/process/bpf_enforcer.h:48-109 | every step of every thread keeps the protocol's invariant |
| Enforcer.S16 | bpf/process/bpf_enforcer.h:17-21 | a stored error or signal is the signed 16-bit number congruent to the one given, and the same if it fits |
| Enforcer.CountersGrow | bpf/process/bpf_enforcer.h:40-46 | counters are only added, never past the capacity |
| Enforcer.CountersAreExact | bpf/process/bpf_enforcer.h:48-70 | in every interleaving of any number of threads a counter is its number of completed updates modulo 32 bits; an update is dropped only when the map is full, for a key that never gets a counter |
| Enforcer.Conservation | bpf/process/bpf_enforcer.h:72-109 | in every interleaving notifications triggered = consumed + overwritten + cleaned up + dropped + outstanding |
| Enforcer.CountersAccountForAll | bpf/process/bpf_enforcer.h:40-109 | with room in the map and no wrap-around the counters themselves account for every notification |
| Enforcer.LatestIsStored | bpf/process/bpf_enforcer.h:88-109 | in every interleaving what an idle thread will consume is its latest notification |
| Enforcer.Maps.UpdateMissedNotifications | bpf/process/bpf_enforcer.h:48-70 | whatever other threads do before the retry, the function goes through the steps of the protocol |
| Enforcer.Maps.DoEnforcerCleanup | bpf/process/bpf_enforcer.h:72-86 | a pending notification is counted and removed, others interfering |
| Enforcer.Maps.DoEnforcerAction | bpf/process/bpf_enforcer.h:88-109 | a pending notification is counted and replaced, others interfering |
| Enforcer.Maps.DoEnforcer | bpf/process/bpf_enforcer.c:6-20 | a non-zero signal is sent and the entry removed; the error is then read from the freed element, and is the stored one unless another notification has taken the element |
| EventCache.TickSplits | pkg/eventcache/eventcache.go:146-185 | a tick neither loses nor duplicates an event |
| EventCache.ExactlyOnce | pkg/eventcache/eventcache.go:200-221 | over any run each inserted event is waiting or has left, exactly once |
| EventCache.WaitingAges | pkg/eventcache/eventcache.go:159-164 | waiting events keep their order and content, and leave within max(1, retries) ticks |
| EventCache.LeavesInTime | pkg/eventcache/eventcache.go:159-184 | at a tick an event leaves exactly on success or on its last retry |
| EventCache.NotifiesInOrder | pkg/eventcache/eventcache.go:176-184 | the listener gets the events that ask for it, each once and in order |
| EventCache.Cache.constructor | pkg/eventcache/eventcache.go:280-286 | the cache starts empty |
| EventCache.Cache.HandleEvents | pkg/eventcache/eventcache.go:140-198 | the rewrite in place keeps exactly the waiting events in order and notifies exactly the leaving ones |
| EventCache.Cache.Retry | pkg/eventcache/eventcache.go:147-158 | the two lookups of one event and whether they fail |
| EventCache.Cache.Clip | pkg/eventcache/eventcache.go:186-197 | the contents stay and at most half of the array is unused |
| EventCache.Cache.Append | pkg/eventcache/eventcache.go:213-215 | an event is added at the end |
| DataEvent.BytesReassembled | bpf/process/data_event.h:45-82 | the chunks joined are a prefix of the source without loss or repetition, min(size, 327360) bytes when nothing fails |
| DataEvent.SentExactly | bpf/process/data_event.h:52-59 | the bytes are sent exactly when no helper fails for the chunks they need |
| DataEvent.FailureIsFirstError | bpf/process/data_event.h:171-177 | a failed send is described by the error of the first helper that failed, the chunks before it being posted |
| DataEvent.StrFailureIsFirstError | bpf/process/data_event.h:171-177 | so is a failed string |
| DataEvent.StrLenIsFirstNul | bpf/process/data_event.h:96-104 | the length copied reaches to the first NUL or the limit |
| DataEvent.StrReassembled | bpf/process/data_event.h:115-138 | the chunks of a string joined are its first min(length, 2 * len) characters |
| DataEvent.DescribesTotal | bpf/process/data_event.h:173-183 | size and leftover add up to the total exactly when the leftover fits in 32 bits |
| DataEvent.ReceiveConcat | pkg/observer/data.go:33-47 | the cache holds the payloads of an id joined, other ids unchanged |
| DataEvent.BytesRoundTrip | pkg/observer/data.go:62-83 | user space gets the buffer back exactly when no helper fails for the chunks it needs and its size is at most 327360, or that plus a multiple of 2^32, or -1 |
| DataEvent.LongBufferIsRejected | pkg/observer/data.go:71-76 | a buffer one byte over the limit is posted and then rejected |
| DataEvent.StrRoundTrip | pkg/observer/data.go:62-83 | user space gets the string back exactly when no read fails that it needs, and nothing otherwise |
| DataEvent.AcceptedIsComplete | pkg/observer/data.go:71-76 | for these sizes, whatever messages are lost and whatever helpers fail, what is accepted is complete |
| DataEvent.AcceptedStrIsComplete | pkg/observer/data.go:71-76 | the same for strings of any length |
| DataEvent.LossPassesExactly | pkg/observer/data.go:71-76 | some loss makes user space accept something else than the buffer if and only if no helper fails and the leftover is one to nine whole chunks |
| DataEvent.LossIsAccepted | pkg/observer/data.go:71-76 | a buffer of eleven chunks whose first was lost is accepted |
| DataEvent.Sender.OneBytes | bpf/process/data_event.h:11-43 | one chunk is read and posted, or an error returned and nothing posted |
| DataEvent.Sender.DoBytes | bpf/process/data_event.h:45-82 | the loop of ten chunks computes the sending function |
| DataEvent.Sender.OneStr | bpf/process/data_event.h:84-113 | one chunk of a string without its NUL, and whether it was the last |
| DataEvent.Sender.DoStr | bpf/process/data_event.h:115-138 | the loop of two chunks computes the sending function |
| DataEvent.Sender.PostData | bpf/process/data_event.h:140-185 | the descriptor is that of the result, for data and strings |
| DataEvent.DataCache.Add | pkg/observer/data.go:33-47 | a payload is appended to its id's data |
| DataEvent.DataCache.Get | pkg/observer/data.go:62-83 | the data leaves the cache and is accepted by its length |
| SystemdSlice.AcceptedNames | pkg/cri/container.go:26-47 | a name is accepted exactly when it ends in ".slice", has no slash, and is "-.slice" or has no empty component |
| SystemdSlice.ExpansionSegments | pkg/cri/container.go:43-53 | the k-th segment is the first k components with the suffix; the last one is the name |
| SystemdSlice.SegmentsCutTheName | pkg/cri/container.go:43-53 | without splitting: one segment for each dash and one more, the k-th being the name cut before its k-th dash, with the suffix |
| SystemdSlice.CollapseExpand | pkg/cri/container.go:22-53 | the expansion can be undone |
| SystemdSlice.ExpandInjective | pkg/cri/container.go:22-53 | distinct names have distinct paths |
| SystemdSlice.JoinPathAppends | pkg/cri/container.go:76-79 | joining only appends the name: there is nothing to be cleaned |
| SystemdSlice.ParseMeaning | pkg/cri/container.go:56-83 | exactly which paths are accepted and what they become |
| SystemdSlice.ParseSegments | pkg/cri/container.go:70-79 | slice and name can be read back from the result |
| SystemdSlice.SystemdExpandSlice | pkg/cri/container.go:25-54 | the loop over the components computes the expansion |
| SystemdSlice.ParseCgroupsPath | pkg/cri/container.go:56-83 | the code computes the parsing function |

## Left out

- Kernel and user memory reads are total functions; a failing `probe_read` is modelled only where the code checks it (data events).
- DPath.PrependName: assumes dentry names of at most 255 characters, the kernel's NAME_MAX, so the mask on the length never cuts.
- DPath.CwdReadData.CwdRead: a graph does not change during a walk.
- BtfCorrectness.CompilerCorrect: addresses are unbounded integers, without wrap-around at 64 bits; a member's offset fits in 32 bits; bit fields and the conversion of a path from text are not modelled.
- BtfAcceptance.AcceptsCPaths: the wording of errors is a parameter, since it depends on how Go prints types.
- FilterPipeline.Message.Run: entry probes only, since return probes do not reset the selector state; a tail call that the kernel refuses is not modelled, nor are the argument copiers and the filter encodings, which are parameters.
- PFilter.MatchPidsMeaning: the binary encoding of selectors beyond the list of values; matchBinaries, namespaces and capabilities.
- CgTracker.WalkMapsExactlyTheSubtree: a mkdir and its hook are one step; a listing may have any removed cgroup besides what it must have, which allows more runs than there are; map-full failures are left out; a directory path is not reused for another cgroup while it is walked.
- CgroupRate.WindowAccounting: times on one CPU do not decrease, and the interval is a positive signed 64-bit number; user space clearing the throttle mark at the same time is not part of it.
- CgroupRate.ThrottledFromFirstReach: assumes that the clock is not zero, since the mark is the time itself.
- ThrottleProtocol.CgroupRate.ProcessCgroups: the kernel's writes between reading and writing back an entry are not modelled.
- CgidMap.RunRefines: assumes that no Add changes a container's cgroup id or reuses that of a live one, which AddRefines shows to be necessary; the locks and the CRI resolver are left out.
- BtfRoots.ArgumentCorrect: for a structure passed by value the argument is taken to be its address.
- Lifecycle.StreamAgreesWithMap: hooks on different CPUs are taken one after the other, each as one step; map-full failures, lost ring-buffer messages, capabilities, namespaces and paths in the entries; update_mb_task, which adds bits after a policy is loaded, and the clearing of bits when one is unloaded.
- Enforcer.Maps.DoEnforcer: in the interleavings consuming a notification is one step, and what takes the freed element before the error is read is a parameter.
- Enforcer.CountersAreExact: a thread runs one of the functions at a time; the map of pending notifications is never full.
- EventCache.WaitingAges: what the lookups return is a parameter; the channel and the ticker are left out.
- DataEvent.BytesRoundTrip: the build for large programs; eviction from the cache and reuse of an id are left out.
- SystemdSlice.ParseCgroupsPath: the text of errors.
- Cgroup rate options, metrics, logging, gRPC, Kubernetes watchers, CRI client, command line, policy loading and the socket, file-descriptor and other actions of a selector.
