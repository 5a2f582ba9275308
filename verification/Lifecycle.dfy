/**
 The process lifecycle: wake_up_new_task, execve and exit hooks over `execve_map`, the messages
 they send, the COUNT statistic, and the marks processes inherit (bpf/lib/process.h,
 bpf/process/bpf_fork.c, bpf_execve_event.c, bpf_exit.h, bpf_mbset.h, bpf_process_event.h).
 */
module Lifecycle {
  import opened Common

  type Pid = nat

  datatype Key = Key(pid: Pid, ktime: nat)

  /** `clone` and `initTree` are the flag bits; `mb` is the bitset of matched binaries. */
  datatype Entry = Entry(key: Key, pkey: Key, nspid: nat, clone: bool, initTree: bool, mb: set<nat>)

  datatype Event =
    | CloneMsg(key: Key, parent: Key, nspid: nat, initTree: bool)
    | ExecMsg(key: Key, parent: Key, cleanup: Key, clone: bool, initTree: bool)
    | ExitMsg(key: Key)

  datatype State = State(procs: map<Pid, Entry>, count: int, log: seq<Event>)

  const NO_KEY := Key(0, 0)
  const ZEROED := Entry(NO_KEY, NO_KEY, 0, false, false, {})

  /**
   One hook.  `chain` lists the thread group ids up the real_parent chain; `passed` tells whether
   the cgroup rate limit let the event through; `matched` are the bits of the executed binary.
   */
  datatype Op =
    | Fork(tgid: Pid, chain: seq<Pid>, nspid: nat, now: nat, passed: bool)
    | Exec(pid: Pid, chain: seq<Pid>, nspid: nat, now: nat, passed: bool, matched: set<nat>)
    | Exit(tgid: Pid)

  // ---------------------------------------------------------------- the hooks on values

  /** The nearest of up to four ancestors that is tracked. */
  function FindParent(procs: map<Pid, Entry>, chain: seq<Pid>, i: nat): Option<Pid>
    decreases |chain| - i
  {
    if i >= 4 || i >= |chain| then None
    else if chain[i] in procs && procs[chain[i]].key.ktime != 0 then Some(chain[i])
    else FindParent(procs, chain, i + 1)
  }

  predicate Tracks(procs: map<Pid, Entry>, pid: Pid)
  {
    pid in procs && procs[pid].key.ktime != 0
  }

  lemma {:induction false} ParentIsTracked(procs: map<Pid, Entry>, chain: seq<Pid>, i: nat)
    ensures FindParent(procs, chain, i).Some? ==> Tracks(procs, FindParent(procs, chain, i).value)
    decreases |chain| - i
  {
    if i < 4 && i < |chain| {
      ParentIsTracked(procs, chain, i + 1);
    }
  }

  /** The `i`-th ancestor is in the map with its start time. */
  predicate TrackedAt(procs: map<Pid, Entry>, chain: seq<Pid>, i: nat)
  {
    i < |chain| && chain[i] in procs && procs[chain[i]].key.ktime > 0
  }

  /** `p` is one of the first four ancestors, tracked, and no nearer one is. */
  ghost predicate Nearest(procs: map<Pid, Entry>, chain: seq<Pid>, p: Pid)
  {
    exists i :: 0 <= i < 4 && TrackedAt(procs, chain, i) && chain[i] == p
                && forall j :: 0 <= j < i ==> !TrackedAt(procs, chain, j)
  }

  /** None of the first four ancestors is tracked. */
  ghost predicate Orphaned(procs: map<Pid, Entry>, chain: seq<Pid>)
  {
    forall i :: 0 <= i < 4 ==> !TrackedAt(procs, chain, i)
  }

  lemma {:induction false} FoundFrom(procs: map<Pid, Entry>, chain: seq<Pid>, i: nat)
    requires i <= 4 && forall j :: 0 <= j < i ==> !TrackedAt(procs, chain, j)
    ensures match FindParent(procs, chain, i)
            case Some(p) => Nearest(procs, chain, p)
            case None => Orphaned(procs, chain)
    decreases 4 - i
  {
    if i < 4 && i < |chain| && !TrackedAt(procs, chain, i) {
      FoundFrom(procs, chain, i + 1);
    }
  }

  /** The search finds exactly the nearest tracked ancestor, and nothing exactly when there is none. */
  lemma FindsNearest(procs: map<Pid, Entry>, chain: seq<Pid>)
    ensures forall p: Pid :: FindParent(procs, chain, 0) == Some(p) <==> Nearest(procs, chain, p)
    ensures FindParent(procs, chain, 0) == None <==> Orphaned(procs, chain)
  {
    FoundFrom(procs, chain, 0);
    forall p, q | Nearest(procs, chain, p) && Nearest(procs, chain, q)
      ensures p == q
    {
      OneNearest(procs, chain, p, q);
    }
  }

  lemma OneNearest(procs: map<Pid, Entry>, chain: seq<Pid>, p: Pid, q: Pid)
    requires Nearest(procs, chain, p) && Nearest(procs, chain, q)
    ensures p == q
  {
    var i :| 0 <= i < 4 && TrackedAt(procs, chain, i) && chain[i] == p
             && forall j :: 0 <= j < i ==> !TrackedAt(procs, chain, j);
    var k :| 0 <= k < 4 && TrackedAt(procs, chain, k) && chain[k] == q
             && forall j :: 0 <= j < k ==> !TrackedAt(procs, chain, j);
    assert i == k;
  }

  /** Only which processes are tracked matters to the search. */
  lemma {:induction false} SameParent(m: map<Pid, Entry>, m': map<Pid, Entry>, chain: seq<Pid>, i: nat)
    requires forall p :: Tracks(m, p) <==> Tracks(m', p)
    ensures FindParent(m, chain, i) == FindParent(m', chain, i)
    decreases |chain| - i
  {
    if i < 4 && i < |chain| {
      assert Tracks(m, chain[i]) <==> Tracks(m', chain[i]);
      SameParent(m, m', chain, i + 1);
    }
  }

  function InInitTree(curr: Entry, parent: Option<Entry>): Entry
  {
    if parent.Some? && parent.value.initTree then curr.(initTree := true)
    else if curr.nspid == 1 then curr.(initTree := true)
    else curr
  }

  function Forked(parent: Entry, op: Op): Entry
    requires op.Fork?
  {
    InInitTree(Entry(Key(op.tgid, op.now), parent.key, op.nspid, true, false, parent.mb), Some(parent))
  }

  function ForkStep(s: State, op: Op): State
    requires op.Fork?
  {
    var parent := FindParent(s.procs, op.chain, 0);
    if parent.None? || parent.value !in s.procs then s
    else if Tracks(s.procs, op.tgid) then s
    else
      var curr := Forked(s.procs[parent.value], op);
      var msg := CloneMsg(curr.key, curr.pkey, curr.nspid, curr.initTree);
      State(s.procs[op.tgid := curr],
            if op.tgid in s.procs then s.count else s.count + 1,
            if op.passed then s.log + [msg] else s.log)
  }

  /** The key sent as the parent's; without a tracked parent only its pid is known. */
  function ParentKey(s: State, op: Op): Key
    requires op.Exec?
  {
    var parent := FindParent(s.procs, op.chain, 0);
    if parent.Some? && parent.value in s.procs then s.procs[parent.value].key
    else Key(if op.chain == [] then 0 else op.chain[0], 0)
  }

  /** The entry after execve_send rewrote it, before the bitset is updated. */
  function Rewritten(curr: Entry, pkey: Key, op: Op): Entry
    requires op.Exec?
  {
    InInitTree(curr.(key := Key(op.pid, op.now), nspid := op.nspid, pkey := pkey, clone := false), None)
  }

  function WithBits(procs: map<Pid, Entry>, op: Op): map<Pid, Entry>
    requires op.Exec? && op.pid in procs
  {
    var parent := FindParent(procs, op.chain, 0);
    var curr := procs[op.pid];
    var inherited := if parent.Some? && parent.value in procs then procs[parent.value].mb else {};
    procs[op.pid := curr.(mb := curr.mb + inherited + op.matched)]
  }

  function ExecStep(s: State, op: Op): State
    requires op.Exec?
  {
    if !op.passed then s
    else
      var pkey, key := ParentKey(s, op), Key(op.pid, op.now);
      if op.pid in s.procs then
        var was := s.procs[op.pid];
        var curr := Rewritten(was, pkey, op);
        State(WithBits(s.procs[op.pid := curr], op), s.count,
              s.log + [ExecMsg(key, pkey, was.key, was.clone, curr.initTree)])
      else s.(log := s.log + [ExecMsg(key, pkey, NO_KEY, false, false)])
  }

  function ExitStep(s: State, tgid: Pid): State
  {
    if tgid !in s.procs then s
    else
      State(s.procs - {tgid}, s.count - 1,
            if s.procs[tgid].key.ktime != 0 then s.log + [ExitMsg(Key(tgid, s.procs[tgid].key.ktime))] else s.log)
  }

  function Step(s: State, op: Op): State
  {
    match op
    case Fork(_, _, _, _, _) => ForkStep(s, op)
    case Exec(_, _, _, _, _, _) => ExecStep(s, op)
    case Exit(tgid) => ExitStep(s, tgid)
  }

  function Run(s: State, ops: seq<Op>): State
  {
    if ops == [] then s else Step(Run(s, ops[..|ops| - 1]), ops[|ops| - 1])
  }

  // ---------------------------------------------------------------- the event stream

  /** What a reader of the stream believes to be running, having believed `before`, once it reads `e`. */
  function Heard(before: set<Key>, e: Event): set<Key>
  {
    match e
    case CloneMsg(key, _, _, _) => before + {key}
    case ExecMsg(key, _, cleanup, _, _) => before - {cleanup} + {key}
    case ExitMsg(key) => before - {key}
  }

  /** The keys announced and not retired by a stream, starting from those known. */
  function Announced(known: set<Key>, log: seq<Event>): set<Key>
  {
    if log == [] then known else Heard(Announced(known, log[..|log| - 1]), log[|log| - 1])
  }

  lemma AnnouncedAppend(known: set<Key>, log: seq<Event>, e: Event)
    ensures Announced(known, log + [e]) == Heard(Announced(known, log), e)
  {
    assert (log + [e])[..|log|] == log;
  }

  ghost function Keys(procs: map<Pid, Entry>): set<Key>
  {
    set p | p in procs :: procs[p].key
  }

  /** Each entry sits under its own pid with non-zero ktime, and COUNT is the size of the map. */
  ghost predicate Valid(s: State)
  {
    && (forall p :: p in s.procs ==> s.procs[p].key.pid == p && s.procs[p].key.ktime != 0)
    && s.count == |s.procs|
  }

  /** The kernel clock is never zero. */
  predicate Clocked(op: Op)
  {
    op.Exit? || op.now != 0
  }

  lemma ForkKeepsValid(s: State, op: Op)
    requires Valid(s) && op.Fork? && Clocked(op)
    ensures Valid(ForkStep(s, op))
  {
    var s' := ForkStep(s, op);
    if s'.procs != s.procs {
      assert s'.procs.Keys == s.procs.Keys + {op.tgid};
    }
  }

  lemma ExecKeepsValid(s: State, op: Op)
    requires Valid(s) && op.Exec? && Clocked(op)
    ensures Valid(ExecStep(s, op)) && ExecStep(s, op).procs.Keys == s.procs.Keys
  {
    var s' := ExecStep(s, op);
    assert s'.procs.Keys == s.procs.Keys;
    assert |s'.procs| == |s'.procs.Keys| && |s.procs| == |s.procs.Keys|;
  }

  lemma ExitKeepsValid(s: State, tgid: Pid)
    requires Valid(s)
    ensures Valid(ExitStep(s, tgid))
  {
    if tgid in s.procs {
      var m := s.procs - {tgid};
      assert m.Keys == s.procs.Keys - {tgid};
      assert |m| == |m.Keys| && |s.procs| == |s.procs.Keys|;
    }
  }

  lemma StepKeepsValid(s: State, op: Op)
    requires Valid(s) && Clocked(op)
    ensures Valid(Step(s, op))
  {
    match op
    case Fork(_, _, _, _, _) => ForkKeepsValid(s, op);
    case Exec(_, _, _, _, _, _) => ExecKeepsValid(s, op);
    case Exit(tgid) => ExitKeepsValid(s, tgid);
  }

  /** Will the fork enter a process? */
  ghost predicate Enters(s: State, op: Op)
    requires op.Fork?
  {
    !Orphaned(s.procs, op.chain) && op.tgid !in s.procs
  }

  /** The hook's message is not rate limited away on a fork, and an exec is of a tracked process. */
  ghost predicate Lossless(s: State, op: Op)
  {
    match op
    case Fork(_, _, _, _, passed) => Enters(s, op) ==> passed
    case Exec(pid, _, _, _, passed, _) => passed ==> pid in s.procs
    case Exit(_) => true
  }

  lemma KeysReplaced(procs: map<Pid, Entry>, p: Pid, e: Entry)
    requires forall q :: q in procs ==> procs[q].key.pid == q
    requires e.key.pid == p
    ensures Keys(procs[p := e]) == (if p in procs then Keys(procs) - {procs[p].key} else Keys(procs)) + {e.key}
  {
    var m := procs[p := e];
    forall k | k in (if p in procs then Keys(procs) - {procs[p].key} else Keys(procs)) + {e.key}
      ensures k in Keys(m)
    {
      assert k.pid in m && m[k.pid].key == k;
    }
  }

  lemma KeysRemoved(procs: map<Pid, Entry>, p: Pid)
    requires p in procs && forall q :: q in procs ==> procs[q].key.pid == q
    ensures Keys(procs - {p}) == Keys(procs) - {procs[p].key}
  {
    var m := procs - {p};
    forall k | k in Keys(procs) && k != procs[p].key
      ensures k in Keys(m)
    {
      assert k.pid in m && m[k.pid].key == k;
    }
  }

  lemma ForkAgrees(known: set<Key>, s: State, op: Op)
    requires Valid(s) && op.Fork? && Clocked(op) && Announced(known, s.log) == Keys(s.procs)
    ensures Announced(known, ForkStep(s, op).log) == Keys(ForkStep(s, op).procs) <==> Lossless(s, op)
  {
    var s' := ForkStep(s, op);
    ParentIsTracked(s.procs, op.chain, 0);
    FindsNearest(s.procs, op.chain);
    if Enters(s, op) {
      var key := Key(op.tgid, op.now);
      KeysReplaced(s.procs, op.tgid, s'.procs[op.tgid]);
      assert key !in Keys(s.procs);
      if op.passed {
        AnnouncedAppend(known, s.log, s'.log[|s.log|]);
      }
    }
  }

  /** An exec of a tracked process replaces its key. */
  lemma ExecKeys(s: State, op: Op)
    requires Valid(s) && op.Exec? && Clocked(op) && op.passed && op.pid in s.procs
    ensures Keys(ExecStep(s, op).procs) == Keys(s.procs) - {s.procs[op.pid].key} + {Key(op.pid, op.now)}
  {
    var procs := ExecStep(s, op).procs;
    assert procs == s.procs[op.pid := procs[op.pid]];
    KeysReplaced(s.procs, op.pid, procs[op.pid]);
  }

  lemma ExecAgrees(known: set<Key>, s: State, op: Op)
    requires Valid(s) && op.Exec? && Clocked(op) && Announced(known, s.log) == Keys(s.procs)
    ensures Announced(known, ExecStep(s, op).log) == Keys(ExecStep(s, op).procs) <==> Lossless(s, op)
  {
    if op.passed {
      var log, key := ExecStep(s, op).log, Key(op.pid, op.now);
      AnnouncedAppend(known, s.log, log[|s.log|]);
      if op.pid in s.procs {
        ExecKeys(s, op);
      } else {
        assert key in Announced(known, log) && key !in Keys(s.procs);
      }
    }
  }

  lemma ExitAgrees(known: set<Key>, s: State, tgid: Pid)
    requires Valid(s) && Announced(known, s.log) == Keys(s.procs)
    ensures Announced(known, ExitStep(s, tgid).log) == Keys(ExitStep(s, tgid).procs)
  {
    if tgid in s.procs {
      KeysRemoved(s.procs, tgid);
      AnnouncedAppend(known, s.log, ExitMsg(Key(tgid, s.procs[tgid].key.ktime)));
    }
  }

  /** One hook keeps the stream and the map in agreement exactly when it is lossless. */
  lemma StepAgrees(known: set<Key>, s: State, op: Op)
    requires Valid(s) && Clocked(op) && Announced(known, s.log) == Keys(s.procs)
    ensures Announced(known, Step(s, op).log) == Keys(Step(s, op).procs) <==> Lossless(s, op)
  {
    match op
    case Fork(_, _, _, _, _) => ForkAgrees(known, s, op);
    case Exec(_, _, _, _, _, _) => ExecAgrees(known, s, op);
    case Exit(tgid) => ExitAgrees(known, s, tgid);
  }

  /** Over any run of the hooks, lossy or not, entries stay under their pids and are counted. */
  lemma {:induction false} RunKeepsValid(s: State, ops: seq<Op>)
    requires Valid(s) && forall op :: op in ops ==> Clocked(op)
    ensures Valid(Run(s, ops))
  {
    if ops != [] {
      RunKeepsValid(s, ops[..|ops| - 1]);
      StepKeepsValid(Run(s, ops[..|ops| - 1]), ops[|ops| - 1]);
    }
  }

  /** Stream and map agree after the first `i` hooks. */
  ghost predicate AgreesAfter(known: set<Key>, s: State, ops: seq<Op>, i: nat)
    requires i <= |ops|
  {
    Announced(known, Run(s, ops[..i]).log) == Keys(Run(s, ops[..i]).procs)
  }

  ghost predicate LosslessAt(s: State, ops: seq<Op>, i: nat)
    requires i < |ops|
  {
    Lossless(Run(s, ops[..i]), ops[i])
  }

  lemma NextAgrees(known: set<Key>, s: State, ops: seq<Op>, i: nat)
    requires Valid(s) && i < |ops| && forall op :: op in ops ==> Clocked(op)
    requires AgreesAfter(known, s, ops, i)
    ensures AgreesAfter(known, s, ops, i + 1) <==> LosslessAt(s, ops, i)
  {
    assert ops[..i + 1] == ops[..i] + [ops[i]];
    assert ops[..i + 1][..i] == ops[..i];
    RunKeepsValid(s, ops[..i]);
    StepAgrees(known, Run(s, ops[..i]), ops[i]);
  }

  lemma {:induction false} AgreesIfLossless(known: set<Key>, s: State, ops: seq<Op>, n: nat)
    requires Valid(s) && n <= |ops| && Announced(known, s.log) == Keys(s.procs)
    requires forall op :: op in ops ==> Clocked(op)
    requires forall i :: 0 <= i < n ==> LosslessAt(s, ops, i)
    ensures AgreesAfter(known, s, ops, n)
  {
    if n > 0 {
      AgreesIfLossless(known, s, ops, n - 1);
      NextAgrees(known, s, ops, n - 1);
    }
  }

  /**
   The keys announced and not retired are exactly those in the map all along a run if and only if
   every hook of the run is lossless.
   */
  lemma StreamAgreesWithMap(known: set<Key>, s: State, ops: seq<Op>)
    requires Valid(s) && Announced(known, s.log) == Keys(s.procs)
    requires forall op :: op in ops ==> Clocked(op)
    ensures (forall i :: 0 <= i <= |ops| ==> AgreesAfter(known, s, ops, i))
            <==> (forall i :: 0 <= i < |ops| ==> LosslessAt(s, ops, i))
  {
    if forall i :: 0 <= i <= |ops| ==> AgreesAfter(known, s, ops, i) {
      forall i | 0 <= i < |ops|
        ensures LosslessAt(s, ops, i)
      {
        assert AgreesAfter(known, s, ops, i) && AgreesAfter(known, s, ops, i + 1);
        NextAgrees(known, s, ops, i);
      }
    }
    if forall i :: 0 <= i < |ops| ==> LosslessAt(s, ops, i) {
      forall i | 0 <= i <= |ops|
        ensures AgreesAfter(known, s, ops, i)
      {
        AgreesIfLossless(known, s, ops, i);
      }
    }
  }

  /** Which hooks send a message: those not rate limited, of a new child of a tracked process, or of a tracked exit. */
  lemma MessageSent(s: State, op: Op)
    ensures |Step(s, op).log| == |s.log| + 1 || Step(s, op).log == s.log
    ensures |Step(s, op).log| > |s.log| <==>
              match op
              case Fork(tgid, chain, _, _, passed) =>
                !Orphaned(s.procs, chain) && !(tgid in s.procs && s.procs[tgid].key.ktime > 0) && passed
              case Exec(_, _, _, _, passed, _) => passed
              case Exit(tgid) => tgid in s.procs && s.procs[tgid].key.ktime > 0
  {
    if op.Fork? {
      ParentIsTracked(s.procs, op.chain, 0);
      FindsNearest(s.procs, op.chain);
    }
  }

  /** What a hook does to the map: a fork enters its process, an exit removes it, all others stay as they are. */
  lemma HookTouchesItsProcess(s: State, op: Op, p: Pid)
    requires Valid(s) && Clocked(op)
    ensures p in Step(s, op).procs <==>
              match op
              case Fork(tgid, _, _, _, _) => p in s.procs || (p == tgid && Enters(s, op))
              case Exec(_, _, _, _, _, _) => p in s.procs
              case Exit(tgid) => p in s.procs && p != tgid
    ensures p in s.procs && p in Step(s, op).procs && !(op.Exec? && op.pid == p && op.passed) ==>
              Step(s, op).procs[p] == s.procs[p]
  {
    if op.Fork? {
      ParentIsTracked(s.procs, op.chain, 0);
      FindsNearest(s.procs, op.chain);
    }
  }

  /** The parent named by a message is announced and not retired, unless its ktime is zero. */
  lemma ParentsAreAnnounced(known: set<Key>, s: State, op: Op)
    requires Valid(s) && Clocked(op) && Announced(known, s.log) == Keys(s.procs)
    requires |Step(s, op).log| > |s.log| && !op.Exit?
    ensures var msg := Step(s, op).log[|s.log|];
            msg.parent in Announced(known, s.log) || (msg.ExecMsg? && msg.parent.ktime == 0)
  {
    ParentIsTracked(s.procs, op.chain, 0);
  }

  /**
   A CLONE or EXEC message reports the entry as the hook leaves it, under the pid and the time of the
   hook.  Its parent is the nearest tracked of up to four ancestors; without one an EXEC names the
   pid of the real parent, with no time.  An EXEC retires the key that the entry had, and its clone
   flag tells that the process had not yet executed since its fork.
   */
  lemma MessageDescribesEntry(s: State, op: Op)
    requires Valid(s) && Clocked(op) && !op.Exit? && |Step(s, op).log| > |s.log|
    ensures var s', msg := Step(s, op), Step(s, op).log[|s.log|];
            && s'.log == s.log + [msg] && (msg.CloneMsg? <==> op.Fork?) && (msg.ExecMsg? <==> op.Exec?)
            && msg.key == Key(if op.Fork? then op.tgid else op.pid, op.now)
            && (forall p :: Nearest(s.procs, op.chain, p) ==> msg.parent == s.procs[p].key)
            && (Orphaned(s.procs, op.chain) ==>
                  op.Exec? && msg.parent == Key(if op.chain == [] then 0 else op.chain[0], 0))
            && (msg.CloneMsg? ==> msg.nspid == op.nspid && msg.key.pid in s'.procs)
            && (msg.key.pid in s'.procs ==>
                  var e := s'.procs[msg.key.pid];
                  && msg.key == e.key && msg.parent == e.pkey && msg.initTree == e.initTree
                  && e.clone == msg.CloneMsg? && e.nspid == op.nspid)
            && (msg.ExecMsg? ==>
                  if msg.key.pid in s.procs
                  then msg.cleanup == s.procs[msg.key.pid].key && msg.clone == s.procs[msg.key.pid].clone
                  else
                    && msg.cleanup == Key(0, 0) && !msg.clone && !msg.initTree
                    && msg.key.pid !in s'.procs)
  {
    ParentIsTracked(s.procs, op.chain, 0);
    FindsNearest(s.procs, op.chain);
  }

  // ---------------------------------------------------------------- inherited marks

  datatype Mark = Bit(bit: nat) | InitTree

  predicate Has(s: State, m: Mark, p: Pid)
  {
    p in s.procs && match m {
      case Bit(b) => b in s.procs[p].mb
      case InitTree => s.procs[p].initTree
    }
  }

  /** The hook itself marks the process: its binary matches, or it has namespace pid 1. */
  ghost predicate Acquires(s: State, op: Op, m: Mark, p: Pid)
  {
    match op
    case Fork(tgid, _, nspid, _, _) => tgid == p && Enters(s, op) && m.InitTree? && nspid == 1
    case Exec(pid, _, nspid, _, passed, matched) =>
      pid == p && passed && p in s.procs && if m.InitTree? then nspid == 1 else m.bit in matched
    case Exit(_) => false
  }

  /**
   `p` has the marks of `q` after the hook: on a fork of its nearest tracked ancestor; on an exec its
   own, and for bits also those of that ancestor.
   */
  ghost predicate Source(s: State, op: Op, m: Mark, p: Pid, q: Pid)
  {
    match op
    case Fork(tgid, chain, _, _, _) =>
      if tgid == p && Enters(s, op) then Nearest(s.procs, chain, q) else q == p
    case Exec(pid, chain, _, _, passed, _) =>
      q == p || (pid == p && passed && p in s.procs && m.Bit? && Nearest(s.procs, chain, q))
    case Exit(tgid) => tgid != p && q == p
  }

  lemma ForkMarks(s: State, op: Op, m: Mark, p: Pid)
    requires Valid(s) && op.Fork? && Clocked(op)
    ensures Has(ForkStep(s, op), m, p) <==>
              Acquires(s, op, m, p) || exists q :: Source(s, op, m, p, q) && Has(s, m, q)
  {
    ParentIsTracked(s.procs, op.chain, 0);
    FindsNearest(s.procs, op.chain);
    if op.tgid == p && Enters(s, op) {
      var q := FindParent(s.procs, op.chain, 0).value;
      assert Has(ForkStep(s, op), m, p) <==> Acquires(s, op, m, p) || Has(s, m, q);
      assert Source(s, op, m, p, q);
    } else {
      assert Source(s, op, m, p, p);
      assert Has(ForkStep(s, op), m, p) <==> Has(s, m, p);
    }
  }

  lemma ExecMarks(s: State, op: Op, m: Mark, p: Pid)
    requires Valid(s) && op.Exec? && Clocked(op)
    ensures Has(ExecStep(s, op), m, p) <==>
              Acquires(s, op, m, p) || exists q :: Source(s, op, m, p, q) && Has(s, m, q)
  {
    ParentIsTracked(s.procs, op.chain, 0);
    FindsNearest(s.procs, op.chain);
    assert Source(s, op, m, p, p);
    if op.pid == p && op.passed && p in s.procs {
      var procs := s.procs[p := Rewritten(s.procs[p], ParentKey(s, op), op)];
      SameParent(s.procs, procs, op.chain, 0);
      var parent := FindParent(s.procs, op.chain, 0);
      if m.Bit? && parent.Some? {
        assert Source(s, op, m, p, parent.value);
      }
    }
  }

  lemma StepMarks(s: State, op: Op, m: Mark, p: Pid)
    requires Valid(s) && Clocked(op)
    ensures Has(Step(s, op), m, p) <==>
              Acquires(s, op, m, p) || exists q :: Source(s, op, m, p, q) && Has(s, m, q)
  {
    match op
    case Fork(_, _, _, _, _) => ForkMarks(s, op, m, p);
    case Exec(_, _, _, _, _, _) => ExecMarks(s, op, m, p);
    case Exit(tgid) =>
      if tgid != p {
        assert Source(s, op, m, p, p);
      }
  }

  /** `p`, as it is after the first `i` hooks, is what `q` after all of them descends from. */
  ghost predicate Heir(s: State, ops: seq<Op>, m: Mark, i: nat, p: Pid, q: Pid)
    decreases |ops|
  {
    if i >= |ops| then i == |ops| && p == q
    else
      var n := |ops| - 1;
      exists r :: Source(Run(s, ops[..n]), ops[n], m, q, r) && Heir(s, ops[..n], m, i, p, r)
  }

  /** Hook number `i`, or the start, marks `p`. */
  ghost predicate MarkedAt(s: State, ops: seq<Op>, m: Mark, i: nat, p: Pid)
    requires i <= |ops|
  {
    if i == 0 then Has(s, m, p) else Acquires(Run(s, ops[..i - 1]), ops[i - 1], m, p)
  }

  ghost predicate Inherits(s: State, ops: seq<Op>, m: Mark, q: Pid)
  {
    exists i, p :: 0 <= i <= |ops| && MarkedAt(s, ops, m, i, p) && Heir(s, ops, m, i, p, q)
  }

  lemma MarkedAtPrefix(s: State, ops: seq<Op>, m: Mark, i: nat, p: Pid)
    requires i < |ops|
    ensures MarkedAt(s, ops[..|ops| - 1], m, i, p) <==> MarkedAt(s, ops, m, i, p)
  {
    if i > 0 {
      assert ops[..|ops| - 1][..i - 1] == ops[..i - 1];
    }
  }

  lemma InheritsNow(s: State, ops: seq<Op>, m: Mark, q: Pid)
    requires ops != [] && Acquires(Run(s, ops[..|ops| - 1]), ops[|ops| - 1], m, q)
    ensures Inherits(s, ops, m, q)
  {
    assert MarkedAt(s, ops, m, |ops|, q) && Heir(s, ops, m, |ops|, q, q);
  }

  lemma InheritsVia(s: State, ops: seq<Op>, m: Mark, r: Pid, q: Pid)
    requires ops != [] && Source(Run(s, ops[..|ops| - 1]), ops[|ops| - 1], m, q, r)
    requires Inherits(s, ops[..|ops| - 1], m, r)
    ensures Inherits(s, ops, m, q)
  {
    var init := ops[..|ops| - 1];
    var i, p :| 0 <= i <= |init| && MarkedAt(s, init, m, i, p) && Heir(s, init, m, i, p, r);
    MarkedAtPrefix(s, ops, m, i, p);
    assert Heir(s, ops, m, i, p, q);
  }

  lemma InheritsFrom(s: State, ops: seq<Op>, m: Mark, q: Pid) returns (now: bool, r: Pid)
    requires ops != [] && Inherits(s, ops, m, q)
    ensures now ==> Acquires(Run(s, ops[..|ops| - 1]), ops[|ops| - 1], m, q)
    ensures !now ==> Source(Run(s, ops[..|ops| - 1]), ops[|ops| - 1], m, q, r) && Inherits(s, ops[..|ops| - 1], m, r)
  {
    var n := |ops| - 1;
    var i, p :| 0 <= i <= |ops| && MarkedAt(s, ops, m, i, p) && Heir(s, ops, m, i, p, q);
    now, r := i == |ops|, q;
    if !now {
      r :| Source(Run(s, ops[..n]), ops[n], m, q, r) && Heir(s, ops[..n], m, i, p, r);
      MarkedAtPrefix(s, ops, m, i, p);
      assert MarkedAt(s, ops[..n], m, i, p);
    }
  }

  /**
   After any history a process has a mark exactly when some process it descends from had it at the
   start or acquired it: bits pass to every fork descendant and survive its execs; the init-tree
   flag means namespace pid 1 at a fork or exec of the process or of a fork ancestor before the fork.
   */
  lemma {:induction false} MarksAreInherited(s: State, ops: seq<Op>, m: Mark, q: Pid)
    requires Valid(s) && forall op :: op in ops ==> Clocked(op)
    ensures Has(Run(s, ops), m, q) <==> Inherits(s, ops, m, q)
    decreases |ops|
  {
    if ops == [] {
      if Has(s, m, q) {
        assert MarkedAt(s, ops, m, 0, q) && Heir(s, ops, m, 0, q, q);
      }
    } else {
      var n := |ops| - 1;
      var prev := Run(s, ops[..n]);
      RunKeepsValid(s, ops[..n]);
      StepMarks(prev, ops[n], m, q);
      if Has(Run(s, ops), m, q) {
        if Acquires(prev, ops[n], m, q) {
          InheritsNow(s, ops, m, q);
        } else {
          var r :| Source(prev, ops[n], m, q, r) && Has(prev, m, r);
          MarksAreInherited(s, ops[..n], m, r);
          InheritsVia(s, ops, m, r, q);
        }
      }
      if Inherits(s, ops, m, q) {
        var now, r := InheritsFrom(s, ops, m, q);
        if !now {
          MarksAreInherited(s, ops[..n], m, r);
        }
      }
    }
  }

  // ---------------------------------------------------------------- the code's in-place form

  class ExecveMap {
    var procs: map<Pid, Entry>
    var count: int
    var log: seq<Event>

    ghost function View(): State
      reads this
    {
      State(procs, count, log)
    }

    /** execve_map_get: creates a zeroed entry if there is none. */
    method Get(pid: Pid)
      modifies this`procs, this`count
      ensures procs == if pid in old(procs) then old(procs) else old(procs)[pid := ZEROED]
      ensures count == old(count) + if pid in old(procs) then 0 else 1
    {
      if pid !in procs {
        procs := procs[pid := ZEROED];
        count := count + 1;
      }
    }

    method GetNoinit(pid: Pid) returns (r: Option<Entry>)
      ensures r == if pid in procs then Some(procs[pid]) else None
    {
      r := if pid in procs then Some(procs[pid]) else None;
    }

    method Delete(pid: Pid)
      modifies this`procs, this`count
      ensures procs == old(procs) - {pid}
      ensures count == old(count) - if pid in old(procs) then 1 else 0
    {
      if pid in procs {
        count := count - 1;
      }
      procs := procs - {pid};
    }

    method EventFindParent(chain: seq<Pid>) returns (r: Option<Pid>)
      ensures r == FindParent(procs, chain, 0)
      ensures match r case Some(p) => Nearest(procs, chain, p) case None => Orphaned(procs, chain)
    {
      FindsNearest(procs, chain);
      for i := 0 to 4
        invariant FindParent(procs, chain, 0) == FindParent(procs, chain, i)
      {
        if i >= |chain| {
          break;
        }
        var value := GetNoinit(chain[i]);
        if value.Some? && value.value.key.ktime != 0 {
          return Some(chain[i]);
        }
      }
      r := None;
    }

    method SetInInitTree(pid: Pid, parent: Option<Entry>)
      requires pid in procs
      modifies this`procs
      ensures procs == old(procs)[pid := InInitTree(old(procs)[pid], parent)]
    {
      if parent.Some? && parent.value.initTree {
        procs := procs[pid := procs[pid].(initTree := true)];
        return;
      }
      if procs[pid].nspid == 1 {
        procs := procs[pid := procs[pid].(initTree := true)];
      }
    }

    method WakeUpNewTask(op: Op)
      requires op.Fork? && Clocked(op)
      modifies this
      ensures View() == Step(old(View()), op)
    {
      var parent := EventFindParent(op.chain);
      ParentIsTracked(procs, op.chain, 0);
      if parent.None? {
        return;
      }
      Get(op.tgid);
      if procs[op.tgid].key.ktime != 0 {
        return;
      }
      var from := procs[parent.value];
      procs := procs[op.tgid := Entry(Key(op.tgid, op.now), from.key, op.nspid, true, false, from.mb)];
      SetInInitTree(op.tgid, Some(from));
      var curr := procs[op.tgid];
      if op.passed {
        log := log + [CloneMsg(curr.key, curr.pkey, curr.nspid, curr.initTree)];
      }
    }

    method UpdateMbBitset(op: Op)
      requires op.Exec? && op.pid in procs
      modifies this`procs
      ensures procs == WithBits(old(procs), op)
    {
      var parent := EventFindParent(op.chain);
      ParentIsTracked(procs, op.chain, 0);
      ghost var curr := procs[op.pid];
      ghost var inherited := if parent.Some? then procs[parent.value].mb else {};
      if parent.Some? {
        var bits := procs[parent.value].mb;
        procs := procs[op.pid := procs[op.pid].(mb := procs[op.pid].mb + bits)];
      }
      procs := procs[op.pid := procs[op.pid].(mb := procs[op.pid].mb + op.matched)];
      assert procs[op.pid].mb == curr.mb + inherited + op.matched;
      assert procs == old(procs)[op.pid := procs[op.pid]];
    }

    method Execve(op: Op)
      requires op.Exec?
      modifies this
      ensures View() == Step(old(View()), op)
    {
      var parent := EventFindParent(op.chain);
      ParentIsTracked(procs, op.chain, 0);
      var pkey := if parent.Some? then procs[parent.value].key else Key(if op.chain == [] then 0 else op.chain[0], 0);
      if !op.passed {
        return;
      }
      var cleanup, clone, initTree := NO_KEY, false, false;
      if op.pid in procs {
        var curr := procs[op.pid];
        cleanup := curr.key;
        clone := curr.clone;
        procs := procs[op.pid := curr.(key := Key(op.pid, op.now), nspid := op.nspid, pkey := pkey, clone := false)];
        SetInInitTree(op.pid, None);
        initTree := procs[op.pid].initTree;
        assert procs == old(procs)[op.pid := Rewritten(curr, pkey, op)];
        UpdateMbBitset(op);
      }
      log := log + [ExecMsg(Key(op.pid, op.now), pkey, cleanup, clone, initTree)];
    }

    method EventExitSend(tgid: Pid)
      modifies this
      ensures View() == Step(old(View()), Exit(tgid))
    {
      var enter := GetNoinit(tgid);
      if enter.None? {
        return;
      }
      if enter.value.key.ktime != 0 {
        log := log + [ExitMsg(Key(tgid, enter.value.key.ktime))];
      }
      Delete(tgid);
    }
  }
}
