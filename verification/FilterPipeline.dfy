/**
 The generic sensor's event pipeline (bpf/process/generic_calls.h with generic_path.h): programs
 that hand over to each other by tail calls and share one per-CPU message.  Entry probes only.
 */
module FilterPipeline {
  import opened Common
  import DPath
  import Offload = GenericPath

  const MAX_SELECTORS: nat := 5
  const SELECTORS_ACTIVE: nat := 31
  const MAX_TOTAL: int := 9000
  const MAX_POSSIBLE_ARGS: nat := 5

  /**
   One argument: whether its type is resolved by the path offload, whether it has a path at all,
   after how many calls the walk resolves, and the size (or negative error) of the copied value.
   */
  datatype Arg = Arg(offloaded: bool, hasPath: bool, resolvedAfter: nat, size: int)
  {
    predicate Walks() { offloaded && hasPath }

    /** The size that counts: an offloaded argument without a path contributes nothing. */
    function Read(): int { if offloaded && !hasPath then 0 else size }
  }

  /** The configuration and the per-event facts that the programs consult. */
  datatype Env = Env(
    configured: bool, policyOk: bool, processFound: bool, hasFilter: bool,
    selectors: nat,
    passesProcess: nat -> bool,
    passesArgs: nat -> int,
    args: seq<Arg>,
    postit: int -> bool)
  {
    predicate Valid() { |args| <= MAX_POSSIBLE_ARGS }

    /** Index `i` passes both filters. */
    predicate Matches(i: nat) { passesProcess(i) && passesArgs(i) != 0 }

    /** Only the first six selectors are ever looked at. */
    function Reach(): nat { if selectors <= MAX_SELECTORS then selectors else MAX_SELECTORS + 1 }
  }

  /** `Posted(action)`: the event is sent, after the actions at offset `action` if that exceeds 1. */
  datatype Verdict = Dropped | Posted(action: int)

  // ---------------------------------------------------------------- the direct search

  function FirstMatch(env: Env, i: nat): Option<nat>
    requires i <= env.Reach()
    decreases env.Reach() - i
  {
    if i == env.Reach() then None
    else if env.Matches(i) then Some(i)
    else FirstMatch(env, i + 1)
  }

  lemma {:induction false} FirstMatchIsLeast(env: Env, i: nat)
    requires i <= env.Reach()
    ensures match FirstMatch(env, i)
            case None => forall j :: i <= j < env.Reach() ==> !env.Matches(j)
            case Some(k) => i <= k < env.Reach() && env.Matches(k) && forall j :: i <= j < k ==> !env.Matches(j)
    decreases env.Reach() - i
  {
    if i < env.Reach() && !env.Matches(i) {
      FirstMatchIsLeast(env, i + 1);
    }
  }

  /** Reading the arguments from `p` on, with `total` bytes used, meets an error. */
  predicate ReadFails(args: seq<Arg>, p: nat, total: int)
    requires p <= |args|
    decreases |args| - p
  {
    p < |args| &&
    if total >= MAX_TOTAL then ReadFails(args, p + 1, total)
    else args[p].Read() < 0 || ReadFails(args, p + 1, total + args[p].Read())
  }

  /** The bytes of the first `k` arguments; a path argument without a path has none. */
  function Bytes(args: seq<Arg>, k: nat): int
    requires k <= |args|
  {
    if k == 0 then 0
    else Bytes(args, k - 1) + if args[k - 1].offloaded && !args[k - 1].hasPath then 0 else args[k - 1].size
  }

  /** The copy of the argument fails. */
  predicate CopyFails(arg: Arg) { !(arg.offloaded && !arg.hasPath) && arg.size < 0 }

  /** The first `k` arguments are all read, and none fails. */
  predicate Through(args: seq<Arg>, k: nat)
    requires k <= |args|
  {
    k > 0 ==> Through(args, k - 1) && Bytes(args, k - 1) < MAX_TOTAL && !CopyFails(args[k - 1])
  }

  /** Argument `k` is read: all before it were, and left room. */
  predicate IsRead(args: seq<Arg>, k: nat)
    requires k < |args|
  {
    Through(args, k) && Bytes(args, k) < MAX_TOTAL
  }

  lemma {:induction false} NoMoreReads(args: seq<Arg>, p: nat, total: int)
    requires p <= |args| && total >= MAX_TOTAL
    ensures !ReadFails(args, p, total)
    decreases |args| - p
  {
    if p < |args| {
      NoMoreReads(args, p + 1, total);
    }
  }

  /** The copy of some argument that is read fails, from argument `p` on. */
  ghost predicate FailsFrom(args: seq<Arg>, p: nat)
  {
    exists k :: p <= k < |args| && IsRead(args, k) && CopyFails(args[k])
  }

  lemma {:induction false} ThroughBefore(args: seq<Arg>, p: nat, k: nat)
    requires p < k <= |args| && Through(args, k)
    ensures Bytes(args, p) < MAX_TOTAL && !CopyFails(args[p])
    decreases k
  {
    if p < k - 1 {
      ThroughBefore(args, p, k - 1);
    }
  }

  lemma FailsNext(args: seq<Arg>, p: nat)
    requires p < |args| && !CopyFails(args[p])
    ensures FailsFrom(args, p) <==> FailsFrom(args, p + 1)
  {
    if FailsFrom(args, p) {
      var k :| p <= k < |args| && IsRead(args, k) && CopyFails(args[k]);
      assert p + 1 <= k;
    }
  }

  lemma NoneFails(args: seq<Arg>, p: nat)
    requires p <= |args| && Bytes(args, p) >= MAX_TOTAL
    ensures !FailsFrom(args, p)
  {
    forall k | p <= k < |args|
      ensures !IsRead(args, k)
    {
      if IsRead(args, k) && p < k {
        ThroughBefore(args, p, k);
      }
    }
  }

  lemma ReadFailsNext(args: seq<Arg>, p: nat)
    requires p < |args| && Bytes(args, p) < MAX_TOTAL && !CopyFails(args[p])
    ensures ReadFails(args, p, Bytes(args, p)) == ReadFails(args, p + 1, Bytes(args, p + 1))
  {
    assert Bytes(args, p + 1) == Bytes(args, p) + args[p].Read();
  }

  lemma {:induction false} ReadFailsFrom(args: seq<Arg>, p: nat)
    requires p <= |args| && Through(args, p)
    ensures ReadFails(args, p, Bytes(args, p)) <==> FailsFrom(args, p)
    decreases |args| - p
  {
    if p < |args| {
      if Bytes(args, p) >= MAX_TOTAL {
        NoMoreReads(args, p, Bytes(args, p));
        NoneFails(args, p);
      } else if CopyFails(args[p]) {
        assert IsRead(args, p);
      } else {
        ReadFailsFrom(args, p + 1);
        ReadFailsNext(args, p);
        FailsNext(args, p);
      }
    }
  }

  /** Reading fails exactly when the copy of some argument that is read does. */
  lemma ReadFailsExactly(args: seq<Arg>)
    ensures ReadFails(args, 0, 0) <==> exists k :: 0 <= k < |args| && IsRead(args, k) && CopyFails(args[k])
  {
    ReadFailsFrom(args, 0);
    assert Bytes(args, 0) == 0;
  }

  /** The bytes used once the first `p` arguments are dealt with. */
  function Used(args: seq<Arg>, p: nat): int
    requires p <= |args|
  {
    if p == 0 then 0
    else
      var used := Used(args, p - 1);
      if used >= MAX_TOTAL then used else used + args[p - 1].Read()
  }

  /** `total` is the sum of the sizes of the arguments read before it reaches the limit. */
  ghost predicate SumsRead(args: seq<Arg>, p: nat, total: int)
    requires p <= |args|
  {
    exists k :: 0 <= k <= p && total == Bytes(args, k) && (k < p ==> Bytes(args, k) >= MAX_TOTAL)
                && forall j :: 0 <= j < k ==> Bytes(args, j) < MAX_TOTAL
  }

  lemma {:induction false} UsedSums(args: seq<Arg>, p: nat)
    requires p <= |args|
    ensures SumsRead(args, p, Used(args, p))
  {
    if p == 0 {
      assert Bytes(args, 0) == 0;
    } else {
      UsedSums(args, p - 1);
      var used := Used(args, p - 1);
      var k :| 0 <= k <= p - 1 && used == Bytes(args, k) && (k < p - 1 ==> Bytes(args, k) >= MAX_TOTAL)
               && forall j :: 0 <= j < k ==> Bytes(args, j) < MAX_TOTAL;
      if used < MAX_TOTAL {
        assert Used(args, p) == Bytes(args, p);
      } else {
        assert Used(args, p) == Bytes(args, k);
      }
    }
  }

  predicate SomeProcessPass(env: Env)
  {
    exists i | 0 <= i < env.Reach() :: env.passesProcess(i)
  }

  /** What the whole pipeline should decide, without selectors state or tail calls. */
  function DirectSearch(env: Env): Verdict
  {
    if !(env.configured && env.policyOk && env.processFound && env.hasFilter) then Dropped
    else if env.selectors > 0 && !SomeProcessPass(env) then Dropped
    else if ReadFails(env.args, 0, 0) then Dropped
    else if env.selectors == 0 then Posted(1)
    else
      match FirstMatch(env, 0)
      case None => Dropped
      case Some(i) => Conclude(env, env.passesArgs(i))
  }

  /** A pass of more than 1 is the offset of actions, which may withhold the event. */
  function Conclude(env: Env, pass: int): Verdict
  {
    if pass <= 1 then Posted(1)
    else if env.postit(pass) then Posted(pass)
    else Dropped
  }

  /** Selector `i` is one of the first six and the first that passes both filters. */
  ghost predicate Decides(env: Env, i: nat)
  {
    && i < env.selectors && i <= 5 && env.passesProcess(i) && env.passesArgs(i) != 0
    && forall j :: 0 <= j < i ==> !(env.passesProcess(j) && env.passesArgs(j) != 0)
  }

  /** Nothing stops the event before the argument filters. */
  ghost predicate GetsThrough(env: Env)
  {
    && env.configured && env.policyOk && env.processFound && env.hasFilter
    && forall k :: 0 <= k < |env.args| && IsRead(env.args, k) ==> !CopyFails(env.args[k])
  }

  /**
   Which events are sent, in terms of the configuration: without selectors all that get through, else
   those with a deciding selector whose actions, if its result has any, do not withhold the event.
   */
  lemma SentExactly(env: Env)
    ensures env.selectors == 0 ==> DirectSearch(env) == if GetsThrough(env) then Posted(1) else Dropped
    ensures env.selectors > 0 ==>
              (DirectSearch(env).Posted? <==>
                 && GetsThrough(env)
                 && exists i :: Decides(env, i) && (env.passesArgs(i) > 1 ==> env.postit(env.passesArgs(i))))
    ensures forall i :: DirectSearch(env).Posted? && env.selectors > 0 && Decides(env, i) ==>
              DirectSearch(env).action == if env.passesArgs(i) > 1 then env.passesArgs(i) else 1
  {
    ReadFailsExactly(env.args);
    FirstMatchIsLeast(env, 0);
    forall i: nat
      ensures Decides(env, i) <==> env.selectors > 0 && FirstMatch(env, 0) == Some(i)
    {
      DecidesFirst(env, i);
    }
    if FirstMatch(env, 0).Some? {
      assert env.passesProcess(FirstMatch(env, 0).value);
    }
  }

  lemma DecidesFirst(env: Env, i: nat)
    ensures Decides(env, i) <==> env.selectors > 0 && FirstMatch(env, 0) == Some(i)
  {
    FirstMatchIsLeast(env, 0);
    if Decides(env, i) {
      assert env.Matches(i) && i < env.Reach();
      assert forall j :: 0 <= j < i ==> !env.Matches(j);
    }
    if env.selectors > 0 && FirstMatch(env, 0) == Some(i) {
      forall j | 0 <= j < i
        ensures !(env.passesProcess(j) && env.passesArgs(j) != 0)
      {
        assert !env.Matches(j);
      }
    }
  }

  // ---------------------------------------------------------------- the number of tail calls

  datatype Prog = FILTER | SETUP | PROCESS | PATH | ARGS | ACTIONS | SEND | END(verdict: Verdict)

  /** The calls that walk a path, after the one that begins the walk. */
  function WorkCalls(arg: Arg): (r: nat)
    ensures 1 <= r <= Offload.GENERIC_PATH_CALLS
  {
    if arg.resolvedAfter <= 1 then 1
    else if arg.resolvedAfter >= Offload.GENERIC_PATH_CALLS then Offload.GENERIC_PATH_CALLS
    else arg.resolvedAfter
  }

  /** A path argument whose walk is that of the resumable machine. */
  function WalkedArg(g: DPath.Graph, path: DPath.Path, root: DPath.Path, iterations: nat, size: int): Arg
  {
    Arg(true, true, Offload.CallsFrom(g, root, Offload.Begun(g, path), iterations, 1), size)
  }

  /** The pipeline counts as many calls as that machine makes. */
  lemma WalkedArgCalls(g: DPath.Graph, path: DPath.Path, root: DPath.Path, iterations: nat, size: int)
    ensures WorkCalls(WalkedArg(g, path, root, iterations, size))
            == Offload.CallsFrom(g, root, Offload.Begun(g, path), iterations, 1)
  {
  }

  /** The first selector from `i` on that passes the process filter. */
  function NextPass(env: Env, i: nat): Option<nat>
    decreases env.Reach() - i
  {
    if i >= env.Reach() then None else if env.passesProcess(i) then Some(i) else NextPass(env, i + 1)
  }

  lemma {:induction false} NextPassIs(env: Env, i: nat, j: nat)
    requires i <= j && (forall k :: i <= k < j ==> !(k < env.Reach() && env.passesProcess(k)))
    requires j >= env.Reach() || env.passesProcess(j)
    ensures NextPass(env, i) == if j < env.Reach() then Some(j) else None
    decreases env.Reach() - i
  {
    if i < j && i < env.Reach() {
      NextPassIs(env, i + 1, j);
    }
  }

  /** The calls to come when the argument filter is at selector `i`. */
  function Searching(env: Env, i: nat): nat
    decreases env.Reach() - i
  {
    if env.selectors == 0 then 1
    else if i < env.Reach() && env.Matches(i) then
      if env.passesArgs(i) <= 1 then 1 else if env.postit(env.passesArgs(i)) then 2 else 1
    else
      match NextPass(env, i + 1)
      case None => 0
      case Some(j) => if j > i && j < env.Reach() then 1 + Searching(env, j) else 0
  }

  /** The calls to come once argument `p` is read or fails to be, `total` bytes being used before it. */
  function AfterRead(env: Env, p: nat, total: int): nat
    requires p < |env.args|
    decreases |env.args| - p, 0
  {
    var arg := env.args[p];
    if total < MAX_TOTAL && arg.Read() < 0 then 0
    else
      var used := if total < MAX_TOTAL then total + arg.Read() else total;
      1 + if p + 1 < |env.args| then Reading(env, p + 1, used) else Searching(env, 0)
  }

  function Reading(env: Env, p: nat, total: int): nat
    requires p < |env.args|
    decreases |env.args| - p, 1
  {
    AfterRead(env, p, total) + if total < MAX_TOTAL && env.args[p].Walks() then 2 + WorkCalls(env.args[p]) else 0
  }

  function AfterSetup(env: Env): nat
  {
    1 + if env.args == [] then Searching(env, 0) else Reading(env, 0, 0)
  }

  function Filtering(env: Env, curr: nat): nat
    requires curr <= env.Reach()
  {
    if !(env.processFound && env.hasFilter) then 0
    else env.Reach() - curr + if env.selectors > 0 && !SomeProcessPass(env) then 0 else 1 + AfterSetup(env)
  }

  /** Exactly how many tail calls an event makes. */
  function TailCalls(env: Env): nat
  {
    if env.configured && env.policyOk then 1 + Filtering(env, 0) else 0
  }

  /** The calls still to come when program `pc` is about to run: the termination measure of the machine. */
  function Remaining(env: Env, pc: Prog, curr: nat, p: nat, size: int, work: bool, cnt: nat, selidx: nat,
                     pass: int): int
  {
    match pc
    case FILTER => if curr <= env.Reach() then Filtering(env, curr) else 0
    case SETUP => AfterSetup(env)
    case PROCESS =>
      if p >= |env.args| then 0 else if work then AfterRead(env, p, size) else Reading(env, p, size)
    case PATH =>
      if p >= |env.args| then 0
      else AfterRead(env, p, size) + if work then WorkCalls(env.args[p]) - cnt else WorkCalls(env.args[p]) + 1
    case ARGS => Searching(env, selidx)
    case ACTIONS => if env.postit(pass) then 1 else 0
    case SEND => 0
    case END(_) => 0
  }

  function Walking(args: seq<Arg>, p: nat): nat
    decreases |args| - p
  {
    if p >= |args| then 0 else (if args[p].Walks() then 1 else 0) + Walking(args, p + 1)
  }

  lemma {:induction false} SearchingBound(env: Env, i: nat)
    requires i <= MAX_SELECTORS
    ensures Searching(env, i) <= 7 - i
    decreases env.Reach() - i
  {
    var next := NextPass(env, i + 1);
    if env.selectors > 0 && !(i < env.Reach() && env.Matches(i)) && next.Some? && i < next.value < env.Reach() {
      SearchingBound(env, next.value);
    }
  }

  lemma {:induction false} ReadingBound(env: Env, p: nat, total: int)
    requires env.Valid() && p < |env.args|
    ensures Reading(env, p, total) <= 10 * Walking(env.args, p) + (5 - p) + 7
    decreases |env.args| - p
  {
    var arg := env.args[p];
    var used := if total < MAX_TOTAL then total + arg.Read() else total;
    if p + 1 < |env.args| {
      ReadingBound(env, p + 1, used);
    } else {
      SearchingBound(env, 0);
    }
  }

  /** At most 21 tail calls, and 10 more for each argument that is walked. */
  lemma TailCallsBound(env: Env)
    requires env.Valid()
    ensures TailCalls(env) <= 21 + 10 * Walking(env.args, 0)
  {
    SearchingBound(env, 0);
    if env.args != [] {
      ReadingBound(env, 0, 0);
    }
  }

  const KERNEL_LIMIT: nat := 33

  /** A file `depth` directories below the root of its only mount. */
  function Deep(depth: nat): DPath.Graph
  {
    DPath.Graph(d => if d < depth then d + 1 else d, _ => "f", _ => false, _ => depth, m => m, _ => 0)
  }

  function DeepFile(): DPath.Path
  {
    DPath.Path(0, DPath.VfsMount(0))
  }

  function DeepRoot(depth: nat): DPath.Path
  {
    DPath.Path(depth, DPath.VfsMount(0))
  }

  /** The walk needs one step for each directory and one to see that it has arrived. */
  lemma {:induction false} DeepArrives(depth: nat, d: nat, n: nat)
    requires d <= depth
    ensures DPath.Arrives(Deep(depth), DeepRoot(depth), DPath.Pos(d, DPath.VfsMount(0), 0), n) <==> n > depth - d
    decreases n
  {
    if n > 0 && d < depth {
      DeepArrives(depth, d + 1, n - 1);
    }
  }

  /** As deep as all calls together go, the walk takes all of them. */
  lemma {:induction false} DeepCalls(iterations: nat, c: nat)
    requires c <= Offload.GENERIC_PATH_CALLS
    ensures var depth := Offload.GENERIC_PATH_CALLS * iterations;
            Offload.CallsFrom(Deep(depth), DeepRoot(depth), Offload.Begun(Deep(depth), DeepFile()), iterations, c)
            == Offload.GENERIC_PATH_CALLS
    decreases Offload.GENERIC_PATH_CALLS - c
  {
    var depth := Offload.GENERIC_PATH_CALLS * iterations;
    if c < Offload.GENERIC_PATH_CALLS {
      DPath.PathMeaning(Deep(depth), DeepRoot(depth), Offload.Begun(Deep(depth), DeepFile()), c * iterations);
      DeepArrives(depth, 0, c * iterations);
      assert c * iterations <= depth;
      DeepCalls(iterations, c + 1);
    }
  }

  function DeepArg(iterations: nat): Arg
  {
    var depth := Offload.GENERIC_PATH_CALLS * iterations;
    WalkedArg(Deep(depth), DeepFile(), DeepRoot(depth), iterations, 8)
  }

  /** Two deep paths, three plain arguments, and six selectors of which the last matches. */
  function Longest(iterations: nat): Env
  {
    var walked, plain := DeepArg(iterations), Arg(false, false, 0, 8);
    Env(true, true, true, true, 6, _ => true, i => if i == 5 then 2 else 0,
        [walked, walked, plain, plain, plain], _ => true)
  }

  lemma LongestSearch(iterations: nat, i: nat)
    requires i <= 5
    ensures Searching(Longest(iterations), i) == 7 - i
    decreases 5 - i
  {
    if i < 5 {
      LongestSearch(iterations, i + 1);
      assert NextPass(Longest(iterations), i + 1) == Some(i + 1);
    }
  }

  lemma LongestReading(iterations: nat)
    ensures Reading(Longest(iterations), 0, 0) == 32
  {
    var env := Longest(iterations);
    LongestSearch(iterations, 0);
    DeepCalls(iterations, 1);
    assert WorkCalls(DeepArg(iterations)) == Offload.GENERIC_PATH_CALLS;
    assert Reading(env, 4, 32) == 8;
    assert Reading(env, 3, 24) == 9;
    assert Reading(env, 2, 16) == 10;
    assert Reading(env, 1, 8) == 21;
  }

  /**
   However many steps a call walks, an event with two such arguments meets the bound, beyond the
   kernel's limit on tail calls.
   */
  lemma LongestExceedsLimit(iterations: nat)
    ensures Longest(iterations).Valid() && Walking(Longest(iterations).args, 0) == 2
    ensures TailCalls(Longest(iterations)) == 21 + 10 * 2 > KERNEL_LIMIT
  {
    var env := Longest(iterations);
    LongestReading(iterations);
    assert env.passesProcess(0) && env.Reach() == 6;
    assert SomeProcessPass(env);
    assert Walking(env.args, 5) == 0 && Walking(env.args, 4) == 0 && Walking(env.args, 3) == 0;
    assert Walking(env.args, 2) == 0 && Walking(env.args, 1) == 1;
  }

  // ---------------------------------------------------------------- the machine

  datatype FilterResult = PFILTER_REJECT | PFILTER_ACCEPT | PFILTER_CONTINUE | PFILTER_ERROR

  class Message {
    const active: array<bool>
    var curr: nat
    var selPass: bool
    var indexProcess: nat
    var indexSelector: nat
    var size: int
    var pathWork: bool
    var pathCnt: nat
    var pass: int

    ghost predicate Valid()
      reads this
    {
      active.Length == SELECTORS_ACTIVE + 1 && indexSelector <= MAX_SELECTORS
    }

    /** Selectors below `k` are marked exactly when they pass the process filter. */
    ghost predicate Marked(env: Env, k: nat)
      reads this, active
    {
      && Valid()
      && (forall j :: 0 <= j <= MAX_SELECTORS ==> (active[j] <==> j < k && env.passesProcess(j)))
      && (active[SELECTORS_ACTIVE] <==> exists j :: 0 <= j < k && env.passesProcess(j))
    }

    constructor ()
      ensures Valid() && fresh(active)
    {
      active := new bool[SELECTORS_ACTIVE + 1];
      curr, indexProcess, indexSelector, size, pathCnt, pass := 0, 0, 0, 0, 0, 0;
      selPass, pathWork := false, false;
    }

    method StartProcessFilter(env: Env) returns (next: Prog)
      requires Valid()
      modifies this, active
      ensures Valid()
      ensures next == if env.configured && env.policyOk then FILTER else END(Dropped)
      ensures next == FILTER ==>
                curr == 0 && !selPass && indexProcess == 0 && indexSelector == 0 && !pathWork && Marked(env, 0)
    {
      if !env.configured {
        return END(Dropped);
      }
      if !env.policyOk {
        return END(Dropped);
      }
      curr := 0;
      forall i | 0 <= i < active.Length { active[i] := false; }
      selPass := false;
      indexProcess := 0;
      indexSelector := 0;
      pathWork := false;
      next := FILTER;
    }

    method ProcessFilterDone() returns (r: FilterResult)
      ensures r == if selPass then PFILTER_ACCEPT else PFILTER_REJECT
    {
      r := if selPass then PFILTER_ACCEPT else PFILTER_REJECT;
    }

    /** One pass of the process filter: it looks at selector `curr` and marks it. */
    method GenericProcessFilter(env: Env) returns (r: FilterResult)
      requires Valid() && curr <= env.Reach() && Marked(env, curr)
      requires selPass <==> active[SELECTORS_ACTIVE]
      modifies this`curr, this`selPass, active
      ensures Valid() && curr <= env.Reach() && Marked(env, curr)
      ensures r != PFILTER_CONTINUE ==> curr == old(curr)
      ensures !env.processFound ==> r == PFILTER_REJECT
      ensures env.processFound && !env.hasFilter ==> r == PFILTER_ERROR
      ensures env.processFound && env.hasFilter ==>
                && r != PFILTER_ERROR
                && (r == PFILTER_CONTINUE ==> curr == old(curr) + 1 && (selPass <==> active[SELECTORS_ACTIVE]))
                && (r == PFILTER_ACCEPT ==>
                      curr == env.Reach() && (env.selectors > 0 ==> active[SELECTORS_ACTIVE]))
                && (r == PFILTER_REJECT ==>
                      curr == env.Reach() && env.selectors > 0 && !active[SELECTORS_ACTIVE])
    {
      if !env.processFound {
        return PFILTER_REJECT;
      }
      if !env.hasFilter {
        return PFILTER_ERROR;
      }
      if curr > MAX_SELECTORS {
        r := ProcessFilterDone();
        return;
      }
      var selectors := env.selectors;
      if selectors == 0 {
        selPass := true;
        r := ProcessFilterDone();
        return;
      }
      if selectors <= curr {
        r := ProcessFilterDone();
        return;
      }
      if env.passesProcess(curr) {
        active[curr % 32] := true;
        active[SELECTORS_ACTIVE] := true;
        selPass := true;
      }
      curr := curr + 1;
      if curr > selectors {
        assert false;
      }
      r := PFILTER_CONTINUE;
    }

    /** Reading one argument; a path argument first leaves for the walk and is stored on return. */
    method GenericReadArg(env: Env, index: nat) returns (leave: bool, errv: int)
      requires index < |env.args|
      modifies this`pathWork
      ensures leave == (env.args[index].offloaded && env.args[index].hasPath && !old(pathWork))
      ensures leave ==> !pathWork
      ensures !leave ==>
                errv == if env.args[index].offloaded && !env.args[index].hasPath then 0 else env.args[index].size
      ensures !leave ==> pathWork == (old(pathWork) && !env.args[index].offloaded)
    {
      var arg := env.args[index];
      errv := 0;
      leave := false;
      if arg.offloaded {
        if !pathWork {
          if !arg.hasPath {
            return false, 0;
          }
          return true, 0;
        }
        pathWork := false;
        if !arg.hasPath {
          return false, 0;
        }
      }
      errv := arg.size;
    }

    method GenericProcessEvent(env: Env) returns (next: Prog)
      requires Valid() && env.Valid() && indexProcess < |env.args|
      requires pathWork ==> env.args[indexProcess].Walks() && size < MAX_TOTAL
      modifies this`pathWork, this`size, this`indexProcess
      ensures Valid() && (next != END(Dropped) && next != PATH ==> !pathWork)
      ensures var arg := env.args[old(indexProcess)];
              var bytes := if arg.offloaded && !arg.hasPath then 0 else arg.size;
              if old(size) < MAX_TOTAL && arg.offloaded && arg.hasPath && !old(pathWork) then
                next == PATH && indexProcess == old(indexProcess) && size == old(size) && !pathWork
              else if old(size) < MAX_TOTAL && bytes < 0 then next == END(Dropped)
              else
                && size == old(size) + (if old(size) < MAX_TOTAL then bytes else 0)
                && (if old(indexProcess) + 1 < |env.args|
                    then next == PROCESS && indexProcess == old(indexProcess) + 1
                    else next == ARGS)
    {
      var index := indexProcess;
      var total := size;
      if total < MAX_TOTAL {
        var leave, errv := GenericReadArg(env, index);
        if leave {
          return PATH;
        }
        if errv > 0 {
          total := total + errv;
        }
        if errv < 0 {
          return END(Dropped);
        }
      }
      size := total;
      if index < 4 && index + 1 < |env.args| {
        indexProcess := index + 1;
        return PROCESS;
      }
      indexProcess := 0;
      next := ARGS;
    }

    method GenericSetup(env: Env) returns (next: Prog)
      modifies this`size
      ensures size == 0 && next == if env.args == [] then ARGS else PROCESS
    {
      size := 0;
      if env.args == [] {
        return ARGS;
      }
      next := PROCESS;
    }

    /** The path walk, seen from the pipeline: a counter and the call at which it resolves. */
    method GenericPath(env: Env) returns (next: Prog)
      requires indexProcess < |env.args| && (pathWork ==> pathCnt < Offload.GENERIC_PATH_CALLS)
      modifies this`pathWork, this`pathCnt
      ensures pathWork
      ensures if !old(pathWork) then next == PATH && pathCnt == 0
              else pathCnt == old(pathCnt) + 1
                   && next == (if || pathCnt >= env.args[indexProcess].resolvedAfter
                                  || pathCnt == Offload.GENERIC_PATH_CALLS
                               then PROCESS else PATH)
    {
      if !pathWork {
        pathCnt := 0;
        pathWork := true;
        return PATH;
      }
      pathCnt := pathCnt + 1;
      if pathCnt >= env.args[indexProcess].resolvedAfter || pathCnt == Offload.GENERIC_PATH_CALLS {
        return PROCESS;
      }
      next := PATH;
    }

    method FilterArgs(env: Env, selidx: nat) returns (r: int)
      requires Valid() && selidx <= MAX_SELECTORS && env.hasFilter
      ensures r == if !active[SELECTORS_ACTIVE] then 1
                   else if active[selidx] then env.passesArgs(selidx) else 0
    {
      if !active[SELECTORS_ACTIVE] {
        return 1;
      }
      if active[selidx] {
        var p := env.passesArgs(selidx);
        if p != 0 {
          return p;
        }
      }
      r := 0;
    }

    /** The next marked selector after `selidx`, or 6: the fall-through chain of comparisons. */
    method NextSelidx(selidx: nat) returns (idx: nat)
      requires Valid() && selidx <= MAX_SELECTORS
      ensures selidx < idx <= MAX_SELECTORS + 1
      ensures forall j :: selidx < j < idx ==> !active[j]
      ensures idx <= MAX_SELECTORS ==> active[idx]
    {
      idx := selidx + 1;
      if idx == 1 {
        if active[idx] { return; }
        idx := idx + 1;
      }
      if idx == 2 {
        if active[idx] { return; }
        idx := idx + 1;
      }
      if idx == 3 {
        if active[idx] { return; }
        idx := idx + 1;
      }
      if idx == 4 {
        if active[idx] { return; }
        idx := idx + 1;
      }
      if idx == 5 {
        if active[idx] { return; }
        idx := idx + 1;
      }
    }

    /** After a selector that does not match, the search goes on at the next marked one. */
    lemma NextSearched(env: Env, i: nat, j: nat)
      requires Marked(env, env.Reach()) && env.selectors > 0
      requires i < j <= MAX_SELECTORS + 1 && !(i < env.Reach() && env.Matches(i))
      requires forall k :: i < k < j ==> !active[k]
      requires j <= MAX_SELECTORS ==> active[j]
      ensures Searching(env, i) == if j <= MAX_SELECTORS then 1 + Searching(env, j) else 0
      ensures forall k :: i < k < j && k < env.Reach() ==> !env.Matches(k)
    {
      forall k | i < k < j
        ensures !(k < env.Reach() && env.passesProcess(k))
      {
        assert !active[k];
      }
      NextPassIs(env, i + 1, j);
    }

    method GenericFilterArg(env: Env) returns (next: Prog)
      requires env.hasFilter && Marked(env, env.Reach())
      requires env.selectors > 0 <==> active[SELECTORS_ACTIVE]
      requires forall j :: 0 <= j < indexSelector && j < env.Reach() ==> !env.Matches(j)
      modifies this`indexSelector, this`pass
      ensures Marked(env, env.Reach())
      ensures Searching(env, old(indexSelector))
              == if next == ARGS then 1 + Searching(env, indexSelector)
                 else if next == SEND then 1
                 else if next == ACTIONS then if env.postit(pass) then 2 else 1
                 else 0
      ensures next == ARGS ==>
                && indexSelector > old(indexSelector) && active[indexSelector]
                && (forall j :: old(indexSelector) < j < indexSelector ==> !active[j])
                && (forall j :: 0 <= j < indexSelector && j < env.Reach() ==> !env.Matches(j))
      ensures next == ARGS || next == ACTIONS || next == SEND || next == END(Dropped)
      ensures next == SEND || next == ACTIONS ==>
                var i := old(indexSelector);
                if env.selectors == 0 then next == SEND
                else
                  && i < env.Reach() && FirstMatch(env, 0) == Some(i)
                  && (next == ACTIONS <==> env.passesArgs(i) > 1)
                  && (next == ACTIONS ==> pass == env.passesArgs(i))
      ensures next == END(Dropped) ==> env.selectors > 0 && FirstMatch(env, 0) == None
    {
      var selidx := indexSelector;
      FirstMatchIsLeast(env, 0);
      var p := FilterArgs(env, selidx);
      if p == 0 {
        selidx := NextSelidx(selidx);
        NextSearched(env, indexSelector, selidx);
        if selidx <= MAX_SELECTORS {
          indexSelector := selidx;
          return ARGS;
        }
        return END(Dropped);
      }
      if env.selectors > 0 {
        assert env.Matches(selidx);
      }
      if p > 1 {
        pass := p;
        return ACTIONS;
      }
      next := SEND;
    }

    method GenericActions(env: Env) returns (next: Prog)
      requires pass > 1
      ensures next == if env.postit(pass) then SEND else END(Dropped)
    {
      if env.postit(pass) {
        return SEND;
      }
      next := END(Dropped);
    }

    ghost function Left(env: Env, pc: Prog): int
      reads this
    {
      Remaining(env, pc, curr, indexProcess, size, pathWork, pathCnt, indexSelector, pass)
    }

    /** A step from `pc`: the phase invariant holds again, and exactly one of the calls to come was made. */
    twostate predicate Stepped(env: Env, pc: Prog, next: Prog)
      reads this, active
    {
      && Valid()
      && PhaseOk(env, next, if next == ACTIONS then pass else 1)
      && (next == ACTIONS ==> pc == ARGS)
      && old(Left(env, pc)) == if next.END? then 0 else Left(env, next) + 1
    }

    method OnFilter(env: Env) returns (next: Prog)
      requires Valid() && PhaseOk(env, FILTER, 1)
      modifies this, active
      ensures Stepped(env, FILTER, next)
    {
      var r := GenericProcessFilter(env);
      next := if r == PFILTER_CONTINUE then FILTER
              else if r == PFILTER_ACCEPT then SETUP
              else END(Dropped);
    }

    method OnSetup(env: Env) returns (next: Prog)
      requires Valid() && PhaseOk(env, SETUP, 1) && env.Valid()
      modifies this
      ensures Stepped(env, SETUP, next)
    {
      next := GenericSetup(env);
    }

    method OnProcess(env: Env) returns (next: Prog)
      requires Valid() && PhaseOk(env, PROCESS, 1) && env.Valid()
      modifies this
      ensures Stepped(env, PROCESS, next)
    {
      ghost var p, total := indexProcess, size;
      ghost var used := if total < MAX_TOTAL then total + env.args[p].Read() else total;
      assert AfterRead(env, p, total) ==
             if total < MAX_TOTAL && env.args[p].Read() < 0 then 0
             else 1 + if p + 1 < |env.args| then Reading(env, p + 1, used) else Searching(env, 0);
      next := GenericProcessEvent(env);
      assert next == ARGS ==> !ReadFails(env.args, p + 1, size);
    }

    method OnPath(env: Env) returns (next: Prog)
      requires Valid() && PhaseOk(env, PATH, 1) && env.Valid()
      modifies this
      ensures Stepped(env, PATH, next)
    {
      next := GenericPath(env);
    }

    method OnArgs(env: Env) returns (next: Prog)
      requires Valid() && PhaseOk(env, ARGS, 1)
      modifies this
      ensures Stepped(env, ARGS, next)
    {
      next := GenericFilterArg(env);
    }

    /** Runs program `pc`; `action` is the offset that the actions program was given, or 1. */
    method Step(env: Env, pc: Prog, action: int) returns (next: Prog, action': int)
      requires Valid() && env.Valid() && !pc.END? && PhaseOk(env, pc, action)
      requires pc == ACTIONS || pc == SEND || action == 1
      modifies this, active
      ensures Valid() && PhaseOk(env, next, action')
      ensures next == ACTIONS || next == SEND || next.END? || action' == 1
      ensures old(Left(env, pc)) == if next.END? then 0 else Left(env, next) + 1
    {
      action' := action;
      match pc
      case FILTER => next := OnFilter(env);
      case SETUP => next := OnSetup(env);
      case PROCESS => next := OnProcess(env);
      case PATH => next := OnPath(env);
      case ARGS =>
        next := OnArgs(env);
        if next == ACTIONS {
          action' := pass;
        }
      case ACTIONS => next := GenericActions(env);
      case SEND => next := END(Posted(action));
    }

    /**
     The whole machine.  Its two resumable loops decide what the direct search decides, in exactly
     `TailCalls` tail calls, which is at most 21 plus 10 for each argument that is walked.  An event that
     is sent has the size of the arguments read.
     */
    method Run(env: Env) returns (verdict: Verdict, calls: nat)
      requires Valid() && env.Valid()
      modifies this, active
      ensures verdict == DirectSearch(env)
      ensures verdict.Posted? ==> SumsRead(env.args, |env.args|, size)
      ensures calls == TailCalls(env) <= 21 + 10 * Walking(env.args, 0)
    {
      TailCallsBound(env);
      var pc := StartProcessFilter(env);
      calls := if pc == FILTER then 1 else 0;
      var action := 1;
      while !pc.END?
        invariant Valid() && PhaseOk(env, pc, action)
        invariant pc == ACTIONS || pc == SEND || pc.END? || action == 1
        invariant calls + (if pc.END? then 0 else Left(env, pc)) == TailCalls(env)
        decreases if pc.END? then 0 else 1 + Left(env, pc)
      {
        PhaseMeasure(env, pc, action);
        pc, action := Step(env, pc, action);
        if !pc.END? {
          calls := calls + 1;
        }
      }
      verdict := pc.verdict;
      UsedSums(env.args, |env.args|);
    }

    lemma PhaseMeasure(env: Env, pc: Prog, action: int)
      requires Valid() && env.Valid() && PhaseOk(env, pc, action)
      ensures Left(env, pc) >= 0
    {
    }

    ghost predicate Accepted(env: Env)
      reads this, active
    {
      && env.configured && env.policyOk && env.processFound && env.hasFilter
      && Marked(env, env.Reach())
      && (env.selectors > 0 <==> active[SELECTORS_ACTIVE])
    }

    /** What the shared message holds whenever program `pc` is about to run. */
    ghost predicate PhaseOk(env: Env, pc: Prog, action: int)
      reads this, active
    {
      match pc
      case FILTER =>
        && env.configured && env.policyOk
        && curr <= env.Reach() && Marked(env, curr) && (selPass <==> active[SELECTORS_ACTIVE])
        && indexProcess == 0 && indexSelector == 0 && !pathWork
      case SETUP =>
        Accepted(env) && indexProcess == 0 && indexSelector == 0 && !pathWork
      case PROCESS =>
        && Accepted(env) && indexProcess < |env.args| && indexSelector == 0
        && ReadFails(env.args, 0, 0) == ReadFails(env.args, indexProcess, size)
        && size == Used(env.args, indexProcess)
        && (pathWork ==> env.args[indexProcess].Walks() && size < MAX_TOTAL)
      case PATH =>
        && Accepted(env) && indexProcess < |env.args| && indexSelector == 0
        && ReadFails(env.args, 0, 0) == ReadFails(env.args, indexProcess, size)
        && size == Used(env.args, indexProcess)
        && env.args[indexProcess].Walks() && size < MAX_TOTAL
        && (pathWork ==> pathCnt < WorkCalls(env.args[indexProcess]))
      case ARGS =>
        && Accepted(env) && !ReadFails(env.args, 0, 0) && size == Used(env.args, |env.args|)
        && (forall j :: 0 <= j < indexSelector && j < env.Reach() ==> !env.Matches(j))
      case ACTIONS =>
        && Accepted(env) && !ReadFails(env.args, 0, 0) && env.selectors > 0 && size == Used(env.args, |env.args|)
        && FirstMatch(env, 0).Some? && pass == env.passesArgs(FirstMatch(env, 0).value)
        && action == pass > 1
      case SEND =>
        DirectSearch(env) == Posted(action) && size == Used(env.args, |env.args|)
      case END(verdict) =>
        verdict == DirectSearch(env) && (verdict.Posted? ==> size == Used(env.args, |env.args|))
    }
  }
}
