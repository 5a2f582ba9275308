/**
 The START/STOP throttle protocol of the agent (pkg/cgrouprate/cgrouprate.go): which cgroups are
 being watched, and what the listener is told about them.
 */
module ThrottleProtocol {
  import opened Common

  type CgroupId = nat

  /** aliveCnt seconds, in nanoseconds. */
  const ALIVE: nat := 5_000_000_000

  /** cleanupInterval and cleanupInactiveTime, a minute each. */
  const CLEANUP_INTERVAL: nat := 60_000_000_000
  const CLEANUP_INACTIVE: nat := 60_000_000_000

  datatype CpuValue = CpuValue(time: nat, rate: nat, throttled: nat)

  /** What happens to a cgroup: the two notifications, and being dropped because its entry is gone. */
  datatype Notice =
    | Start(id: CgroupId, name: string, ktime: nat)
    | Stop(id: CgroupId, name: string, ktime: nat, seen: seq<CpuValue>)
    | Lost(id: CgroupId)

  /** The CPU is silent long enough, or its rate is fine and it has paused long enough. */
  predicate Quiet(v: CpuValue, last: nat, events: nat)
  {
    || last > (v.time + ALIVE) % U64
    || (v.rate < events && last > (v.throttled + ALIVE) % U64)
  }

  predicate AllQuiet(values: seq<CpuValue>, last: nat, events: nat)
  {
    forall i | 0 <= i < |values| :: Quiet(values[i], last, events)
  }

  /** The reading of a 64-bit word as a signed number. */
  function S64(x: int): (r: int)
    ensures -U64 / 2 <= r < U64 / 2 && (r - x) % U64 == 0
    ensures -U64 / 2 <= x < U64 / 2 ==> r == x
  {
    (x + U64 / 2) % U64 - U64 / 2
  }

  /** Every CPU has been silent for longer than the cleanup allows. */
  predicate Idle(values: seq<CpuValue>, curr: nat)
  {
    forall i | 0 <= i < |values| :: S64(S64(values[i].time) + CLEANUP_INACTIVE) <= curr
  }

  /** The time `d` after `t` on a clock of 64 bits. */
  function Clock(t: nat, d: nat): int
  {
    if t + d < U64 then t + d else t + d - U64
  }

  /**
   What keeps a STOP away: some CPU had an event in the last five seconds and is at its limit or was
   throttled in the last five seconds.
   */
  lemma QuietMeans(values: seq<CpuValue>, last: nat, events: nat)
    requires forall i :: 0 <= i < |values| ==> values[i].time < U64 && values[i].throttled < U64
    ensures !AllQuiet(values, last, events) <==>
              exists i :: 0 <= i < |values| && last <= Clock(values[i].time, 5_000_000_000)
                && (values[i].rate >= events || last <= Clock(values[i].throttled, 5_000_000_000))
  {
    forall i | 0 <= i < |values|
      ensures Quiet(values[i], last, events) <==>
                || last > Clock(values[i].time, 5_000_000_000)
                || (values[i].rate < events && last > Clock(values[i].throttled, 5_000_000_000))
    {
    }
  }

  /** The signed time `d` after the unsigned word `t`. */
  function SignedClock(t: nat, d: nat): int
  {
    var signed := if t < U64 / 2 then t else t - U64;
    if signed + d < U64 / 2 then signed + d else signed + d - U64
  }

  /** An entry is idle when every CPU has been silent for a minute, times being read as signed words. */
  lemma IdleMeans(values: seq<CpuValue>, curr: nat)
    requires forall i :: 0 <= i < |values| ==> values[i].time < U64
    ensures Idle(values, curr)
            <==> forall i :: 0 <= i < |values| ==> SignedClock(values[i].time, 60_000_000_000) <= curr
  {
    forall i | 0 <= i < |values|
      ensures S64(S64(values[i].time) + CLEANUP_INACTIVE) == SignedClock(values[i].time, 60_000_000_000)
    {
    }
  }

  /** As long as no time is near the end of the clock, what is idle is quiet. */
  lemma IdleIsQuiet(values: seq<CpuValue>, curr: nat, events: nat)
    requires Idle(values, curr) && forall i :: 0 <= i < |values| ==> values[i].time + CLEANUP_INACTIVE < U64 / 2
    ensures AllQuiet(values, curr, events)
  {
    forall i | 0 <= i < |values|
      ensures Quiet(values[i], curr, events)
    {
      assert S64(S64(values[i].time) + CLEANUP_INACTIVE) == values[i].time + CLEANUP_INACTIVE;
    }
  }

  function Cleared(values: seq<CpuValue>): (r: seq<CpuValue>)
    ensures |r| == |values|
    ensures forall i :: 0 <= i < |r| ==> r[i] == values[i].(throttled := 0)
  {
    seq(|values|, i requires 0 <= i < |values| => values[i].(throttled := 0))
  }

  // ---------------------------------------------------------------- well-formed logs

  /**
   Reads a log as the protocol for one cgroup: Some(true) while a START is open, Some(false)
   while none is, None once a START came while open or a removal while closed.
   */
  function Open(log: seq<Notice>, id: CgroupId): Option<bool>
  {
    if log == [] then Some(false)
    else
      var before := Open(log[..|log| - 1], id);
      var n := log[|log| - 1];
      if before.None? || n.id != id then before
      else if n.Start? == before.value then None
      else Some(n.Start?)
  }

  /** The entries of one cgroup, in order. */
  function Own(log: seq<Notice>, id: CgroupId): seq<Notice>
  {
    if log == [] then []
    else
      var n := log[|log| - 1];
      Own(log[..|log| - 1], id) + if n.id == id then [n] else []
  }

  /** START first, then a removal, then START again: no STOP without an open START, and so on. */
  ghost predicate Alternates(own: seq<Notice>)
  {
    forall k :: 0 <= k < |own| ==> (own[k].Start? <==> k % 2 == 0)
  }

  /**
   What a readable log means.  The entries of the cgroup strictly alternate between STARTs and
   removals, so that between two STARTs there is exactly one removal and every STOP answers an
   open START; and an odd number of them means that a START is open.
   */
  lemma {:induction false} ReadableMeansAlternating(log: seq<Notice>, id: CgroupId)
    ensures Open(log, id).Some? <==> Alternates(Own(log, id))
    ensures Open(log, id).Some? ==> Open(log, id).value == (|Own(log, id)| % 2 == 1)
  {
    if log != [] {
      var init, n := log[..|log| - 1], log[|log| - 1];
      ReadableMeansAlternating(init, id);
      var own, before := Own(log, id), Own(init, id);
      if n.id == id {
        assert own == before + [n];
        assert Alternates(own) ==> Alternates(before) by {
          forall k | 0 <= k < |before| && Alternates(own)
            ensures before[k].Start? <==> k % 2 == 0
          {
            assert own[k] == before[k];
          }
        }
        assert own[|before|] == n;
      } else {
        assert own == before;
      }
    }
  }

  /** One more entry: how the log of each cgroup reads, and what it holds. */
  lemma Appended(before: seq<Notice>, n: Notice, id: CgroupId)
    ensures Own(before + [n], id) == Own(before, id) + if n.id == id then [n] else []
    ensures Open(before, id).Some? ==>
              Open(before + [n], id) == if n.id != id then Open(before, id)
                                        else if n.Start? == Open(before, id).value then None
                                        else Some(n.Start?)
  {
    assert (before + [n])[..|before + [n]| - 1] == before;
  }

  // ---------------------------------------------------------------- what a round does

  /** One round of the agent's loop; the kernel may change the hash in any way before a tick. */
  datatype Op =
    | Check(id: CgroupId, name: string, ktime: nat)
    | Tick(hash: Option<map<CgroupId, seq<CpuValue>>>, last: Option<nat>,
           putOk: CgroupId -> bool, deleteOk: CgroupId -> bool)

  /** What the agent knows: the watched cgroups, the hash it shares with the kernel, the last cleanup. */
  datatype Agent = Agent(cgroups: map<CgroupId, string>, hash: map<CgroupId, seq<CpuValue>>, cleanup: nat)

  /** Whether a watched cgroup is to be removed at time `last`. */
  predicate Over(h: map<CgroupId, seq<CpuValue>>, id: CgroupId, last: nat, events: nat)
  {
    id !in h || AllQuiet(h[id], last, events)
  }

  /** What a tick leaves of one hash entry. */
  function Ticked(values: seq<CpuValue>, watched: bool, last: nat, put: bool, events: nat): seq<CpuValue>
  {
    if watched && put && AllQuiet(values, last, events) then Cleared(values) else values
  }

  /** Clearing the marks does not touch the times. */
  lemma TickedIdle(values: seq<CpuValue>, watched: bool, last: nat, put: bool, events: nat)
    ensures Idle(Ticked(values, watched, last, put, events), last) == Idle(values, last)
  {
    var ticked := Ticked(values, watched, last, put, events);
    assert forall i :: 0 <= i < |values| ==> ticked[i].time == values[i].time;
  }

  /** Whether a cleanup is due: not on the first tick, and once in an interval. */
  predicate CleanupDue(cleanup: nat, curr: nat)
  {
    cleanup != 0 && curr - cleanup >= CLEANUP_INTERVAL
  }

  predicate Swept(h: map<CgroupId, seq<CpuValue>>, id: CgroupId, curr: nat, deleteOk: CgroupId -> bool)
  {
    id in h && Idle(h[id], curr) && deleteOk(id)
  }

  /** What the listener hears of a cgroup that is removed. */
  function Removal(cgroups: map<CgroupId, string>, h: map<CgroupId, seq<CpuValue>>, id: CgroupId, last: nat): Notice
    requires id in cgroups
  {
    if id in h then Stop(id, cgroups[id], last, h[id]) else Lost(id)
  }

  /** The hash once a tick has dealt with the cgroups in `done`. */
  ghost predicate Marked(h0: map<CgroupId, seq<CpuValue>>, h: map<CgroupId, seq<CpuValue>>, done: set<CgroupId>,
                         last: nat, putOk: CgroupId -> bool, events: nat)
  {
    && h.Keys == h0.Keys
    && forall id :: id in h ==> h[id] == Ticked(h0[id], id in done, last, putOk(id), events)
  }

  lemma MarkedNext(h0: map<CgroupId, seq<CpuValue>>, h: map<CgroupId, seq<CpuValue>>,
                   h': map<CgroupId, seq<CpuValue>>, done: set<CgroupId>, id: CgroupId,
                   last: nat, putOk: CgroupId -> bool, events: nat)
    requires Marked(h0, h, done, last, putOk, events) && id !in done
    requires h' == if id in h && Over(h, id, last, events) && putOk(id) then h[id := Cleared(h[id])] else h
    ensures Marked(h0, h', done + {id}, last, putOk, events)
  {
  }

  /** The log once a tick has dealt with the cgroups in `done`: one notice for each that is over. */
  ghost predicate Told(cgroups: map<CgroupId, string>, h0: map<CgroupId, seq<CpuValue>>, l0: seq<Notice>,
                       log: seq<Notice>, done: set<CgroupId>, last: nat, events: nat)
  {
    && l0 <= log
    && (forall n :: n in log && n.Stop? ==> AllQuiet(n.seen, n.ktime, events))
    && forall id :: Own(log, id) == Own(l0, id) +
         if id in cgroups && id in done && Over(h0, id, last, events) then [Removal(cgroups, h0, id, last)] else []
  }

  lemma ToldNext(cgroups: map<CgroupId, string>, h0: map<CgroupId, seq<CpuValue>>, l0: seq<Notice>,
                 log: seq<Notice>, log': seq<Notice>, done: set<CgroupId>, id: CgroupId, last: nat, events: nat)
    requires Told(cgroups, h0, l0, log, done, last, events) && id in cgroups && id !in done
    requires log' == log + if Over(h0, id, last, events) then [Removal(cgroups, h0, id, last)] else []
    ensures Told(cgroups, h0, l0, log', done + {id}, last, events)
  {
    if Over(h0, id, last, events) {
      forall i {
        Appended(log, Removal(cgroups, h0, id, last), i);
      }
    } else {
      assert log' == log;
    }
  }

  /** Once every watched cgroup is dealt with and those that are over are dropped, the log is in order. */
  lemma ToldKeepsOrder(cgroups: map<CgroupId, string>, h0: map<CgroupId, seq<CpuValue>>, l0: seq<Notice>,
                       log: seq<Notice>, last: nat, id: CgroupId, events: nat)
    requires Told(cgroups, h0, l0, log, cgroups.Keys, last, events) && Open(l0, id) == Some(id in cgroups)
    ensures Open(log, id) == Some(id in cgroups && !Over(h0, id, last, events))
  {
    ReadableMeansAlternating(l0, id);
    ReadableMeansAlternating(log, id);
    var own := Own(l0, id);
    if id in cgroups && Over(h0, id, last, events) {
      AlternatesNext(own, Removal(cgroups, h0, id, last));
    } else {
      assert own + [] == own;
    }
  }

  lemma AlternatesNext(own: seq<Notice>, n: Notice)
    requires Alternates(own) && (n.Start? <==> |own| % 2 == 0)
    ensures Alternates(own + [n])
  {
    assert forall k :: 0 <= k < |own| ==> (own + [n])[k] == own[k];
  }

  /** The hash after a cleanup, if one is due. */
  ghost predicate Cleaned(h: map<CgroupId, seq<CpuValue>>, h': map<CgroupId, seq<CpuValue>>, due: bool, curr: nat,
                          deleteOk: CgroupId -> bool)
  {
    && (forall id :: id in h' <==> id in h && !(due && Swept(h, id, curr, deleteOk)))
    && forall id :: id in h' ==> h'[id] == h[id]
  }

  /** The cgroups that stay watched. */
  function Kept(cgroups: map<CgroupId, string>, h: map<CgroupId, seq<CpuValue>>, last: nat, events: nat)
    : map<CgroupId, string>
  {
    map id | id in cgroups && !Over(h, id, last, events) :: cgroups[id]
  }

  lemma InOrder(cgroups: map<CgroupId, string>, h0: map<CgroupId, seq<CpuValue>>, l0: seq<Notice>,
                log: seq<Notice>, remove: set<CgroupId>, last: nat, events: nat)
    requires Told(cgroups, h0, l0, log, cgroups.Keys, last, events)
    requires forall id :: Open(l0, id) == Some(id in cgroups)
    requires forall id :: id in remove <==> id in cgroups && Over(h0, id, last, events)
    ensures cgroups - remove == Kept(cgroups, h0, last, events)
    ensures forall id :: Open(log, id) == Some(id in Kept(cgroups, h0, last, events))
  {
    forall id
      ensures Open(log, id) == Some(id in Kept(cgroups, h0, last, events))
    {
      ToldKeepsOrder(cgroups, h0, l0, log, last, id, events);
    }
  }

  /** The agent after a tick at time `last` that found `h` in the hash. */
  function Ticking(a: Agent, h: map<CgroupId, seq<CpuValue>>, last: nat,
                   putOk: CgroupId -> bool, deleteOk: CgroupId -> bool, events: nat): Agent
  {
    Agent(Kept(a.cgroups, h, last, events),
          map id | id in h && !(CleanupDue(a.cleanup, last) && Swept(h, id, last, deleteOk)) ::
            Ticked(h[id], id in a.cgroups, last, putOk(id), events),
          if a.cleanup == 0 || CleanupDue(a.cleanup, last) then last else a.cleanup)
  }

  /** Marking and then cleaning up is what a tick does: the marks do not decide what is idle. */
  lemma TickIs(a: Agent, h: map<CgroupId, seq<CpuValue>>, ticked: map<CgroupId, seq<CpuValue>>,
               h': map<CgroupId, seq<CpuValue>>, last: nat, putOk: CgroupId -> bool, deleteOk: CgroupId -> bool,
               events: nat)
    requires Marked(h, ticked, a.cgroups.Keys, last, putOk, events)
    requires Cleaned(ticked, h', CleanupDue(a.cleanup, last), last, deleteOk)
    ensures h' == Ticking(a, h, last, putOk, deleteOk, events).hash
  {
    forall id | id in h
      ensures Swept(ticked, id, last, deleteOk) == Swept(h, id, last, deleteOk)
    {
      TickedIdle(h[id], id in a.cgroups, last, putOk(id), events);
    }
  }

  /** The agent after one round. */
  function Round(a: Agent, op: Op, events: nat): Agent
  {
    match op
    case Check(id, name, _) => if id in a.cgroups then a else a.(cgroups := a.cgroups[id := name])
    case Tick(h, last, putOk, deleteOk) =>
      if h.Some? && last.Some? then Ticking(a, h.value, last.value, putOk, deleteOk, events) else a
  }

  /** What one round says of one cgroup. */
  function Notices(a: Agent, op: Op, id: CgroupId, events: nat): seq<Notice>
  {
    match op
    case Check(i, name, ktime) => if i == id && id !in a.cgroups then [Start(id, name, ktime)] else []
    case Tick(h, last, _, _) =>
      if h.Some? && last.Some? && id in a.cgroups && Over(h.value, id, last.value, events)
      then [Removal(a.cgroups, h.value, id, last.value)]
      else []
  }

  /** The agent after any number of rounds. */
  function Rounds(a: Agent, ops: seq<Op>, events: nat): Agent
  {
    if ops == [] then a else Round(Rounds(a, ops[..|ops| - 1], events), ops[|ops| - 1], events)
  }

  /** What they say of one cgroup. */
  function Said(a: Agent, ops: seq<Op>, id: CgroupId, events: nat): seq<Notice>
  {
    if ops == [] then []
    else
      var init := ops[..|ops| - 1];
      Said(a, init, id, events) + Notices(Rounds(a, init, events), ops[|ops| - 1], id, events)
  }

  /** A tick at which a watched cgroup is removed: its entry is gone, or every CPU is quiet. */
  predicate Removes(op: Op, id: CgroupId, events: nat)
  {
    && op.Tick? && op.hash.Some? && op.last.Some?
    && (id in op.hash.value ==> AllQuiet(op.hash.value[id], op.last.value, events))
  }

  /** The cgroup is watched at the start, or checked in round k - 1; and no round from k on removes it. */
  ghost predicate WatchedSince(a: Agent, ops: seq<Op>, k: nat, id: CgroupId, events: nat)
    requires k <= |ops|
  {
    && (if k == 0 then id in a.cgroups else ops[k - 1].Check? && ops[k - 1].id == id)
    && forall j :: k <= j < |ops| ==> !Removes(ops[j], id, events)
  }

  /** Which cgroups are watched after a run: those checked, or there at the start, and over at no tick since. */
  lemma {:induction false} WatchedExactly(a: Agent, ops: seq<Op>, id: CgroupId, events: nat)
    ensures id in Rounds(a, ops, events).cgroups <==>
              exists k: nat :: k <= |ops| && WatchedSince(a, ops, k, id, events)
  {
    if ops == [] {
      assert WatchedSince(a, ops, 0, id, events) <==> id in a.cgroups;
    } else {
      var init, op := ops[..|ops| - 1], ops[|ops| - 1];
      WatchedExactly(a, init, id, events);
      assert WatchedSince(a, ops, |ops|, id, events) <==> op.Check? && op.id == id;
      forall k: nat | k < |ops|
        ensures WatchedSince(a, ops, k, id, events) <==>
                  WatchedSince(a, init, k, id, events) && !Removes(op, id, events)
      {
        assert ops == init + [op];
      }
    }
  }

  /** Every STOP has the name of the START before it, and so has the cgroup while it is watched. */
  ghost predicate NamedAlike(start: map<CgroupId, string>, said: seq<Notice>, end: map<CgroupId, string>, id: CgroupId)
  {
    && (forall k :: 0 < k < |said| && said[k].Stop? ==> said[k - 1].Start? && said[k].name == said[k - 1].name)
    && (said != [] && said[0].Stop? ==> id in start && said[0].name == start[id])
    && (id in end ==>
          if said == [] then id in start && end[id] == start[id]
          else said[|said| - 1].Start? && said[|said| - 1].name == end[id])
  }

  lemma NamedAlikeNext(start: map<CgroupId, string>, said: seq<Notice>, a: Agent, op: Op, id: CgroupId, events: nat)
    requires NamedAlike(start, said, a.cgroups, id)
    ensures NamedAlike(start, said + Notices(a, op, id, events), Round(a, op, events).cgroups, id)
  {
    var notices, cgroups := Notices(a, op, id, events), Round(a, op, events).cgroups;
    assert notices == [] ==> (id in cgroups <==> id in a.cgroups) && (id in cgroups ==> cgroups[id] == a.cgroups[id]);
    assert |notices| <= 1 && (notices != [] ==> (notices[0].Start? <==> id !in a.cgroups));
    if notices == [] {
      assert said + notices == said;
    } else {
      OneNotice(start, said, a.cgroups, notices[0], cgroups, id);
      assert notices == [notices[0]];
    }
  }

  /** A START of what is not watched, with the name it then has, or a removal of what is, under its name. */
  lemma OneNotice(start: map<CgroupId, string>, said: seq<Notice>, before: map<CgroupId, string>, n: Notice,
                  after: map<CgroupId, string>, id: CgroupId)
    requires NamedAlike(start, said, before, id)
    requires if id in before then !n.Start? && id !in after && (n.Stop? ==> n.name == before[id])
             else n.Start? && id in after && n.name == after[id]
    ensures NamedAlike(start, said + [n], after, id)
  {
    var more := said + [n];
    assert forall k :: 0 <= k < |said| ==> more[k] == said[k];
    assert more[|said|] == n;
  }

  /** What is said of a cgroup over a run names it alike. */
  lemma {:induction false} StopsNameTheirStart(a: Agent, ops: seq<Op>, id: CgroupId, events: nat)
    ensures NamedAlike(a.cgroups, Said(a, ops, id, events), Rounds(a, ops, events).cgroups, id)
  {
    if ops != [] {
      var init := ops[..|ops| - 1];
      StopsNameTheirStart(a, init, id, events);
      NamedAlikeNext(a.cgroups, Said(a, init, id, events), Rounds(a, init, events), ops[|ops| - 1], id, events);
    }
  }

  // ---------------------------------------------------------------- the agent

  class CgroupRate {
    const events: nat
    var cgroups: map<CgroupId, string>
    var hash: map<CgroupId, seq<CpuValue>>
    var cleanup: nat
    var log: seq<Notice>

    /** The log is well-formed, the open cgroups are those watched, and every STOP was earned. */
    ghost predicate Valid()
      reads this
    {
      && (forall id :: Open(log, id) == Some(id in cgroups))
      && (forall n :: n in log && n.Stop? ==> AllQuiet(n.seen, n.ktime, events))
    }

    /** What the agent knows. */
    ghost function Knows(): Agent
      reads this
    {
      Agent(cgroups, hash, cleanup)
    }

    constructor (events: nat)
      ensures Valid() && log == [] && Knows() == Agent(map[], map[], 0) && this.events == events
    {
      this.events := events;
      cgroups, hash, cleanup, log := map[], map[], 0, [];
    }

    method UpdateCgroups(id: CgroupId, name: string, ktime: nat)
      requires Valid()
      modifies this`cgroups, this`log
      ensures Valid()
      ensures id in old(cgroups) ==> cgroups == old(cgroups) && log == old(log)
      ensures id !in old(cgroups) ==>
                cgroups == old(cgroups)[id := name] && log == old(log) + [Start(id, name, ktime)]
    {
      if id in cgroups {
        return;
      }
      cgroups := cgroups[id := name];
      log := log + [Start(id, name, ktime)];
      forall i {
        Appended(old(log), Start(id, name, ktime), i);
      }
    }

    /**
     Checks one cgroup.  A STOP is sent only when every CPU is quiet; the throttle marks are then
     written back as zero, unless that write fails.
     */
    method ProcessCgroup(id: CgroupId, cgroup: string, last: nat, putOk: CgroupId -> bool) returns (remove: bool)
      modifies this`hash, this`log
      ensures remove <==> id !in old(hash) || AllQuiet(old(hash)[id], last, events)
      ensures hash == if id in old(hash) && remove && putOk(id)
                      then old(hash)[id := Cleared(old(hash)[id])] else old(hash)
      ensures log == old(log) + if !remove then []
                                else if id in old(hash) then [Stop(id, cgroup, last, old(hash)[id])]
                                else [Lost(id)]
    {
      if id !in hash {
        log := log + [Lost(id)];
        return true;
      }
      var values := hash[id];
      var stop := true;
      var i := 0;
      while i < |values|
        invariant 0 <= i <= |values|
        invariant stop <==> forall j :: 0 <= j < i ==> Quiet(values[j], last, events)
      {
        var v := values[i];
        if !(last > (v.time + ALIVE) % U64) && !(v.rate < events && last > (v.throttled + ALIVE) % U64) {
          stop := false;
        }
        i := i + 1;
      }
      if stop {
        if putOk(id) {
          hash := hash[id := Cleared(values)];
        }
        log := log + [Stop(id, cgroup, last, values)];
        return true;
      }
      remove := false;
    }

    method ProcessNext(id: CgroupId, ghost h0: map<CgroupId, seq<CpuValue>>, ghost l0: seq<Notice>,
                       ghost done: set<CgroupId>, last: nat, putOk: CgroupId -> bool)
      returns (r: bool)
      requires id in cgroups && id !in done
      requires Marked(h0, hash, done, last, putOk, events) && Told(cgroups, h0, l0, log, done, last, events)
      modifies this`hash, this`log
      ensures Marked(h0, hash, done + {id}, last, putOk, events)
      ensures Told(cgroups, h0, l0, log, done + {id}, last, events)
      ensures r == Over(h0, id, last, events)
    {
      assert id in hash <==> id in h0;
      assert id in hash ==> hash[id] == h0[id];
      r := ProcessCgroup(id, cgroups[id], last, putOk);
      MarkedNext(h0, old(hash), hash, done, id, last, putOk, events);
      ToldNext(cgroups, h0, l0, old(log), log, done, id, last, events);
    }

    /** Checks the watched cgroups: exactly those that are over are removed, each with one notice. */
    method ProcessWatched(last: nat, putOk: CgroupId -> bool)
      requires Valid()
      modifies this`cgroups, this`hash, this`log
      ensures Valid()
      ensures cgroups == Kept(old(cgroups), old(hash), last, events)
      ensures Marked(old(hash), hash, old(cgroups).Keys, last, putOk, events)
      ensures Told(old(cgroups), old(hash), old(log), log, old(cgroups).Keys, last, events)
    {
      var remove: set<CgroupId> := {};
      var todo := cgroups.Keys;
      ghost var done: set<CgroupId> := {};
      while todo != {}
        invariant cgroups == old(cgroups) && done == cgroups.Keys - todo && todo <= cgroups.Keys
        invariant forall id :: id in remove <==> id in done && Over(old(hash), id, last, events)
        invariant Marked(old(hash), hash, done, last, putOk, events)
        invariant Told(cgroups, old(hash), old(log), log, done, last, events)
        decreases todo
      {
        var id :| id in todo;
        var over := ProcessNext(id, old(hash), old(log), done, last, putOk);
        if over {
          remove := remove + {id};
        }
        todo, done := todo - {id}, done + {id};
      }
      assert done == cgroups.Keys;
      InOrder(cgroups, old(hash), old(log), log, remove, last, events);
      cgroups := cgroups - remove;
    }

    /** Once in an interval, the entries of idle cgroups are deleted. */
    method CleanupCgroups(curr: nat, deleteOk: CgroupId -> bool)
      modifies this`cleanup, this`hash
      ensures Cleaned(old(hash), hash, CleanupDue(old(cleanup), curr), curr, deleteOk)
      ensures forall id :: id in old(hash) && id !in hash <==>
                && id in old(hash) && Idle(old(hash)[id], curr) && deleteOk(id)
                && old(cleanup) != 0 && curr - old(cleanup) >= 60_000_000_000
      ensures cleanup == if old(cleanup) == 0 || curr - old(cleanup) >= 60_000_000_000 then curr else old(cleanup)
    {
      if cleanup == 0 {
        cleanup := curr;
        return;
      }
      if curr - cleanup < CLEANUP_INTERVAL {
        return;
      }
      cleanup := curr;
      var entries := hash.Keys;
      while entries != {}
        invariant entries <= old(hash).Keys && cleanup == curr
        invariant forall id :: id in hash <==>
                    id in old(hash) && (id in entries || !Swept(old(hash), id, curr, deleteOk))
        invariant forall id :: id in hash ==> hash[id] == old(hash)[id]
        decreases entries
      {
        var key :| key in entries;
        var values := hash[key];
        var remove := true;
        for i := 0 to |values|
          invariant remove <==> forall j :: 0 <= j < i ==> S64(S64(values[j].time) + CLEANUP_INACTIVE) <= curr
        {
          if S64(S64(values[i].time) + CLEANUP_INACTIVE) > curr {
            remove := false;
          }
        }
        if remove && deleteOk(key) {
          hash := hash - {key};
        }
        entries := entries - {key};
      }
    }

    /** One tick: the watched cgroups are checked, then idle entries are cleaned up if it is time. */
    method ProcessCgroups(last: nat, putOk: CgroupId -> bool, deleteOk: CgroupId -> bool)
      requires Valid()
      modifies this
      ensures Valid()
      ensures Knows() == Ticking(old(Knows()), old(hash), last, putOk, deleteOk, events)
      ensures Told(old(cgroups), old(hash), old(log), log, old(cgroups).Keys, last, events)
    {
      ProcessWatched(last, putOk);
      ghost var ticked := hash;
      CleanupCgroups(last, deleteOk);
      TickIs(old(Knows()), old(hash), ticked, hash, last, putOk, deleteOk, events);
    }

    /** One turn of the agent's loop. */
    method ProcessOne(op: Op)
      requires Valid()
      modifies this
      ensures Valid()
      ensures Knows() == Round(old(Knows()), op, events)
      ensures old(log) <= log
      ensures forall id :: Own(log, id) == Own(old(log), id) + Notices(old(Knows()), op, id, events)
    {
      match op {
        case Check(id, name, ktime) =>
          UpdateCgroups(id, name, ktime);
          forall i {
            Appended(old(log), Start(id, name, ktime), i);
          }
        case Tick(h, last, putOk, deleteOk) =>
          if h.Some? && last.Some? {
            hash := h.value;
            ProcessCgroups(last.value, putOk, deleteOk);
          }
      }
    }

    /**
     The agent's loop over any sequence of queued checks and ticks: in the end it knows what the
     rounds make it know, and each cgroup's part of the log has grown by what they say of it.
     */
    method Process(ops: seq<Op>)
      requires Valid()
      modifies this
      ensures Valid()
      ensures Knows() == Rounds(old(Knows()), ops, events)
      ensures old(log) <= log
      ensures forall id :: Own(log, id) == Own(old(log), id) + Said(old(Knows()), ops, id, events)
    {
      var i := 0;
      while i < |ops|
        invariant 0 <= i <= |ops| && Valid() && old(log) <= log
        invariant Knows() == Rounds(old(Knows()), ops[..i], events)
        invariant forall id :: Own(log, id) == Own(old(log), id) + Said(old(Knows()), ops[..i], id, events)
      {
        assert ops[..i + 1][..i] == ops[..i];
        ProcessOne(ops[i]);
        i := i + 1;
      }
      assert ops[..i] == ops;
    }
  }
}
