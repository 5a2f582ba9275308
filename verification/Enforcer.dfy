/**
 Enforcer notifications (bpf/process/bpf_enforcer.h, bpf_enforcer.c): any number of threads store,
 overwrite, clean up and consume notifications, and count the missed ones in a shared map through
 lookup, insert-if-absent and retry.  Every map operation and atomic add is one step.
 */
module Enforcer {
  import opened Common

  type Tid = nat

  datatype Act = Act(funcId: nat, arg: nat)

  datatype Reason = Overwritten | NoAction

  datatype Key = Key(act: Act, reason: Reason)

  datatype Data = Data(error: int, signal: int, act: Act)

  /** What the interrupted function does once the missed notification is counted. */
  datatype Next = Store(d: Data) | Drop

  datatype PC =
    | Idle
    | Lookup(key: Key, next: Next)
    | Insert(key: Key, next: Next)
    | Retry(key: Key, next: Next)
    | Bump(key: Key, next: Next)
    | Finish(next: Next)

  datatype State = State(data: map<Tid, Data>, counters: map<Key, nat>, pcs: seq<PC>)

  datatype Step =
    | Action(t: Tid, error: int, signal: int, act: Act)
    | Cleanup(t: Tid)
    | Enforce(t: Tid)
    | Advance(t: Tid)

  datatype Happening = Triggered(act: Act) | Consumed(act: Act) | Counted(key: Key) | Lost(key: Key)

  const MAX_KEYS := 128

  /** The cast to a signed 16-bit field. */
  function S16(x: int): (r: int)
    ensures -0x8000 <= r < 0x8000 && (r - x) % 0x1_0000 == 0
    ensures -0x8000 <= x < 0x8000 ==> r == x
  {
    (x + 0x8000) % 0x1_0000 - 0x8000
  }

  // ---------------------------------------------------------------- one step

  function Apply(s: State, step: Step): State
  {
    if step.t >= |s.pcs| then s
    else
      var pc := s.pcs[step.t];
      match step
      case Action(t, error, signal, act) =>
        var d := Data(S16(error), S16(signal), act);
        if !pc.Idle? then s
        else if t in s.data then s.(pcs := s.pcs[t := Lookup(Key(s.data[t].act, Overwritten), Store(d))])
        else s.(data := s.data[t := d])
      case Cleanup(t) =>
        if pc.Idle? && t in s.data then s.(pcs := s.pcs[t := Lookup(Key(s.data[t].act, NoAction), Drop)]) else s
      case Enforce(t) =>
        if pc.Idle? then s.(data := s.data - {t}) else s
      case Advance(t) => AdvanceThread(s, t)
  }

  function AdvanceThread(s: State, t: Tid): State
    requires t < |s.pcs|
  {
    match s.pcs[t]
    case Idle => s
    case Lookup(k, next) => s.(pcs := s.pcs[t := if k in s.counters then Bump(k, next) else Insert(k, next)])
    case Insert(k, next) =>
      if k !in s.counters && |s.counters| < MAX_KEYS
      then s.(counters := s.counters[k := 1], pcs := s.pcs[t := Finish(next)])
      else s.(pcs := s.pcs[t := Retry(k, next)])
    case Retry(k, next) => s.(pcs := s.pcs[t := if k in s.counters then Bump(k, next) else Finish(next)])
    case Bump(k, next) =>
      s.(counters := if k in s.counters then s.counters[k := (s.counters[k] + 1) % U32] else s.counters,
         pcs := s.pcs[t := Finish(next)])
    case Finish(Store(d)) => s.(data := s.data[t := d], pcs := s.pcs[t := Idle])
    case Finish(Drop) => s.(data := s.data - {t}, pcs := s.pcs[t := Idle])
  }

  /** What a step amounts to, if anything. */
  function Happens(s: State, step: Step): Option<Happening>
  {
    if step.t >= |s.pcs| then None
    else
      match step
      case Action(_, _, _, act) => if s.pcs[step.t].Idle? then Some(Triggered(act)) else None
      case Cleanup(_) => None
      case Enforce(t) => if s.pcs[t].Idle? && t in s.data then Some(Consumed(s.data[t].act)) else None
      case Advance(t) =>
        match s.pcs[t]
        case Bump(k, _) => Some(Counted(k))
        case Insert(k, _) => if k !in s.counters && |s.counters| < MAX_KEYS then Some(Counted(k)) else None
        case Retry(k, _) => if k in s.counters then None else Some(Lost(k))
        case _ => None
  }

  // ---------------------------------------------------------------- runs

  function Init(n: nat): State
  {
    State(map[], map[], seq(n, _ => Idle))
  }

  /** `n` threads, interleaved as in `steps`. */
  function Run(n: nat, steps: seq<Step>): State
  {
    if steps == [] then Init(n) else Apply(Run(n, steps[..|steps| - 1]), steps[|steps| - 1])
  }

  /** How often `h` happened. */
  function Tally(n: nat, steps: seq<Step>, h: Happening): nat
  {
    if steps == [] then 0
    else
      var init := steps[..|steps| - 1];
      Tally(n, init, h) + if Happens(Run(n, init), steps[|steps| - 1]) == Some(h) then 1 else 0
  }

  // ---------------------------------------------------------------- the invariant of the protocol

  ghost predicate ThreadOk(s: State, t: Tid)
    requires t < |s.pcs|
  {
    match s.pcs[t]
    case Idle => true
    case Lookup(k, next) => Pending(s, t, k, next)
    case Insert(k, next) => Pending(s, t, k, next)
    case Retry(k, next) => Pending(s, t, k, next) && (k in s.counters || |s.counters| == MAX_KEYS)
    case Bump(k, next) => Pending(s, t, k, next) && k in s.counters
    case Finish(_) => t in s.data
  }

  /** The key counted for is that of the thread's stored notification. */
  ghost predicate Pending(s: State, t: Tid, k: Key, next: Next)
  {
    t in s.data && k == Key(s.data[t].act, if next.Store? then Overwritten else NoAction)
  }

  ghost predicate Inv(s: State)
  {
    && |s.counters| <= MAX_KEYS
    && forall t :: 0 <= t < |s.pcs| ==> ThreadOk(s, t)
  }

  lemma UpdateKeeps(m: map<Key, nat>, k: Key, count: nat)
    ensures m[k := count].Keys == m.Keys + {k}
    ensures |m[k := count]| == if k in m then |m| else |m| + 1
  {
    var m' := m[k := count];
    assert m'.Keys == m.Keys + {k};
    assert |m| == |m.Keys| && |m'| == |m'.Keys|;
  }

  lemma AdvanceGrows(s: State, t: Tid)
    requires t < |s.pcs| && |s.counters| <= MAX_KEYS
    ensures |s.counters| <= |AdvanceThread(s, t).counters| <= MAX_KEYS
    ensures s.counters.Keys <= AdvanceThread(s, t).counters.Keys
  {
    match s.pcs[t]
    case Insert(k, _) => UpdateKeeps(s.counters, k, 1);
    case Bump(k, _) =>
      if k in s.counters {
        UpdateKeeps(s.counters, k, (s.counters[k] + 1) % U32);
      }
    case _ =>
  }

  /** Entries are only added, never past the capacity. */
  lemma CountersGrow(s: State, step: Step)
    requires Inv(s)
    ensures |s.counters| <= |Apply(s, step).counters| <= MAX_KEYS
    ensures s.counters.Keys <= Apply(s, step).counters.Keys
  {
    if step.t < |s.pcs| && step.Advance? {
      AdvanceGrows(s, step.t);
    }
  }

  lemma OwnStepKeepsThread(s: State, step: Step)
    requires Inv(s) && step.t < |s.pcs|
    ensures ThreadOk(Apply(s, step), step.t)
  {
    CountersGrow(s, step);
    assert ThreadOk(s, step.t);
  }

  /** What another thread does leaves a thread's position and data alone. */
  lemma OtherUntouched(s: State, step: Step, t: Tid)
    requires t < |s.pcs| && t != step.t
    ensures |Apply(s, step).pcs| == |s.pcs| && Apply(s, step).pcs[t] == s.pcs[t]
    ensures t in Apply(s, step).data <==> t in s.data
    ensures t in s.data ==> Apply(s, step).data[t] == s.data[t]
  {
  }

  lemma ThreadOkStable(s: State, s': State, t: Tid)
    requires t < |s.pcs| == |s'.pcs| && ThreadOk(s, t)
    requires s'.pcs[t] == s.pcs[t]
    requires (t in s'.data <==> t in s.data) && (t in s.data ==> s'.data[t] == s.data[t])
    requires s.counters.Keys <= s'.counters.Keys && |s.counters| <= |s'.counters| <= MAX_KEYS
    ensures ThreadOk(s', t)
  {
  }

  lemma OtherStepKeepsThread(s: State, step: Step, t: Tid)
    requires Inv(s) && t < |s.pcs| && t != step.t
    ensures ThreadOk(Apply(s, step), t)
  {
    CountersGrow(s, step);
    OtherUntouched(s, step, t);
    assert ThreadOk(s, t);
    ThreadOkStable(s, Apply(s, step), t);
  }

  lemma StepKeepsInv(s: State, step: Step)
    requires Inv(s)
    ensures Inv(Apply(s, step)) && |Apply(s, step).pcs| == |s.pcs|
  {
    CountersGrow(s, step);
    forall t | 0 <= t < |s.pcs|
      ensures ThreadOk(Apply(s, step), t)
    {
      if t == step.t {
        OwnStepKeepsThread(s, step);
      } else {
        OtherStepKeepsThread(s, step, t);
      }
    }
  }

  lemma {:induction false} RunKeepsInv(n: nat, steps: seq<Step>)
    ensures Inv(Run(n, steps)) && |Run(n, steps).pcs| == n
  {
    if steps != [] {
      RunKeepsInv(n, steps[..|steps| - 1]);
      StepKeepsInv(Run(n, steps[..|steps| - 1]), steps[|steps| - 1]);
    }
  }

  // ---------------------------------------------------------------- no update is lost

  ghost predicate Exact(s: State, k: Key, counted: nat, lost: nat)
  {
    && (k in s.counters ==> s.counters[k] == counted % U32 && lost == 0)
    && (k !in s.counters ==> counted == 0)
    && (lost > 0 ==> |s.counters| == MAX_KEYS)
  }

  function Inc(s: State, step: Step, h: Happening): nat
  {
    if Happens(s, step) == Some(h) then 1 else 0
  }

  lemma TallyStep(n: nat, steps: seq<Step>, h: Happening)
    requires steps != []
    ensures Tally(n, steps, h)
            == Tally(n, steps[..|steps| - 1], h) + Inc(Run(n, steps[..|steps| - 1]), steps[|steps| - 1], h)
  {
  }

  lemma NextCount(c: nat)
    ensures (c % U32 + 1) % U32 == (c + 1) % U32
  {
  }

  lemma StepKeepsExact(s: State, step: Step, k: Key, counted: nat, lost: nat)
    requires Inv(s) && Exact(s, k, counted, lost)
    ensures Exact(Apply(s, step), k, counted + Inc(s, step, Counted(k)), lost + Inc(s, step, Lost(k)))
  {
    CountersGrow(s, step);
    NextCount(counted);
    if step.t < |s.pcs| {
      assert ThreadOk(s, step.t);
    }
  }

  lemma ExactStep(n: nat, steps: seq<Step>, k: Key)
    requires steps != []
    requires var init := steps[..|steps| - 1];
             Inv(Run(n, init)) && Exact(Run(n, init), k, Tally(n, init, Counted(k)), Tally(n, init, Lost(k)))
    ensures Exact(Run(n, steps), k, Tally(n, steps, Counted(k)), Tally(n, steps, Lost(k)))
  {
    var init, step := steps[..|steps| - 1], steps[|steps| - 1];
    var s, counted, lost := Run(n, init), Tally(n, init, Counted(k)), Tally(n, init, Lost(k));
    assert counted + Inc(s, step, Counted(k)) == Tally(n, steps, Counted(k)) by {
      TallyStep(n, steps, Counted(k));
    }
    assert lost + Inc(s, step, Lost(k)) == Tally(n, steps, Lost(k)) by {
      TallyStep(n, steps, Lost(k));
    }
    StepKeepsExact(s, step, k, counted, lost);
  }

  /**
   In every interleaving a key's counter is the number of its completed updates, modulo the
   counter's width; an update is dropped only for a key that finds the map full, and such a key
   never gets a counter.
   */
  lemma {:induction false} CountersAreExact(n: nat, steps: seq<Step>, k: Key)
    ensures Exact(Run(n, steps), k, Tally(n, steps, Counted(k)), Tally(n, steps, Lost(k)))
  {
    if steps == [] {
      assert Tally(n, steps, Counted(k)) == 0 == Tally(n, steps, Lost(k));
    } else {
      CountersAreExact(n, steps[..|steps| - 1], k);
      RunKeepsInv(n, steps[..|steps| - 1]);
      ExactStep(n, steps, k);
    }
  }

  // ---------------------------------------------------------------- conservation

  /** Notifications of `act` that thread `t` has stored and not yet counted, or is about to store. */
  function Holds(s: State, t: Tid, act: Act): nat
    requires t < |s.pcs|
  {
    (if t in s.data && s.data[t].act == act && !s.pcs[t].Finish? then 1 else 0) +
    (if !s.pcs[t].Idle? && s.pcs[t].next.Store? && s.pcs[t].next.d.act == act then 1 else 0)
  }

  function Outstanding(s: State, n: nat, act: Act): nat
    requires n <= |s.pcs|
  {
    if n == 0 then 0 else Outstanding(s, n - 1, act) + Holds(s, n - 1, act)
  }

  /** Notifications of `act` that left the system: consumed, counted as missed, or dropped. */
  function Left(n: nat, steps: seq<Step>, act: Act): nat
  {
    Tally(n, steps, Consumed(act)) +
    Tally(n, steps, Counted(Key(act, Overwritten))) + Tally(n, steps, Counted(Key(act, NoAction))) +
    Tally(n, steps, Lost(Key(act, Overwritten))) + Tally(n, steps, Lost(Key(act, NoAction)))
  }

  function LeftBy(s: State, step: Step, act: Act): nat
  {
    Inc(s, step, Consumed(act)) +
    Inc(s, step, Counted(Key(act, Overwritten))) + Inc(s, step, Counted(Key(act, NoAction))) +
    Inc(s, step, Lost(Key(act, Overwritten))) + Inc(s, step, Lost(Key(act, NoAction)))
  }

  lemma StartHolds(s: State, step: Step, act: Act)
    requires Inv(s) && step.t < |s.pcs| && !step.Advance?
    ensures Holds(s, step.t, act) + Inc(s, step, Triggered(act))
            == Holds(Apply(s, step), step.t, act) + LeftBy(s, step, act)
  {
  }

  /** A step that counts or drops does so for the notification the thread has stored. */
  lemma MissedIsStored(s: State, t: Tid, k: Key, act: Act)
    requires Inv(s) && t < |s.pcs|
    requires Happens(s, Advance(t)) in {Some(Counted(k)), Some(Lost(k))}
    ensures t in s.data && s.data[t].act == k.act
    ensures LeftBy(s, Advance(t), act) == if k.act == act then 1 else 0
  {
    assert ThreadOk(s, t);
  }

  lemma AdvanceHolds(s: State, t: Tid, act: Act)
    requires Inv(s) && t < |s.pcs|
    ensures Holds(s, t, act) == Holds(AdvanceThread(s, t), t, act) + LeftBy(s, Advance(t), act)
  {
    assert ThreadOk(s, t);
    match Happens(s, Advance(t))
    case Some(Counted(k)) => MissedIsStored(s, t, k, act);
    case Some(Lost(k)) => MissedIsStored(s, t, k, act);
    case _ =>
  }

  lemma StepHolds(s: State, step: Step, act: Act)
    requires Inv(s) && step.t < |s.pcs|
    ensures Holds(s, step.t, act) + Inc(s, step, Triggered(act))
            == Holds(Apply(s, step), step.t, act) + LeftBy(s, step, act)
  {
    if step.Advance? {
      AdvanceHolds(s, step.t, act);
    } else {
      StartHolds(s, step, act);
    }
  }

  lemma HoldsSame(s: State, s': State, t: Tid, act: Act)
    requires t < |s.pcs| && t < |s'.pcs| && s'.pcs[t] == s.pcs[t]
    requires (t in s'.data <==> t in s.data) && (t in s.data ==> s'.data[t] == s.data[t])
    ensures Holds(s', t, act) == Holds(s, t, act)
  {
  }

  lemma StepHoldsOther(s: State, step: Step, t: Tid, act: Act)
    requires t < |s.pcs| && t != step.t
    ensures t < |Apply(s, step).pcs| && Holds(Apply(s, step), t, act) == Holds(s, t, act)
  {
    OtherUntouched(s, step, t);
    HoldsSame(s, Apply(s, step), t, act);
  }

  /** Only thread `t` differs, so the sums differ by what it holds. */
  lemma {:induction false} OutstandingDiffers(s: State, s': State, t: Tid, n: nat, act: Act)
    requires n <= |s.pcs| == |s'.pcs|
    requires forall u :: 0 <= u < n && u != t ==> Holds(s', u, act) == Holds(s, u, act)
    ensures Outstanding(s, n, act) + (if t < n then Holds(s', t, act) else 0)
            == Outstanding(s', n, act) + (if t < n then Holds(s, t, act) else 0)
  {
    if n > 0 {
      OutstandingDiffers(s, s', t, n - 1, act);
    }
  }

  lemma StepOutstanding(s: State, step: Step, act: Act)
    requires Inv(s)
    ensures |Apply(s, step).pcs| == |s.pcs|
    ensures Outstanding(s, |s.pcs|, act) + Inc(s, step, Triggered(act))
            == Outstanding(Apply(s, step), |s.pcs|, act) + LeftBy(s, step, act)
  {
    var s', n := Apply(s, step), |s.pcs|;
    forall u | 0 <= u < n && u != step.t
      ensures Holds(s', u, act) == Holds(s, u, act)
    {
      StepHoldsOther(s, step, u, act);
    }
    OutstandingDiffers(s, s', step.t, n, act);
    if step.t < n {
      StepHolds(s, step, act);
    }
  }

  lemma NothingOutstanding(n: nat, m: nat, act: Act)
    requires m <= n
    ensures Outstanding(Init(n), m, act) == 0
  {
    if m > 0 {
      NothingOutstanding(n, m - 1, act);
    }
  }

  lemma LeftGrows(n: nat, steps: seq<Step>, act: Act)
    requires steps != []
    ensures var init, step := steps[..|steps| - 1], steps[|steps| - 1];
            Left(n, steps, act) == Left(n, init, act) + LeftBy(Run(n, init), step, act)
  {
    TallyStep(n, steps, Consumed(act));
    TallyStep(n, steps, Counted(Key(act, Overwritten)));
    TallyStep(n, steps, Counted(Key(act, NoAction)));
    TallyStep(n, steps, Lost(Key(act, Overwritten)));
    TallyStep(n, steps, Lost(Key(act, NoAction)));
  }

  /**
   Conservation in every interleaving: notifications triggered are those consumed, counted as
   overwritten, counted as cleaned up, dropped because the map is full, and still outstanding.
   */
  lemma {:induction false} Conservation(n: nat, steps: seq<Step>, act: Act)
    ensures |Run(n, steps).pcs| == n
    ensures Tally(n, steps, Triggered(act))
            == Left(n, steps, act) + Outstanding(Run(n, steps), n, act)
  {
    RunKeepsInv(n, steps);
    if steps == [] {
      NothingOutstanding(n, n, act);
    } else {
      var init, step := steps[..|steps| - 1], steps[|steps| - 1];
      var s := Run(n, init);
      Conservation(n, init, act);
      RunKeepsInv(n, init);
      StepOutstanding(s, step, act);
      LeftGrows(n, steps, act);
    }
  }

  function Counter(s: State, k: Key): nat
  {
    if k in s.counters then s.counters[k] else 0
  }

  lemma ExactWithRoom(s: State, k: Key, counted: nat, lost: nat)
    requires Exact(s, k, counted, lost) && |s.counters| < MAX_KEYS && counted < U32
    ensures Counter(s, k) == counted && lost == 0
  {
  }

  lemma CounterIsTally(n: nat, steps: seq<Step>, k: Key)
    requires |Run(n, steps).counters| < MAX_KEYS && Tally(n, steps, Counted(k)) < U32
    ensures Counter(Run(n, steps), k) == Tally(n, steps, Counted(k)) && Tally(n, steps, Lost(k)) == 0
  {
    CountersAreExact(n, steps, k);
    ExactWithRoom(Run(n, steps), k, Tally(n, steps, Counted(k)), Tally(n, steps, Lost(k)));
  }

  /** As users see it: with room in the map and no counter wrapped, the counters account for all. */
  lemma CountersAccountForAll(n: nat, steps: seq<Step>, act: Act)
    requires |Run(n, steps).counters| < MAX_KEYS
    requires Tally(n, steps, Counted(Key(act, Overwritten))) < U32
    requires Tally(n, steps, Counted(Key(act, NoAction))) < U32
    ensures |Run(n, steps).pcs| == n
    ensures var s := Run(n, steps);
            Tally(n, steps, Triggered(act)) ==
            Tally(n, steps, Consumed(act)) + Counter(s, Key(act, Overwritten)) + Counter(s, Key(act, NoAction))
            + Outstanding(s, n, act)
  {
    Conservation(n, steps, act);
    CounterIsTally(n, steps, Key(act, Overwritten));
    CounterIsTally(n, steps, Key(act, NoAction));
  }

  // ---------------------------------------------------------------- what is delivered

  /** The notification that thread `t` asked for last and has neither consumed nor cleaned up. */
  function Latest(n: nat, steps: seq<Step>, t: Tid): Option<Data>
  {
    if steps == [] then None
    else
      var init, step := steps[..|steps| - 1], steps[|steps| - 1];
      var s, before := Run(n, init), Latest(n, init, t);
      if step.t != t || t >= |s.pcs| || !s.pcs[t].Idle? then before
      else
        match step
        case Action(_, error, signal, act) => Some(Data(S16(error), S16(signal), act))
        case Cleanup(_) => None
        case Enforce(_) => None
        case Advance(_) => before
  }

  /** What is stored for `t`, or will be once it has counted the one missed. */
  function Coming(s: State, t: Tid): Option<Data>
    requires t < |s.pcs|
  {
    if s.pcs[t].Idle? then if t in s.data then Some(s.data[t]) else None
    else if s.pcs[t].next.Store? then Some(s.pcs[t].next.d)
    else None
  }

  /**
   In every interleaving the notification stored for an idle thread, which it consumes next, is its
   latest one: no other thread and no overwriting order changes it.
   */
  lemma {:induction false} LatestIsStored(n: nat, steps: seq<Step>, t: Tid)
    requires t < n
    ensures |Run(n, steps).pcs| == n && Coming(Run(n, steps), t) == Latest(n, steps, t)
    decreases |steps|
  {
    RunKeepsInv(n, steps);
    if steps != [] {
      var init, step := steps[..|steps| - 1], steps[|steps| - 1];
      LatestIsStored(n, init, t);
      RunKeepsInv(n, init);
      StepComing(Run(n, init), step, t);
    }
  }

  lemma AdvanceKeepsComing(s: State, t: Tid)
    requires Inv(s) && t < |s.pcs|
    ensures |AdvanceThread(s, t).pcs| == |s.pcs| && Coming(AdvanceThread(s, t), t) == Coming(s, t)
  {
    assert ThreadOk(s, t);
  }

  lemma StartSetsComing(s: State, step: Step)
    requires step.t < |s.pcs| && s.pcs[step.t].Idle? && !step.Advance?
    ensures |Apply(s, step).pcs| == |s.pcs|
    ensures Coming(Apply(s, step), step.t)
            == if step.Action? then Some(Data(S16(step.error), S16(step.signal), step.act)) else None
  {
  }

  lemma StepComing(s: State, step: Step, t: Tid)
    requires Inv(s) && t < |s.pcs|
    ensures |Apply(s, step).pcs| == |s.pcs|
    ensures Coming(Apply(s, step), t) ==
            if step.t != t || !s.pcs[t].Idle? || step.Advance? then Coming(s, t)
            else if step.Action? then Some(Data(S16(step.error), S16(step.signal), step.act))
            else None
  {
    if step.t != t {
      OtherUntouched(s, step, t);
    } else if step.Advance? {
      AdvanceKeepsComing(s, t);
    } else if s.pcs[t].Idle? {
      StartSetsComing(s, step);
    }
  }

  // ---------------------------------------------------------------- the code's in-place form

  function Rank(pc: PC): nat
  {
    match pc
    case Idle => 0
    case Finish(_) => 1
    case Bump(_, _) => 2
    case Retry(_, _) => 3
    case Insert(_, _) => 4
    case Lookup(_, _) => 5
  }

  /** What other threads make of the counters while a thread is between two steps. */
  type Meanwhile = map<Key, nat> -> map<Key, nat>

  /** Thread `t` runs its function to the end, others changing the counters before it retries. */
  function Complete(s: State, t: Tid, others: Meanwhile): (r: State)
    requires t < |s.pcs|
    ensures |r.pcs| == |s.pcs|
    decreases Rank(s.pcs[t])
  {
    if s.pcs[t].Idle? then s
    else if s.pcs[t].Retry? then Complete(AdvanceThread(s.(counters := others(s.counters)), t), t, others)
    else Complete(AdvanceThread(s, t), t, others)
  }

  lemma CompleteStep(s: State, t: Tid, others: Meanwhile, s': State)
    requires t < |s.pcs| && !s.pcs[t].Idle?
    requires s' == AdvanceThread(if s.pcs[t].Retry? then s.(counters := others(s.counters)) else s, t)
    ensures Complete(s, t, others) == Complete(s', t, others)
  {
  }

  function Bumped(counters: map<Key, nat>, key: Key): map<Key, nat>
  {
    if key in counters then counters[key := (counters[key] + 1) % U32] else counters
  }

  lemma BumpCompletes(s: State, t: Tid, others: Meanwhile, key: Key, next: Next)
    requires t < |s.pcs| && s.pcs[t] == Bump(key, next)
    ensures Complete(s, t, others)
            == Complete(State(s.data, Bumped(s.counters, key), s.pcs[t := Finish(next)]), t, others)
  {
  }

  lemma RetryCompletes(s: State, t: Tid, others: Meanwhile, key: Key, next: Next)
    requires t < |s.pcs| && s.pcs[t] == Retry(key, next)
    ensures Complete(s, t, others)
            == Complete(State(s.data, Bumped(others(s.counters), key), s.pcs[t := Finish(next)]), t, others)
  {
    var counters := others(s.counters);
    if key in counters {
      var found := State(s.data, counters, s.pcs[t := Bump(key, next)]);
      CompleteStep(s, t, others, found);
      BumpCompletes(found, t, others, key, next);
      assert found.pcs[t := Finish(next)] == s.pcs[t := Finish(next)];
    }
  }

  /** The counters once a missed notification has been counted, or dropped because the map is full. */
  function Missed(counters: map<Key, nat>, key: Key, others: Meanwhile): map<Key, nat>
  {
    if key in counters then Bumped(counters, key)
    else if |counters| < MAX_KEYS then counters[key := 1]
    else Bumped(others(counters), key)
  }

  /** What the whole count comes to. */
  lemma LookupCompletes(s: State, t: Tid, others: Meanwhile, key: Key, next: Next)
    requires t < |s.pcs| && s.pcs[t] == Lookup(key, next)
    ensures Complete(s, t, others)
            == Complete(State(s.data, Missed(s.counters, key, others), s.pcs[t := Finish(next)]), t, others)
  {
    if key in s.counters {
      var found := s.(pcs := s.pcs[t := Bump(key, next)]);
      CompleteStep(s, t, others, found);
      BumpCompletes(found, t, others, key, next);
      assert found.pcs[t := Finish(next)] == s.pcs[t := Finish(next)];
    } else {
      var absent := s.(pcs := s.pcs[t := Insert(key, next)]);
      CompleteStep(s, t, others, absent);
      assert absent.pcs[t := Finish(next)] == s.pcs[t := Finish(next)];
      if |s.counters| >= MAX_KEYS {
        var full := s.(pcs := s.pcs[t := Retry(key, next)]);
        assert absent.pcs[t := Retry(key, next)] == full.pcs;
        CompleteStep(absent, t, others, full);
        RetryCompletes(full, t, others, key, next);
        assert full.pcs[t := Finish(next)] == s.pcs[t := Finish(next)];
      }
    }
  }

  class Maps {
    var data: map<Tid, Data>
    var counters: map<Key, nat>

    ghost function View(pcs: seq<PC>): State
      reads this
    {
      State(data, counters, pcs)
    }

    /** The count goes through the steps of the protocol, other threads running before the retry. */
    method UpdateMissedNotifications(key: Key, others: Meanwhile, ghost t: Tid, ghost next: Next, ghost pcs: seq<PC>)
      requires t < |pcs| && pcs[t] == Lookup(key, next)
      modifies this`counters
      ensures Complete(old(View(pcs)), t, others) == Complete(View(pcs[t := Finish(next)]), t, others)
    {
      LookupCompletes(View(pcs), t, others, key, next);
      if key in counters {
        counters := counters[key := (counters[key] + 1) % U32];
        return;
      }
      if |counters| < MAX_KEYS {
        counters := counters[key := 1];
        return;
      }
      counters := others(counters);
      if key in counters {
        counters := counters[key := (counters[key] + 1) % U32];
      }
    }

    method DoEnforcerCleanup(t: Tid, others: Meanwhile, ghost pcs: seq<PC>)
      requires t < |pcs| && pcs[t].Idle?
      modifies this
      ensures View(pcs) == Complete(Apply(old(View(pcs)), Cleanup(t)), t, others)
    {
      if t in data {
        var missed := Key(data[t].act, NoAction);
        UpdateMissedNotifications(missed, others, t, Drop, pcs[t := Lookup(missed, Drop)]);
        data := data - {t};
        assert pcs[t := Idle] == pcs;
      }
    }

    method DoEnforcerAction(t: Tid, error: int, signal: int, act: Act, others: Meanwhile, ghost pcs: seq<PC>)
      requires t < |pcs| && pcs[t].Idle?
      modifies this
      ensures View(pcs) == Complete(Apply(old(View(pcs)), Action(t, error, signal, act)), t, others)
    {
      var d := Data(S16(error), S16(signal), act);
      if t in data {
        var missed := Key(data[t].act, Overwritten);
        UpdateMissedNotifications(missed, others, t, Store(d), pcs[t := Lookup(missed, Store(d))]);
        data := data[t := d];
        assert pcs[t := Idle] == pcs;
      } else {
        data := data[t := d];
      }
    }

    /**
     Delivers the stored signal and forgets the notification.  The error is read after the entry is
     deleted, from the element that held it: if another thread's notification has taken the element
     by then, as `reused` says, the error is that one's.
     */
    method DoEnforcer(t: Tid, reused: Option<Data>, ghost pcs: seq<PC>) returns (error: int, sent: Option<int>)
      requires t < |pcs| && pcs[t].Idle?
      modifies this`data
      ensures View(pcs) == Apply(old(View(pcs)), Enforce(t))
      ensures t !in old(data) ==> error == 0 && sent == None
      ensures t in old(data) ==>
                && sent == (if old(data)[t].signal != 0 then Some(old(data)[t].signal) else None)
                && error == (if reused.Some? then reused.value.error else old(data)[t].error)
    {
      error, sent := 0, None;
      if t !in data {
        assert data - {t} == data;
        return;
      }
      var element := data[t];
      if element.signal != 0 {
        sent := Some(element.signal);
      }
      data := data - {t};
      if reused.Some? {
        element := reused.value;
      }
      error := element.error;
    }
  }
}
