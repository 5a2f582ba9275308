/**
 The per-CPU cgroup rate limiter (bpf/process/bpf_rate.h): a two-bucket sliding window kept in
 unsigned 64-bit words.
 */
module CgroupRate {
  import opened Common

  datatype Options = Options(events: nat, interval: nat)
  {
    /** An interval is a positive signed 64-bit number of nanoseconds. */
    predicate Active() { 0 < interval < U64 / 2 }
  }

  datatype Value = Value(curr: nat, prev: nat, time: nat, rate: nat, throttled: nat)

  /** The entry afterwards, whether the event may be sent, and whether a throttle message was. */
  datatype Outcome = Outcome(entry: Option<Value>, pass: bool, sent: bool)

  function Floor(time: nat, interval: nat): nat
    requires interval > 0
  {
    (time / interval) * interval
  }

  function Slid(v: Value, interval: nat, time: nat): Value
    requires interval > 0
  {
    var delta := (time - v.time) % U64;
    if delta <= interval then v
    else if delta > (2 * interval) % U64 then v.(prev := 0, time := Floor(time, interval), curr := 0)
    else v.(prev := v.curr, time := (v.time + interval) % U64, curr := 0)
  }

  /** The share of the previous window that still counts, and the current one. */
  function Rate(slide: nat, prev: nat, interval: nat, curr: nat): nat
    requires interval > 0
  {
    Scaled(slide * prev, interval, curr)
  }

  function Scaled(product: nat, interval: nat, curr: nat): nat
    requires interval > 0
  {
    ((product % U64) / interval + curr) % U64
  }

  /** One `cgroup_rate` call at `time`. */
  function Step(opt: Option<Options>, entry: Option<Value>, time: nat): Outcome
  {
    if opt.None? || opt.value.interval == 0 then Outcome(entry, true, false)
    else
      var interval := opt.value.interval;
      if entry.None? then Outcome(Some(Value(1, 0, Floor(time, interval), 0, 0)), true, false)
      else
        var v := Slid(entry.value, interval, time);
        var curr := (v.curr + 1) % U64;
        var rate := Rate((interval - (time - v.time)) % U64, v.prev, interval, curr);
        var sent := v.throttled == 0 && rate >= opt.value.events;
        var throttled := if sent then time else v.throttled;
        Outcome(Some(Value(curr, v.prev, v.time, rate, throttled)), throttled == 0, sent)
  }

  // ---------------------------------------------------------------- runs

  /**
   How a CPU's slot starts: absent, or all zeros when another CPU has created the entry, the map
   being one slot per CPU.
   */
  predicate Fresh(start: Option<Value>)
  {
    start.Some? ==> start.value == Value(0, 0, 0, 0, 0)
  }

  /** The slot after events at `times`. */
  function After(opt: Options, start: Option<Value>, times: seq<nat>): Option<Value>
  {
    if times == [] then start
    else Step(Some(opt), After(opt, start, times[..|times| - 1]), times[|times| - 1]).entry
  }

  /** The window each event was counted in. */
  function Windows(opt: Options, start: Option<Value>, times: seq<nat>): seq<nat>
  {
    if times == [] then []
    else
      var e := After(opt, start, times);
      Windows(opt, start, times[..|times| - 1]) + [if e.Some? then e.value.time else 0]
  }

  function Latest(times: seq<nat>): nat
  {
    if times == [] then 0 else times[|times| - 1]
  }

  /** Times do not go back and, like the counters, stay within 64 bits. */
  ghost predicate Monotone(times: seq<nat>)
  {
    && |times| < U64
    && (forall i, j :: 0 <= i < j < |times| ==> times[i] <= times[j])
    && (forall i :: 0 <= i < |times| ==> times[i] < U64)
  }

  lemma MonotoneInit(init: seq<nat>, now: nat)
    requires Monotone(init + [now])
    ensures Monotone(init) && Latest(init) <= now < U64 && |init| + 1 < U64
  {
    var times := init + [now];
    assert forall i :: 0 <= i < |init| ==> times[i] == init[i];
    assert times[|init|] == now;
  }

  lemma FloorFacts(time: nat, interval: nat)
    requires interval > 0
    ensures Floor(time, interval) % interval == 0
    ensures Floor(time, interval) <= time < Floor(time, interval) + interval
  {
    MultipleMod(time / interval, interval);
    assert time == (time / interval) * interval + time % interval;
  }

  lemma MulGrows(a: int, m: nat)
    ensures a >= 1 ==> a * m >= m
    ensures a <= -1 ==> a * m + m <= 0
  {
  }

  lemma MultipleMod(k: int, interval: nat)
    requires interval > 0
    ensures (k * interval) % interval == 0
  {
    var q, r := (k * interval) / interval, (k * interval) % interval;
    assert (k - q) * interval == r;
    MulGrows(k - q, interval);
  }

  lemma NextMultiple(x: nat, interval: nat)
    requires interval > 0 && x % interval == 0
    ensures (x + interval) % interval == 0
  {
    MultipleMod(x / interval + 1, interval);
    assert x + interval == (x / interval + 1) * interval;
  }

  /** Distinct multiples of `interval` are at least `interval` apart. */
  lemma MultiplesApart(x: nat, y: nat, interval: nat)
    requires interval > 0 && x % interval == 0 && y % interval == 0 && x < y
    ensures x + interval <= y
  {
    var p, q := x / interval, y / interval;
    assert (q - p) * interval == y - x;
    MulGrows(q - p, interval);
  }

  predicate Around(opt: Options, window: nat, time: nat)
    requires opt.interval > 0
  {
    window % opt.interval == 0 && window <= time <= window + opt.interval
  }

  /** What the entry records about the run so far. */
  ghost predicate Accounts(opt: Options, times: seq<nat>, v: Value, windows: seq<nat>)
    requires opt.interval > 0
  {
    && |windows| == |times|
    && v.time % opt.interval == 0
    && v.time <= Latest(times) <= v.time + opt.interval
    && v.curr == multiset(windows)[v.time]
    && (if v.time < opt.interval then v.prev == 0 else v.prev == multiset(windows)[v.time - opt.interval])
    && (forall w :: w in windows ==> w <= v.time)
    && (forall k :: 0 <= k < |times| ==> Around(opt, windows[k], times[k]))
  }

  /**
   Window accounting.  After every event the window start is a multiple of the interval no more
   than one interval ago, `curr` and `prev` are exactly the numbers of events assigned to this
   window and the one immediately before it, and each event was assigned to a window around it.
   */
  lemma {:induction false} WindowAccounting(opt: Options, start: Option<Value>, times: seq<nat>)
    requires opt.Active() && Fresh(start) && (times != [] || start.Some?) && Monotone(times)
    ensures After(opt, start, times).Some?
    ensures Accounts(opt, times, After(opt, start, times).value, Windows(opt, start, times))
    decreases |times|
  {
    if times == [] {
      ZeroedAccounts(opt);
    } else if |times| == 1 && start.None? {
      CreatingAccounts(opt, times[0]);
      assert times == [times[0]];
    } else {
      var init, now := times[..|times| - 1], times[|times| - 1];
      assert times == init + [now];
      MonotoneInit(init, now);
      WindowAccounting(opt, start, init);
      AccountsGrow(opt, start, init, now);
    }
  }

  /** One more event after the first. */
  lemma AccountsGrow(opt: Options, start: Option<Value>, init: seq<nat>, now: nat)
    requires opt.Active() && After(opt, start, init).Some? && Latest(init) <= now < U64 && |init| + 1 < U64
    requires Accounts(opt, init, After(opt, start, init).value, Windows(opt, start, init))
    ensures After(opt, start, init + [now]).Some?
    ensures Accounts(opt, init + [now], After(opt, start, init + [now]).value, Windows(opt, start, init + [now]))
  {
    var v, times := After(opt, start, init).value, init + [now];
    AccountsStep(opt, init, v, Windows(opt, start, init), now);
    assert times[..|times| - 1] == init;
    assert After(opt, start, times) == Step(Some(opt), Some(v), now).entry;
  }

  lemma ZeroedAccounts(opt: Options)
    requires opt.Active()
    ensures Accounts(opt, [], Value(0, 0, 0, 0, 0), [])
  {
    assert multiset([])[0] == 0;
  }

  lemma CreatingAccounts(opt: Options, now: nat)
    requires opt.Active()
    ensures After(opt, None, [now]).Some?
    ensures Accounts(opt, [now], After(opt, None, [now]).value, Windows(opt, None, [now]))
  {
    FirstAccounts(opt, now);
    assert After(opt, None, [now]) == Some(Value(1, 0, Floor(now, opt.interval), 0, 0));
    assert Windows(opt, None, [now]) == [Floor(now, opt.interval)];
  }

  lemma FirstAccounts(opt: Options, now: nat)
    requires opt.Active()
    ensures Accounts(opt, [now], Value(1, 0, Floor(now, opt.interval), 0, 0), [Floor(now, opt.interval)])
  {
    FloorFacts(now, opt.interval);
  }

  /** A call moves the window and counts the event in it. */
  lemma StepCounts(opt: Options, v: Value, now: nat)
    requires opt.Active() && Slid(v, opt.interval, now).curr + 1 < U64
    ensures var v', s := Step(Some(opt), Some(v), now).entry.value, Slid(v, opt.interval, now);
            v' == Value(s.curr + 1, s.prev, s.time, v'.rate, v'.throttled)
  {
    assert (Slid(v, opt.interval, now).curr + 1) % U64 == Slid(v, opt.interval, now).curr + 1;
  }

  lemma AccountsStep(opt: Options, times: seq<nat>, v: Value, windows: seq<nat>, now: nat)
    requires opt.Active() && Accounts(opt, times, v, windows)
    requires Latest(times) <= now < U64 && |times| + 1 < U64
    ensures var v' := Step(Some(opt), Some(v), now).entry.value;
            Accounts(opt, times + [now], v', windows + [v'.time])
  {
    SlideAccounts(opt, times, v, windows, now);
    var s := Slid(v, opt.interval, now);
    CountsFit(windows, s.time);
    StepCounts(opt, v, now);
    var v' := Step(Some(opt), Some(v), now).entry.value;
    Extend(opt, times, now, s, windows, v'.rate, v'.throttled);
  }

  /**
   How the window moves, in numbers that do not wrap: it stays for one interval, moves on by one up to
   the end of the next, and otherwise starts anew at the event.
   */
  lemma WindowMoves(opt: Options, start: Option<Value>, times: seq<nat>)
    requires opt.Active() && Fresh(start) && Monotone(times) && times != []
    requires |times| > 1 || start.Some?
    ensures After(opt, start, times).Some? && After(opt, start, times[..|times| - 1]).Some?
    ensures var was, now := After(opt, start, times[..|times| - 1]).value, times[|times| - 1];
            After(opt, start, times).value.time
            == if now <= was.time + opt.interval then was.time
               else if now <= was.time + 2 * opt.interval then was.time + opt.interval
               else now - now % opt.interval
  {
    var init, now := times[..|times| - 1], times[|times| - 1];
    assert times == init + [now];
    MonotoneInit(init, now);
    WindowAccounting(opt, start, init);
    var v := After(opt, start, init).value;
    SlidIs(v, opt.interval, now);
    FloorIs(now, opt.interval);
  }

  lemma FloorIs(time: nat, interval: nat)
    requires interval > 0
    ensures Floor(time, interval) == time - time % interval
  {
  }

  /** The counters before the new event is counted, after the window has moved for it. */
  ghost predicate Slides(opt: Options, now: nat, v: Value, windows: seq<nat>)
    requires opt.interval > 0
  {
    && v.time % opt.interval == 0
    && v.time <= now <= v.time + opt.interval
    && v.curr == multiset(windows)[v.time]
    && (if v.time < opt.interval then v.prev == 0 else v.prev == multiset(windows)[v.time - opt.interval])
    && (forall w :: w in windows ==> w <= v.time)
  }

  /** With times in order the subtractions do not wrap. */
  lemma SlidIs(v: Value, interval: nat, now: nat)
    requires 0 < interval && 2 * interval < U64 && v.time <= now < U64
    ensures Slid(v, interval, now) ==
            if now - v.time <= interval then v
            else if now - v.time > 2 * interval then Value(0, 0, Floor(now, interval), v.rate, v.throttled)
            else Value(0, v.curr, v.time + interval, v.rate, v.throttled)
  {
    assert (now - v.time) % U64 == now - v.time && (2 * interval) % U64 == 2 * interval;
    assert now - v.time > interval ==> (v.time + interval) % U64 == v.time + interval;
  }

  /** A long gap: the window starts anew, and no event was assigned to it or the one before it. */
  lemma GapAccounts(opt: Options, v: Value, windows: seq<nat>, now: nat)
    requires opt.interval > 0 && v.time % opt.interval == 0 && now - v.time > 2 * opt.interval
    requires forall w :: w in windows ==> w <= v.time
    ensures Slides(opt, now, Value(0, 0, Floor(now, opt.interval), v.rate, v.throttled), windows)
  {
    var i, t := opt.interval, Floor(now, opt.interval);
    FloorFacts(now, i);
    NextMultiple(v.time, i);
    MultiplesApart(v.time, t, i);
    MultiplesApart(v.time + i, t, i);
    assert t - i !in windows && t !in windows;
  }

  /** The next window: the current count becomes the previous one. */
  lemma NextAccounts(opt: Options, v: Value, windows: seq<nat>, now: nat)
    requires opt.interval > 0 && v.time % opt.interval == 0
    requires opt.interval < now - v.time <= 2 * opt.interval
    requires v.curr == multiset(windows)[v.time]
    requires forall w :: w in windows ==> w <= v.time
    ensures Slides(opt, now, Value(0, v.curr, v.time + opt.interval, v.rate, v.throttled), windows)
  {
    NextMultiple(v.time, opt.interval);
    assert v.time + opt.interval !in windows;
  }

  lemma SlideAccounts(opt: Options, times: seq<nat>, v: Value, windows: seq<nat>, now: nat)
    requires opt.Active() && Accounts(opt, times, v, windows)
    requires Latest(times) <= now < U64
    ensures Slides(opt, now, Slid(v, opt.interval, now), windows)
  {
    SlidIs(v, opt.interval, now);
    if now - v.time > 2 * opt.interval {
      GapAccounts(opt, v, windows, now);
    } else if now - v.time > opt.interval {
      NextAccounts(opt, v, windows, now);
    }
  }

  lemma CountsFit(windows: seq<nat>, w: nat)
    ensures multiset(windows)[w] <= |windows|
  {
    assert multiset(windows)[w] <= |multiset(windows)|;
  }

  lemma Extend(opt: Options, times: seq<nat>, now: nat, v: Value, windows: seq<nat>, rate: nat, throttled: nat)
    requires opt.Active() && |windows| == |times|
    requires Slides(opt, now, v, windows)
    requires forall k :: 0 <= k < |times| ==> Around(opt, windows[k], times[k])
    ensures Accounts(opt, times + [now], Value(v.curr + 1, v.prev, v.time, rate, throttled), windows + [v.time])
  {
    assert multiset(windows + [v.time]) == multiset(windows) + multiset{v.time};
  }

  // ---------------------------------------------------------------- the rate

  lemma DivLe(x: nat, prev: nat, interval: nat)
    requires interval > 0 && x <= prev * interval
    ensures x / interval <= prev
  {
    var q := x / interval;
    assert q * interval <= x;
    assert (q - prev) * interval <= 0;
    MulGrows(q - prev, interval);
  }

  /**
   The part of the previous window still in view never underflows, and weighs its count; the product
   has 64 bits.
   */
  ghost predicate SlidingAverage(opt: Options, v: Value, now: nat)
    requires opt.interval > 0
  {
    var slide := opt.interval - (now - v.time);
    && 0 <= slide <= opt.interval
    && v.rate == Share(slide, v.prev, opt.interval) + v.curr
  }

  /** What is left of a count of `prev` with `slide` of its interval still in view. */
  function Share(slide: nat, prev: nat, interval: nat): nat
    requires interval > 0
  {
    (slide * prev % U64) / interval
  }

  /**
   The reported rate is the sliding average and lies between the current count and the sum of the two
   counts, except that the event that creates the entry leaves the rate at 0.
   */
  lemma RateBetweenCounts(opt: Options, start: Option<Value>, times: seq<nat>)
    requires opt.Active() && Fresh(start) && times != [] && Monotone(times)
    ensures After(opt, start, times).Some?
    ensures var v := After(opt, start, times).value;
            && (v.curr <= v.rate <= v.curr + v.prev <==> |times| > 1 || start.Some?)
            && (|times| > 1 || start.Some? ==> SlidingAverage(opt, v, Latest(times)))
  {
    WindowAccounting(opt, start, times);
    var n := |times| - 1;
    if n == 0 && start.None? {
      assert times[..n] == [];
    } else {
      var init, now := times[..n], times[n];
      WindowAccounting(opt, start, init);
      assert Latest(init) <= now;
      CountsSum(opt, times, After(opt, start, times).value, Windows(opt, start, times));
      LaterRate(opt, init, After(opt, start, init).value, Windows(opt, start, init), now);
    }
  }

  /** The event that creates the entry is counted in its window, and leaves the rate at 0. */
  lemma CreationCounts(opt: Options, now: nat)
    requires opt.Active()
    ensures After(opt, None, [now]) == Some(Value(1, 0, now - now % opt.interval, 0, 0))
  {
    FloorIs(now, opt.interval);
    assert After(opt, None, [now]) == Some(Value(1, 0, Floor(now, opt.interval), 0, 0));
  }

  /** Together the two counts are no more than all events. */
  lemma CountsSum(opt: Options, times: seq<nat>, v: Value, windows: seq<nat>)
    requires opt.Active() && Accounts(opt, times, v, windows)
    ensures v.curr + v.prev <= |times|
  {
    TwoCountsFit(windows, v.time, v.time - opt.interval);
  }

  lemma LaterRate(opt: Options, times: seq<nat>, v: Value, windows: seq<nat>, now: nat)
    requires opt.Active() && Accounts(opt, times, v, windows)
    requires Latest(times) <= now < U64
    requires var v' := Step(Some(opt), Some(v), now).entry.value; v'.curr + v'.prev < U64
    ensures var v' := Step(Some(opt), Some(v), now).entry.value;
            v'.curr <= v'.rate <= v'.curr + v'.prev && SlidingAverage(opt, v', now)
  {
    SlideAccounts(opt, times, v, windows, now);
    StepRate(opt, v, now);
  }

  lemma StepRate(opt: Options, v: Value, now: nat)
    requires opt.Active()
    requires var s := Slid(v, opt.interval, now); s.time <= now <= s.time + opt.interval
    requires var v' := Step(Some(opt), Some(v), now).entry.value; v'.curr + v'.prev < U64
    ensures var v' := Step(Some(opt), Some(v), now).entry.value;
            v'.curr <= v'.rate <= v'.curr + v'.prev && SlidingAverage(opt, v', now)
  {
    RateFormula(opt, v, now);
    var v' := Step(Some(opt), Some(v), now).entry.value;
    RateIs(opt.interval - (now - v'.time), v'.prev, opt.interval, v'.curr);
  }

  lemma TwoCountsFit(windows: seq<nat>, w: nat, u: int)
    requires w != u
    ensures multiset(windows)[w] + (if u < 0 then 0 else multiset(windows)[u]) <= |windows|
  {
    var m := multiset(windows);
    if u >= 0 {
      var k: nat := u;
      var rest := m[w := 0];
      assert |rest[k := 0]| + rest[k] == |rest|;
      assert |rest| + m[w] == |m|;
    }
  }

  lemma ScaledIs(product: nat, prev: nat, interval: nat, curr: nat)
    requires product <= prev * interval && interval > 0 && curr + prev < U64
    ensures curr <= Scaled(product, interval, curr) <= curr + prev
    ensures Scaled(product, interval, curr) == (product % U64) / interval + curr
  {
    var m := product % U64;
    assert m <= product;
    DivLe(m, prev, interval);
  }

  lemma RateIs(slide: nat, prev: nat, interval: nat, curr: nat)
    requires slide <= interval && interval > 0 && curr + prev < U64
    ensures curr <= Rate(slide, prev, interval, curr) <= curr + prev
    ensures Rate(slide, prev, interval, curr) == Share(slide, prev, interval) + curr
  {
    assert slide * prev <= prev * interval;
    ScaledIs(slide * prev, prev, interval, curr);
  }

  lemma RateFormula(opt: Options, v: Value, now: nat)
    requires opt.Active()
    requires var s := Slid(v, opt.interval, now); s.time <= now <= s.time + opt.interval
    ensures var v' := Step(Some(opt), Some(v), now).entry.value;
            v'.time <= now <= v'.time + opt.interval
            && v'.rate == Rate(opt.interval - (now - v'.time), v'.prev, opt.interval, v'.curr)
  {
    var s := Slid(v, opt.interval, now);
    Word(opt.interval - (now - s.time));
    SameRate((opt.interval - (now - s.time)) % U64, opt.interval - (now - s.time), s.prev, opt.interval,
             (s.curr + 1) % U64);
  }

  lemma Word(x: nat)
    requires x < U64
    ensures x % U64 == x
  {
  }

  lemma SameRate(x: nat, y: nat, prev: nat, interval: nat, curr: nat)
    requires x == y && interval > 0
    ensures Rate(x, prev, interval, curr) == Rate(y, prev, interval, curr)
  {
  }

  // ---------------------------------------------------------------- throttling

  /** The event at the end of `times` makes the rate reach the limit. */
  predicate Reaches(opt: Options, start: Option<Value>, times: seq<nat>)
  {
    && (|times| > 1 || (times != [] && start.Some?))
    && After(opt, start, times).Some? && After(opt, start, times).value.rate >= opt.events
  }

  /** Some event so far made the rate reach the limit. */
  ghost predicate ReachedBy(opt: Options, start: Option<Value>, times: seq<nat>)
  {
    exists k :: 0 <= k <= |times| && Reaches(opt, start, times[..k])
  }

  lemma ReachedStep(opt: Options, start: Option<Value>, times: seq<nat>)
    requires times != []
    ensures ReachedBy(opt, start, times)
            <==> Reaches(opt, start, times) || ReachedBy(opt, start, times[..|times| - 1])
  {
    var init := times[..|times| - 1];
    assert times[..|times|] == times;
    if ReachedBy(opt, start, init) {
      var k :| 0 <= k <= |init| && Reaches(opt, start, init[..k]);
      assert times[..k] == init[..k];
    }
    if ReachedBy(opt, start, times) && !Reaches(opt, start, times) {
      var k :| 0 <= k <= |times| && Reaches(opt, start, times[..k]);
      assert times[..k] == init[..k];
    }
  }

  /**
   As long as nothing clears the mark, an event passes exactly until the rate first reaches the
   limit, and the one message is sent by the event that makes it do so.
   */
  lemma {:induction false} ThrottledFromFirstReach(opt: Options, start: Option<Value>, times: seq<nat>)
    requires opt.interval > 0 && Fresh(start) && times != [] && forall i :: 0 <= i < |times| ==> times[i] > 0
    ensures After(opt, start, times).Some?
    ensures After(opt, start, times).value.throttled == 0 <==> !ReachedBy(opt, start, times)
    ensures var init := times[..|times| - 1];
            var out := Step(Some(opt), After(opt, start, init), times[|times| - 1]);
            && (out.pass <==> !ReachedBy(opt, start, times))
            && (out.sent <==> Reaches(opt, start, times) && !ReachedBy(opt, start, init))
    decreases |times|
  {
    var init := times[..|times| - 1];
    ReachedStep(opt, start, times);
    if init != [] {
      ThrottledFromFirstReach(opt, start, init);
    } else {
      assert !ReachedBy(opt, start, init);
    }
  }

  /** Event number `k`, counted from 1, is the first to make the rate reach the limit. */
  ghost predicate IsFirstReach(opt: Options, start: Option<Value>, times: seq<nat>, k: nat)
    requires 0 < k <= |times|
  {
    Reaches(opt, start, times[..k]) && !ReachedBy(opt, start, times[..k - 1])
  }

  /** A mark stays as it is, and a new one is the time of its event. */
  lemma MarkStep(opt: Options, start: Option<Value>, init: seq<nat>, now: nat)
    requires opt.interval > 0 && After(opt, start, init).Some?
    ensures After(opt, start, init + [now]).Some?
    ensures var v, v' := After(opt, start, init).value, After(opt, start, init + [now]).value;
            v'.throttled == if v.throttled == 0 && v'.rate >= opt.events then now else v.throttled
  {
    assert (init + [now])[..|init|] == init;
  }

  lemma MarkAtFirstReach(opt: Options, start: Option<Value>, init: seq<nat>, now: nat)
    requires opt.interval > 0 && Fresh(start) && forall i :: 0 <= i < |init| ==> init[i] > 0
    requires Reaches(opt, start, init + [now]) && !ReachedBy(opt, start, init)
    ensures After(opt, start, init + [now]).value.throttled == now
  {
    if init != [] {
      ThrottledFromFirstReach(opt, start, init);
    }
    MarkStep(opt, start, init, now);
  }

  /** From the event that first makes the rate reach the limit on, the throttle mark is its time. */
  lemma {:induction false} MarkIsFirstReach(opt: Options, start: Option<Value>, times: seq<nat>, k: nat)
    requires opt.interval > 0 && Fresh(start) && forall i :: 0 <= i < |times| ==> times[i] > 0
    requires 0 < k <= |times| && IsFirstReach(opt, start, times, k)
    ensures After(opt, start, times).Some? && After(opt, start, times).value.throttled == times[k - 1]
    decreases |times|
  {
    var n := |times| - 1;
    var init := times[..n];
    assert times == init + [times[n]] && times[..n + 1] == times;
    if k == n + 1 {
      assert times[..k - 1] == init;
      MarkAtFirstReach(opt, start, init, times[n]);
    } else {
      assert times[..k] == init[..k] && times[..k - 1] == init[..k - 1];
      MarkIsFirstReach(opt, start, init, k);
      MarkStep(opt, start, init, times[n]);
    }
  }

  // ---------------------------------------------------------------- without a limit

  /** The slot after events at `times` under any options, or none. */
  function SlotAfter(opt: Option<Options>, start: Option<Value>, times: seq<nat>): Option<Value>
  {
    if times == [] then start
    else Step(opt, SlotAfter(opt, start, times[..|times| - 1]), times[|times| - 1]).entry
  }

  /** Without options, or with interval 0, every event passes, no message is sent and no slot changes. */
  lemma {:induction false} UnlimitedPasses(opt: Option<Options>, start: Option<Value>, times: seq<nat>, k: nat)
    requires opt.Some? ==> opt.value.interval == 0
    requires k <= |times|
    ensures SlotAfter(opt, start, times[..k]) == start
    ensures k < |times| ==>
              var out := Step(opt, SlotAfter(opt, start, times[..k]), times[k]);
              out.pass && !out.sent && out.entry == start
  {
    if k > 0 {
      UnlimitedPasses(opt, start, times, k - 1);
      assert times[..k][..k - 1] == times[..k - 1];
    }
  }

  // ---------------------------------------------------------------- the code's in-place form

  /** One CPU's slot of `cgroup_rate_map` for one cgroup. */
  class Slot {
    var present: bool
    var curr: nat
    var prev: nat
    var time: nat
    var rate: nat
    var throttled: nat

    ghost function Entry(): Option<Value>
      reads this
    {
      if present then Some(Value(curr, prev, time, rate, throttled)) else None
    }

    constructor ()
      ensures Entry() == None
    {
      present := false;
      curr, prev, time, rate, throttled := 0, 0, 0, 0, 0;
    }

    method CgroupRate(opt: Option<Options>, now: nat) returns (pass: bool, sent: bool)
      modifies this
      ensures Outcome(Entry(), pass, sent) == Step(opt, old(Entry()), now)
    {
      sent := false;
      if opt.None? {
        return true, false;
      }
      var interval := opt.value.interval;
      if interval == 0 {
        return true, false;
      }
      if !present {
        present := true;
        time := (now / interval) * interval;
        curr, prev, rate, throttled := 1, 0, 0, 0;
        return true, false;
      }
      var delta := (now - time) % U64;
      if delta > interval {
        if delta > (2 * interval) % U64 {
          prev := 0;
          time := (now / interval) * interval;
        } else {
          prev := curr;
          time := (time + interval) % U64;
        }
        curr := 0;
      }
      curr := (curr + 1) % U64;
      var slide := (interval - (now - time)) % U64;
      rate := (((slide * prev) % U64) / interval + curr) % U64;
      if throttled == 0 && rate >= opt.value.events {
        throttled := now;
        sent := true;
      }
      pass := throttled == 0;
    }
  }
}
