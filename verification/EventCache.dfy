/**
 The event cache (pkg/eventcache/eventcache.go): events that lack process information wait in a
 slice; every tick retries each of them and compacts the slice in place.
 */
module EventCache {

  datatype Event = Event(body: string, notify: bool)

  /** `id` numbers the insertions; `internal` says that the process was found. */
  datatype Obj = Obj(id: nat, event: Event, internal: bool, color: nat)

  /** What the lookups of one tick return for one event. */
  datatype Outcome = Outcome(found: bool, internalFails: bool, retryFails: bool)

  // ---------------------------------------------------------------- one tick

  predicate Fails(e: Obj, o: Outcome)
  {
    (!e.internal && o.internalFails) || o.retryFails
  }

  function Retried(e: Obj, o: Outcome): Obj
  {
    e.(internal := e.internal || o.found, color := if Fails(e, o) then e.color + 1 else e.color)
  }

  /** The event waits for another tick. */
  predicate Stays(e: Obj, o: Outcome, retries: int)
  {
    Fails(e, o) && e.color + 1 < retries
  }

  /** Of the first `n` events, those kept for another tick. */
  function KeptTo(es: seq<Obj>, os: seq<Outcome>, retries: int, n: nat): seq<Obj>
    requires n <= |es| == |os|
  {
    if n == 0 then []
    else
      var before := KeptTo(es, os, retries, n - 1);
      if Stays(es[n - 1], os[n - 1], retries) then before + [Retried(es[n - 1], os[n - 1])] else before
  }

  /** Of the first `n` events, those that leave. */
  function LeavingTo(es: seq<Obj>, os: seq<Outcome>, retries: int, n: nat): seq<Obj>
    requires n <= |es| == |os|
  {
    if n == 0 then []
    else
      var before := LeavingTo(es, os, retries, n - 1);
      if Stays(es[n - 1], os[n - 1], retries) then before else before + [Retried(es[n - 1], os[n - 1])]
  }

  function Kept(es: seq<Obj>, os: seq<Outcome>, retries: int): seq<Obj>
    requires |es| == |os|
  {
    KeptTo(es, os, retries, |es|)
  }

  function Leaving(es: seq<Obj>, os: seq<Outcome>, retries: int): seq<Obj>
    requires |es| == |os|
  {
    LeavingTo(es, os, retries, |es|)
  }

  /** The events handed to the listener. */
  function Notified(es: seq<Obj>): seq<Event>
  {
    if es == [] then []
    else
      var n := |es| - 1;
      if es[n].event.notify then Notified(es[..n]) + [es[n].event] else Notified(es[..n])
  }

  // ---------------------------------------------------------------- runs

  datatype Op = Insert(event: Event, internal: bool) | Tick(os: seq<Outcome>)

  datatype State = State(pending: seq<Obj>, left: seq<Obj>)

  /** A tick of the wrong shape (not one outcome for each waiting event) does nothing. */
  function Step(s: State, op: Op, id: nat, retries: int): State
  {
    match op
    case Insert(event, internal) => s.(pending := s.pending + [Obj(id, event, internal, 0)])
    case Tick(os) =>
      if |os| != |s.pending| then s
      else State(Kept(s.pending, os, retries), s.left + Leaving(s.pending, os, retries))
  }

  function Run(ops: seq<Op>, retries: int): State
  {
    if ops == [] then State([], [])
    else
      var n := |ops| - 1;
      Step(Run(ops[..n], retries), ops[n], |Inserted(ops[..n])|, retries)
  }

  function Inserted(ops: seq<Op>): seq<Event>
  {
    if ops == [] then []
    else
      var n := |ops| - 1;
      if ops[n].Insert? then Inserted(ops[..n]) + [ops[n].event] else Inserted(ops[..n])
  }

  function Ticks(ops: seq<Op>): nat
  {
    if ops == [] then 0 else Ticks(ops[..|ops| - 1]) + if ops[|ops| - 1].Tick? then 1 else 0
  }

  /** For each insertion, the number of ticks before it. */
  function Born(ops: seq<Op>): (r: seq<nat>)
    ensures |r| == |Inserted(ops)|
  {
    if ops == [] then []
    else
      var n := |ops| - 1;
      if ops[n].Insert? then Born(ops[..n]) + [Ticks(ops[..n])] else Born(ops[..n])
  }

  predicate Shaped(ops: seq<Op>, retries: int)
  {
    ops != [] ==>
      var n := |ops| - 1;
      Shaped(ops[..n], retries) && (ops[n].Tick? ==> |ops[n].os| == |Run(ops[..n], retries).pending|)
  }

  // ---------------------------------------------------------------- each event leaves exactly once

  function Occurs(es: seq<Obj>, id: nat): nat
  {
    if es == [] then 0 else Occurs(es[..|es| - 1], id) + if es[|es| - 1].id == id then 1 else 0
  }

  lemma {:induction false} OccursConcat(a: seq<Obj>, b: seq<Obj>, id: nat)
    ensures Occurs(a + b, id) == Occurs(a, id) + Occurs(b, id)
    decreases |b|
  {
    if b == [] {
      assert a + b == a;
    } else {
      OccursConcat(a, b[..|b| - 1], id);
      assert (a + b)[..|a + b| - 1] == a + b[..|b| - 1];
    }
  }

  lemma OccursAppend(es: seq<Obj>, e: Obj, id: nat)
    ensures Occurs(es + [e], id) == Occurs(es, id) + if e.id == id then 1 else 0
  {
    assert (es + [e])[..|es|] == es;
  }

  lemma OccursTake(es: seq<Obj>, n: nat, id: nat)
    requires 0 < n <= |es|
    ensures Occurs(es[..n], id) == Occurs(es[..n - 1], id) + if es[n - 1].id == id then 1 else 0
  {
    assert es[..n][..n - 1] == es[..n - 1];
  }

  /** A tick neither loses nor duplicates an event. */
  lemma {:induction false} TickSplits(es: seq<Obj>, os: seq<Outcome>, retries: int, n: nat, id: nat)
    requires n <= |es| == |os|
    ensures Occurs(KeptTo(es, os, retries, n), id) + Occurs(LeavingTo(es, os, retries, n), id) == Occurs(es[..n], id)
    decreases n
  {
    if n > 0 {
      var e := Retried(es[n - 1], os[n - 1]);
      TickSplits(es, os, retries, n - 1, id);
      OccursTake(es, n, id);
      if Stays(es[n - 1], os[n - 1], retries) {
        OccursAppend(KeptTo(es, os, retries, n - 1), e, id);
      } else {
        OccursAppend(LeavingTo(es, os, retries, n - 1), e, id);
      }
    }
  }

  /** Over any run each inserted event is either waiting or has left, once; nothing else appears. */
  lemma {:induction false} ExactlyOnce(ops: seq<Op>, retries: int, id: nat)
    ensures Occurs(Run(ops, retries).pending, id) + Occurs(Run(ops, retries).left, id)
            == if id < |Inserted(ops)| then 1 else 0
    decreases |ops|
  {
    if ops != [] {
      var n := |ops| - 1;
      var s := Run(ops[..n], retries);
      ExactlyOnce(ops[..n], retries, id);
      match ops[n] {
        case Insert(event, internal) =>
          var e := Obj(|Inserted(ops[..n])|, event, internal, 0);
          OccursAppend(s.pending, e, id);
        case Tick(os) =>
          if |os| == |s.pending| {
            TickSplits(s.pending, os, retries, |os|, id);
            assert s.pending[..|os|] == s.pending;
            OccursConcat(s.left, Leaving(s.pending, os, retries), id);
          }
      }
    }
  }

  // ---------------------------------------------------------------- order, and when an event leaves

  /** An event with its number, as inserted, and a color that counts its ticks. */
  ghost predicate Aged(ops: seq<Op>, e: Obj, retries: int)
  {
    && e.id < |Inserted(ops)|
    && e.event == Inserted(ops)[e.id]
    && e.color == Ticks(ops) - Born(ops)[e.id]
    && (e.color > 0 ==> e.color < retries)
  }

  ghost predicate AllAged(ops: seq<Op>, es: seq<Obj>, retries: int)
  {
    forall e :: e in es ==> Aged(ops, e, retries)
  }

  ghost predicate Ordered(es: seq<Obj>)
  {
    forall i, j :: 0 <= i < j < |es| ==> es[i].id < es[j].id
  }

  /** The kept events are those that failed and have ticks left. */
  lemma {:induction false} KeptFrom(es: seq<Obj>, os: seq<Outcome>, retries: int, n: nat, k: nat) returns (i: nat)
    requires n <= |es| == |os| && k < |KeptTo(es, os, retries, n)|
    ensures i < n && Stays(es[i], os[i], retries) && KeptTo(es, os, retries, n)[k] == Retried(es[i], os[i])
    decreases n
  {
    if k < |KeptTo(es, os, retries, n - 1)| {
      i := KeptFrom(es, os, retries, n - 1, k);
    } else {
      i := n - 1;
    }
  }

  lemma {:induction false} KeptOrdered(es: seq<Obj>, os: seq<Outcome>, retries: int, n: nat)
    requires n <= |es| == |os| && Ordered(es)
    ensures Ordered(KeptTo(es, os, retries, n))
    ensures forall e :: e in KeptTo(es, os, retries, n) ==> n > 0 && e.id <= es[n - 1].id
    decreases n
  {
    if n > 0 {
      KeptOrdered(es, os, retries, n - 1);
      assert forall e :: e in KeptTo(es, os, retries, n - 1) ==> e.id < es[n - 1].id;
    }
  }

  lemma KeptAged(ops: seq<Op>, retries: int)
    requires Shaped(ops, retries) && ops != [] && ops[|ops| - 1].Tick?
    requires AllAged(ops[..|ops| - 1], Run(ops[..|ops| - 1], retries).pending, retries)
    ensures AllAged(ops, Run(ops, retries).pending, retries)
  {
    var n := |ops| - 1;
    var es, os := Run(ops[..n], retries).pending, ops[n].os;
    forall e | e in Run(ops, retries).pending
      ensures Aged(ops, e, retries)
    {
      var k :| 0 <= k < |Kept(es, os, retries)| && Kept(es, os, retries)[k] == e;
      var i := KeptFrom(es, os, retries, |es|, k);
      assert Aged(ops[..n], es[i], retries);
    }
  }

  /**
   Over any run the waiting events are in order of insertion, unchanged, and each has a color equal
   to the ticks since its insertion; past the first tick that is below the retry limit, so an event
   leaves within max(1, retries) ticks.
   */
  lemma {:induction false} WaitingAges(ops: seq<Op>, retries: int)
    requires Shaped(ops, retries)
    ensures Ordered(Run(ops, retries).pending)
    ensures AllAged(ops, Run(ops, retries).pending, retries)
    decreases |ops|
  {
    if ops != [] {
      var n := |ops| - 1;
      var es := Run(ops[..n], retries).pending;
      WaitingAges(ops[..n], retries);
      if ops[n].Tick? {
        KeptAged(ops, retries);
        KeptOrdered(es, ops[n].os, retries, |es|);
      } else {
        forall e | e in es
          ensures Aged(ops, e, retries) && e.id < |Inserted(ops[..n])|
        {
          assert Aged(ops[..n], e, retries);
        }
      }
    }
  }

  /**
   At a tick a waiting event leaves exactly on success or on its last retry: the tick that brings
   the ticks since its insertion to the limit.
   */
  lemma LeavesInTime(ops: seq<Op>, retries: int, os: seq<Outcome>, i: nat)
    requires Shaped(ops, retries) && |os| == |Run(ops, retries).pending| && i < |os|
    ensures var e := Run(ops, retries).pending[i];
            && e.id < |Born(ops)|
            && (Occurs(Leaving(Run(ops, retries).pending, os, retries), e.id) == 1
                <==> || ((e.internal || !os[i].internalFails) && !os[i].retryFails)
                     || Ticks(ops) + 1 - Born(ops)[e.id] >= retries)
  {
    var es := Run(ops, retries).pending;
    WaitingAges(ops, retries);
    assert Aged(ops, es[i], retries);
    LeavingAt(es, os, retries, |es|, i);
  }

  lemma {:induction false} LeavingAt(es: seq<Obj>, os: seq<Outcome>, retries: int, n: nat, i: nat)
    requires n <= |es| == |os| && Ordered(es) && i < |es|
    ensures Occurs(LeavingTo(es, os, retries, n), es[i].id)
            == if i < n && !Stays(es[i], os[i], retries) then 1 else 0
    decreases n
  {
    if n > 0 {
      LeavingAt(es, os, retries, n - 1, i);
      OccursAppend(LeavingTo(es, os, retries, n - 1), Retried(es[n - 1], os[n - 1]), es[i].id);
      assert es[n - 1].id == es[i].id <==> i == n - 1;
    }
  }

  // ---------------------------------------------------------------- the code's in-place form

  lemma NotifiedAppend(es: seq<Obj>, e: Obj)
    ensures Notified(es + [e]) == if e.event.notify then Notified(es) + [e.event] else Notified(es)
  {
    assert (es + [e])[..|es|] == es;
  }

  lemma {:induction false} NotifiedConcat(a: seq<Obj>, b: seq<Obj>)
    ensures Notified(a + b) == Notified(a) + Notified(b)
    decreases |b|
  {
    if b == [] {
      assert a + b == a;
    } else {
      var init, e := b[..|b| - 1], b[|b| - 1];
      assert a + b == (a + init) + [e] && b == init + [e];
      NotifiedAppend(a + init, e);
      NotifiedAppend(init, e);
      NotifiedConcat(a, init);
    }
  }

  /** The listener gets the events that ask for it, each once and in order. */
  lemma NotifiesInOrder(a: seq<Obj>, e: Obj, b: seq<Obj>)
    ensures Notified([]) == []
    ensures Notified(a + [e] + b) == Notified(a) + (if e.event.notify then [e.event] else []) + Notified(b)
  {
    NotifiedConcat(a + [e], b);
    NotifiedAppend(a, e);
  }

  /** The slice during the rewrite: kept events up to `tmp`, events not yet read from `i` on. */
  ghost predicate Compact(now: seq<Obj>, es: seq<Obj>, os: seq<Outcome>, retries: int, i: nat, tmp: nat)
    requires |now| == |es| == |os|
  {
    && tmp <= i <= |es|
    && now[..tmp] == KeptTo(es, os, retries, i)
    && forall j :: i <= j < |es| ==> now[j] == es[j]
  }

  lemma CompactKeeps(now: seq<Obj>, es: seq<Obj>, os: seq<Outcome>, retries: int, i: nat, tmp: nat)
    requires |now| == |es| == |os| && i < |es| && Compact(now, es, os, retries, i, tmp)
    requires Stays(es[i], os[i], retries)
    ensures Compact(now[tmp := Retried(es[i], os[i])], es, os, retries, i + 1, tmp + 1)
  {
    var e := Retried(es[i], os[i]);
    assert now[tmp := e][..tmp + 1] == now[..tmp] + [e];
  }

  /** What the listener has been told once the first `n` events are dealt with. */
  ghost predicate NotifiedTo(now: seq<Event>, before: seq<Event>, es: seq<Obj>, os: seq<Outcome>, retries: int,
                             n: nat)
    requires n <= |es| == |os|
  {
    now == before + Notified(LeavingTo(es, os, retries, n))
  }

  lemma NotifiedNext(now: seq<Event>, before: seq<Event>, es: seq<Obj>, os: seq<Outcome>, retries: int, n: nat)
    requires n < |es| == |os| && NotifiedTo(now, before, es, os, retries, n)
    ensures Stays(es[n], os[n], retries) ==> NotifiedTo(now, before, es, os, retries, n + 1)
    ensures !Stays(es[n], os[n], retries) ==>
              NotifiedTo(if es[n].event.notify then now + [es[n].event] else now, before, es, os, retries, n + 1)
  {
    NotifiedAppend(LeavingTo(es, os, retries, n), Retried(es[n], os[n]));
  }

  lemma CompactSkips(now: seq<Obj>, es: seq<Obj>, os: seq<Outcome>, retries: int, i: nat, tmp: nat)
    requires |now| == |es| == |os| && i < |es| && Compact(now, es, os, retries, i, tmp)
    requires !Stays(es[i], os[i], retries)
    ensures Compact(now, es, os, retries, i + 1, tmp)
  {
  }

  class Cache {
    var cache: array<Obj>
    var len: nat
    var notified: seq<Event>

    ghost predicate Valid()
      reads this
    {
      len <= cache.Length
    }

    ghost function Pending(): seq<Obj>
      requires Valid()
      reads this, cache
    {
      cache[..len]
    }

    constructor ()
      ensures Valid() && Pending() == [] && notified == [] && fresh(cache)
    {
      cache, len, notified := new Obj[0], 0, [];
    }

    /** Rewrites the slice over itself; the write index never passes the read index. */
    method HandleEvents(os: seq<Outcome>, retries: int)
      requires Valid() && |os| == len
      modifies this, cache
      ensures Valid() && (cache == old(cache) || fresh(cache))
      ensures Pending() == Kept(old(Pending()), os, retries)
      ensures notified == old(notified) + Notified(Leaving(old(Pending()), os, retries))
      ensures cache.Length <= 2 * len
    {
      ghost var es, before := Pending(), notified;
      var tmp := 0;
      for i := 0 to len
        invariant len == |es| && cache == old(cache)
        invariant Compact(cache[..len], es, os, retries, i, tmp)
        invariant NotifiedTo(notified, before, es, os, retries, i)
      {
        ghost var now := cache[..len];
        assert cache[i] == now[i] == es[i];
        NotifiedNext(notified, before, es, os, retries, i);
        var event, failed := Retry(cache[i], os[i]);
        if failed {
          event := event.(color := event.color + 1);
          if event.color < retries {
            assert event == Retried(es[i], os[i]);
            CompactKeeps(now, es, os, retries, i, tmp);
            cache[tmp] := event;
            assert cache[..len] == now[tmp := event];
            tmp := tmp + 1;
            continue;
          }
        }
        CompactSkips(now, es, os, retries, i, tmp);
        if event.event.notify {
          notified := notified + [event.event];
        }
      }
      assert cache[..len][..tmp] == cache[..tmp];
      len := tmp;
      Clip();
    }

    /** The lookups of one event: of its process if not known, then of the rest. */
    method Retry(e: Obj, o: Outcome) returns (event: Obj, failed: bool)
      ensures failed <==> (!e.internal && o.internalFails) || o.retryFails
      ensures event == e.(internal := e.internal || o.found)
    {
      event, failed := e, false;
      if !event.internal {
        event, failed := event.(internal := o.found), o.internalFails;
      }
      if !failed {
        failed := o.retryFails;
      }
    }

    /** A slice using less than half its array moves to one of its own length. */
    method Clip()
      requires Valid()
      modifies this`cache
      ensures Valid() && (cache == old(cache) || fresh(cache))
      ensures Pending() == old(Pending()) && cache.Length <= 2 * len
    {
      if len * 2 < cache.Length {
        var newSlice := new Obj[len](j requires 0 <= j < len <= cache.Length reads this, cache => cache[j]);
        cache := newSlice;
      }
    }

    /** Appending grows the array, by an amount the runtime chooses, when it is full. */
    method Append(event: Obj, choice: nat)
      requires Valid()
      modifies this`cache, this`len, cache
      ensures Valid() && (cache == old(cache) || fresh(cache))
      ensures Pending() == old(Pending()) + [event]
    {
      if len == cache.Length {
        var bigger := new Obj[len + 1 + choice](j requires 0 <= j reads this, cache =>
                                                  if j < cache.Length then cache[j] else event);
        cache := bigger;
      }
      cache[len] := event;
      len := len + 1;
    }
  }
}
