/** Which paths the compiler accepts: exactly the C paths that no error text stops, and some more. */
module BtfAcceptance {
  import opened Common
  import opened BtfTypes
  import opened BtfResolve

  // ---------------------------------------------------------------- how a fruitless search fails

  /** The text of the failure contains the next path element: the member loop then gives up. */
  predicate Mentions(w: Wording, c: Cause, path: seq<string>, i: nat)
  {
    i + 1 < |path| && Contains(w(c), path[i + 1])
  }

  /** The failures, in order, of the anonymous members among the first `n` that do not offer the name. */
  function FailedBefore(ts: Types, w: Wording, t: TypeId, n: nat, path: seq<string>, i: nat): seq<Cause>
    requires ts.Ranked() && i < |path| && ts.node(t).Aggregate() && n <= |ts.node(t).members|
    decreases ts.rank(t), 0, n
  {
    if n == 0 then []
    else
      var before := FailedBefore(ts, w, t, n - 1, path, i);
      var m := ts.node(t).members[n - 1];
      if m.name == "" && ts.Offer(t, n - 1, path[i]).None? then before + [FailureOf(ts, w, m.ty, path, i)] else before
  }

  /** How the search fails in an anonymous member of type `ty` that does not offer the name. */
  function FailureOf(ts: Types, w: Wording, ty: TypeId, path: seq<string>, i: nat): Cause
    requires ts.Ranked() && i < |path|
    decreases ts.rank(ty), 1, 0
  {
    var u := ts.ResolveNestedTypes(ty);
    if ts.node(u).Aggregate() then
      var causes := FailedBefore(ts, w, u, |ts.node(u).members|, path, i);
      if causes == [] then NotFound(path[i], u) else causes[StopAt(w, causes, path, i, 0)]
    else UnexpectedType(if i > 0 then path[i - 1] else path[i], u)
  }

  /** The first failure from `j` on that is mentioned later, or the last failure. */
  function StopAt(w: Wording, causes: seq<Cause>, path: seq<string>, i: nat, j: nat): (r: nat)
    requires j < |causes|
    ensures j <= r < |causes|
    decreases |causes| - j
  {
    if j + 1 == |causes| || Mentions(w, causes[j], path, i) then j else StopAt(w, causes, path, i, j + 1)
  }

  /** Some failure but the last mentions the next path element. */
  ghost predicate Blocked(w: Wording, causes: seq<Cause>, path: seq<string>, i: nat)
  {
    exists j :: 0 <= j < |causes| - 1 && Mentions(w, causes[j], path, i)
  }

  lemma {:induction false} StopsAt(w: Wording, causes: seq<Cause>, path: seq<string>, i: nat, j: nat, r: nat)
    requires j <= r < |causes| && forall k :: j <= k < r ==> !Mentions(w, causes[k], path, i)
    requires r + 1 == |causes| || Mentions(w, causes[r], path, i)
    ensures StopAt(w, causes, path, i, j) == r
    decreases r - j
  {
    if j < r {
      StopsAt(w, causes, path, i, j + 1, r);
    }
  }

  lemma {:induction false} FailedGrows(ts: Types, w: Wording, t: TypeId, n: nat, m: nat, path: seq<string>, i: nat)
    requires ts.Ranked() && i < |path| && ts.node(t).Aggregate() && n <= m <= |ts.node(t).members|
    ensures FailedBefore(ts, w, t, n, path, i) <= FailedBefore(ts, w, t, m, path, i)
    decreases m - n
  {
    if n < m {
      FailedGrows(ts, w, t, n, m - 1, path, i);
    }
  }

  function LastOf(causes: seq<Cause>): Option<Cause>
  {
    if causes == [] then None else Some(causes[|causes| - 1])
  }

  /** What the loop has met when it reaches member `k` without having given up. */
  ghost predicate Met(ts: Types, w: Wording, t: TypeId, k: nat, lastError: Option<Cause>, path: seq<string>, i: nat)
    requires ts.Ranked() && i < |path| && ts.node(t).Aggregate() && k <= |ts.node(t).members|
  {
    var causes := FailedBefore(ts, w, t, k, path, i);
    lastError == LastOf(causes) && !Blocked(w, causes, path, i)
  }

  lemma OneMore(w: Wording, causes: seq<Cause>, c: Cause, path: seq<string>, i: nat)
    requires !Blocked(w, causes, path, i)
    ensures LastOf(causes + [c]) == Some(c)
    ensures Blocked(w, causes + [c], path, i)
            <==> LastOf(causes).Some? && Mentions(w, LastOf(causes).value, path, i)
  {
    var more := causes + [c];
    if causes != [] {
      assert more[|more| - 2] == causes[|causes| - 1];
    }
  }

  /** One more failure: the loop goes on unless the previous one is mentioned. */
  lemma MetFailure(ts: Types, w: Wording, t: TypeId, k: nat, lastError: Option<Cause>, path: seq<string>, i: nat)
    requires ts.Ranked() && i < |path| && ts.node(t).Aggregate() && k < |ts.node(t).members|
    requires ts.node(t).members[k].name == "" && ts.Offer(t, k, path[i]).None?
    requires Met(ts, w, t, k, lastError, path, i)
    ensures var c := FailureOf(ts, w, ts.node(t).members[k].ty, path, i);
            if lastError.Some? && Mentions(w, lastError.value, path, i)
            then Blocked(w, FailedBefore(ts, w, t, k + 1, path, i), path, i)
            else Met(ts, w, t, k + 1, Some(c), path, i)
  {
    OneMore(w, FailedBefore(ts, w, t, k, path, i), FailureOf(ts, w, ts.node(t).members[k].ty, path, i), path, i);
  }

  lemma BlockedStays(w: Wording, causes: seq<Cause>, more: seq<Cause>, path: seq<string>, i: nat)
    requires causes <= more && Blocked(w, causes, path, i)
    ensures Blocked(w, more, path, i)
  {
    var j :| 0 <= j < |causes| - 1 && Mentions(w, causes[j], path, i);
    assert more[j] == causes[j];
  }

  /** The loop passes over a member that does not offer the name, or gives up there. */
  lemma {:induction false} PassedOver(ts: Types, w: Wording, args: Args, t: TypeId, k: nat,
                                      lastError: Option<Cause>, path: seq<string>, i: nat) returns (args': Args)
    requires ts.WellFormed() && i < |path| <= MAX_BTF_ARG_DEPTH
    requires ts.node(t).Aggregate() && k < |ts.node(t).members| && ts.Offer(t, k, path[i]).None?
    ensures var m := ts.node(t).members[k];
            Members(ts, w, args, t, k, lastError, path, i)
            == if m.name != "" then Members(ts, w, args', t, k + 1, lastError, path, i)
               else if lastError.Some? && Mentions(w, lastError.value, path, i) then (args', Failed(lastError.value))
               else Members(ts, w, args', t, k + 1, Some(FailureOf(ts, w, m.ty, path, i)), path, i)
    decreases ts.rank(t), |ts.node(t).members| - k, 0
  {
    var m := ts.node(t).members[k];
    args' := args;
    if m.name == "" {
      var u := ts.ResolveNestedTypes(m.ty);
      var a1 := Place(args, i, m.offset);
      assert ts.AnonymousOk(m.ty);
      if ts.node(u).Aggregate() {
        FruitlessFails(ts, w, a1, u, 0, None, path, i);
      }
      args' := Resolve(ts, w, a1, u, path, i).0;
      assert Resolve(ts, w, a1, u, path, i).1 == Failed(FailureOf(ts, w, m.ty, path, i));
    }
  }

  /** A search that finds no member fails with the cause that its types and the wording determine. */
  lemma {:induction false} FruitlessFails(ts: Types, w: Wording, args: Args, t: TypeId, k: nat,
                                          lastError: Option<Cause>, path: seq<string>, i: nat)
    requires ts.WellFormed() && i < |path| <= MAX_BTF_ARG_DEPTH
    requires ts.node(t).Aggregate() && k <= |ts.node(t).members| && ts.Find(t, k, path[i]).None?
    requires Met(ts, w, t, k, lastError, path, i)
    ensures var causes := FailedBefore(ts, w, t, |ts.node(t).members|, path, i);
            Members(ts, w, args, t, k, lastError, path, i).1
            == Failed(if causes == [] then NotFound(path[i], t) else causes[StopAt(w, causes, path, i, 0)])
    decreases ts.rank(t), |ts.node(t).members| - k, 1
  {
    var members := ts.node(t).members;
    var causes, all := FailedBefore(ts, w, t, k, path, i), FailedBefore(ts, w, t, |members|, path, i);
    FailedGrows(ts, w, t, k, |members|, path, i);
    if k == |members| {
      if causes != [] {
        StopsAt(w, all, path, i, 0, |all| - 1);
      }
    } else {
      var args' := PassedOver(ts, w, args, t, k, lastError, path, i);
      if members[k].name != "" {
        FruitlessFails(ts, w, args', t, k + 1, lastError, path, i);
      } else {
        MetFailure(ts, w, t, k, lastError, path, i);
        if lastError.Some? && Mentions(w, lastError.value, path, i) {
          FailedGrows(ts, w, t, k + 1, |members|, path, i);
          StopsAt(w, all, path, i, 0, |causes| - 1);
        } else {
          FruitlessFails(ts, w, args', t, k + 1, Some(FailureOf(ts, w, members[k].ty, path, i)), path, i);
        }
      }
    }
  }

  // ---------------------------------------------------------------- when a C path is accepted

  /** The first member from `k` on that offers the name. */
  function OfferedBy(ts: Types, t: TypeId, k: nat, name: string): (n: nat)
    requires ts.Ranked() && ts.node(t).Aggregate() && k <= |ts.node(t).members| && ts.Find(t, k, name).Some?
    ensures k <= n < |ts.node(t).members| && ts.Offer(t, n, name).Some? && ts.Find(t, k, name) == ts.Offer(t, n, name)
    decreases |ts.node(t).members| - k
  {
    if ts.Offer(t, k, name).Some? then k else OfferedBy(ts, t, k + 1, name)
  }

  /**
   The search for element `i` in aggregate `t` reaches the member: of the anonymous members tried in
   vain before it, none but the last fails with a text that contains the next element.
   */
  ghost predicate Reached(ts: Types, w: Wording, t: TypeId, path: seq<string>, i: nat)
    requires ts.Ranked() && i < |path| && ts.node(t).Aggregate() && ts.Find(t, 0, path[i]).Some?
    decreases ts.rank(t)
  {
    var n := OfferedBy(ts, t, 0, path[i]);
    && !Blocked(w, FailedBefore(ts, w, t, n, path, i), path, i)
    && (ts.node(t).members[n].name == "" ==> Reached(ts, w, ts.ResolveNestedTypes(ts.node(t).members[n].ty), path, i))
  }

  /** The aggregate searched for a path element: the current object, or what a pointer points to. */
  function Searched(ts: Types, t: TypeId, element: string): Option<TypeId>
    requires ts.Ranked()
  {
    if ts.node(t).Aggregate() then Some(t)
    else if ts.node(t).Pointer? && ParseArrayIdxStr(element).None? then Some(ts.ResolveNestedTypes(ts.node(t).target))
    else None
  }

  /** No search along the path gives up. */
  ghost predicate NeverGivesUp(ts: Types, w: Wording, t: TypeId, path: seq<string>, i: nat)
    requires ts.Ranked() && i < |path| && CDefined(ts, t, path, i)
    decreases |path| - i
  {
    && (Searched(ts, t, path[i]).Some? ==> Reached(ts, w, Searched(ts, t, path[i]).value, path, i))
    && (i + 1 < |path| ==> NeverGivesUp(ts, w, NextHop(ts, t, path[i]).value.ty, path, i + 1))
  }

  /** What follows the hop to type `v` is accepted. */
  ghost predicate GoesOn(ts: Types, w: Wording, v: TypeId, path: seq<string>, i: nat)
    requires ts.Ranked() && i < |path| && (i + 1 < |path| ==> CDefined(ts, v, path, i + 1))
  {
    i + 1 < |path| ==> NeverGivesUp(ts, w, v, path, i + 1)
  }

  /** A path with a C meaning is accepted exactly when no search along it gives up. */
  lemma {:induction false} AcceptsCPaths(ts: Types, w: Wording, args: Args, t: TypeId, path: seq<string>, i: nat)
    requires ts.WellFormed() && i < |path| <= MAX_BTF_ARG_DEPTH && CDefined(ts, t, path, i)
    ensures Resolve(ts, w, args, t, path, i).1.Resolved? <==> NeverGivesUp(ts, w, t, path, i)
    decreases |path| - i, ts.rank(t), 2, 0
  {
    var h := NextHop(ts, t, path[i]).value;
    match ts.node(t)
    case Struct(_) => AggregateAccepts(ts, w, args, t, path, i);
    case Union(_) => AggregateAccepts(ts, w, args, t, path, i);
    case Pointer(u) =>
      var a1 := if i > 0 then Mark(args, i - 1) else args;
      if h.how == ByPointerIndex {
        if i + 1 < |path| {
          AcceptsCPaths(ts, w, Place(Mark(a1, i), i, h.offset % U32), h.ty, path, i + 1);
        }
      } else {
        AggregateAccepts(ts, w, a1, ts.ResolveNestedTypes(u), path, i);
      }
    case Array(e, n) =>
      if i + 1 < |path| {
        AcceptsCPaths(ts, w, Place(args, i, h.offset % U32), h.ty, path, i + 1);
      }
    case _ =>
  }

  lemma {:induction false} AggregateAccepts(ts: Types, w: Wording, args: Args, t: TypeId, path: seq<string>, i: nat)
    requires ts.WellFormed() && i < |path| <= MAX_BTF_ARG_DEPTH && ts.node(t).Aggregate()
    requires var f := ts.Find(t, 0, path[i]);
             f.Some? && (i + 1 < |path| ==> CDefined(ts, ts.ResolveNestedTypes(f.value.ty), path, i + 1))
    ensures Members(ts, w, args, t, 0, None, path, i).1.Resolved?
            <==> Reached(ts, w, t, path, i)
                 && GoesOn(ts, w, ts.ResolveNestedTypes(ts.Find(t, 0, path[i]).value.ty), path, i)
    decreases |path| - i, ts.rank(t), 1, |ts.node(t).members| + 1
  {
    MembersAccept(ts, w, args, t, 0, None, path, i);
  }

  lemma NotReached(ts: Types, w: Wording, t: TypeId, k: nat, path: seq<string>, i: nat)
    requires ts.Ranked() && i < |path| && ts.node(t).Aggregate() && ts.Find(t, 0, path[i]).Some?
    requires k <= OfferedBy(ts, t, 0, path[i]) && Blocked(w, FailedBefore(ts, w, t, k, path, i), path, i)
    ensures !Reached(ts, w, t, path, i)
  {
    var n := OfferedBy(ts, t, 0, path[i]);
    FailedGrows(ts, w, t, k, n, path, i);
    BlockedStays(w, FailedBefore(ts, w, t, k, path, i), FailedBefore(ts, w, t, n, path, i), path, i);
  }

  lemma {:induction false} MembersAccept(ts: Types, w: Wording, args: Args, t: TypeId, k: nat, lastError: Option<Cause>,
                                         path: seq<string>, i: nat)
    requires ts.WellFormed() && i < |path| <= MAX_BTF_ARG_DEPTH
    requires ts.node(t).Aggregate() && k <= |ts.node(t).members|
    requires var f := ts.Find(t, 0, path[i]);
             f.Some? && (i + 1 < |path| ==> CDefined(ts, ts.ResolveNestedTypes(f.value.ty), path, i + 1))
    requires k <= OfferedBy(ts, t, 0, path[i]) && Met(ts, w, t, k, lastError, path, i)
    ensures Members(ts, w, args, t, k, lastError, path, i).1.Resolved?
            <==> Reached(ts, w, t, path, i)
                 && GoesOn(ts, w, ts.ResolveNestedTypes(ts.Find(t, 0, path[i]).value.ty), path, i)
    decreases |path| - i, ts.rank(t), 1, |ts.node(t).members| - k, 1
  {
    if k == OfferedBy(ts, t, 0, path[i]) {
      OffererAccepts(ts, w, args, t, lastError, path, i);
    } else {
      NotOfferedBefore(ts, t, 0, k, path[i]);
      if ts.node(t).members[k].name != "" {
        MembersAccept(ts, w, args, t, k + 1, lastError, path, i);
      } else {
        AnonymousAccept(ts, w, args, t, k, lastError, path, i);
      }
    }
  }

  /** Past an anonymous member that does not offer the name. */
  lemma {:induction false} AnonymousAccept(ts: Types, w: Wording, args: Args, t: TypeId, k: nat,
                                           lastError: Option<Cause>, path: seq<string>, i: nat)
    requires ts.WellFormed() && i < |path| <= MAX_BTF_ARG_DEPTH
    requires ts.node(t).Aggregate() && k < |ts.node(t).members|
    requires var f := ts.Find(t, 0, path[i]);
             f.Some? && (i + 1 < |path| ==> CDefined(ts, ts.ResolveNestedTypes(f.value.ty), path, i + 1))
    requires k < OfferedBy(ts, t, 0, path[i]) && Met(ts, w, t, k, lastError, path, i)
    requires ts.node(t).members[k].name == "" && ts.Offer(t, k, path[i]).None?
    ensures Members(ts, w, args, t, k, lastError, path, i).1.Resolved?
            <==> Reached(ts, w, t, path, i)
                 && GoesOn(ts, w, ts.ResolveNestedTypes(ts.Find(t, 0, path[i]).value.ty), path, i)
    decreases |path| - i, ts.rank(t), 1, |ts.node(t).members| - k, 0
  {
    var args' := PassedOver(ts, w, args, t, k, lastError, path, i);
    MetFailure(ts, w, t, k, lastError, path, i);
    if lastError.Some? && Mentions(w, lastError.value, path, i) {
      NotReached(ts, w, t, k + 1, path, i);
    } else {
      MembersAccept(ts, w, args', t, k + 1, Some(FailureOf(ts, w, ts.node(t).members[k].ty, path, i)), path, i);
    }
  }

  /** At the member that offers the name, the path is accepted if what is nested in it is. */
  lemma {:induction false} OffererAccepts(ts: Types, w: Wording, args: Args, t: TypeId, lastError: Option<Cause>,
                                          path: seq<string>, i: nat)
    requires ts.WellFormed() && i < |path| <= MAX_BTF_ARG_DEPTH && ts.node(t).Aggregate()
    requires var f := ts.Find(t, 0, path[i]);
             f.Some? && (i + 1 < |path| ==> CDefined(ts, ts.ResolveNestedTypes(f.value.ty), path, i + 1))
    requires !Blocked(w, FailedBefore(ts, w, t, OfferedBy(ts, t, 0, path[i]), path, i), path, i)
    ensures Members(ts, w, args, t, OfferedBy(ts, t, 0, path[i]), lastError, path, i).1.Resolved?
            <==> Reached(ts, w, t, path, i)
                 && GoesOn(ts, w, ts.ResolveNestedTypes(ts.Find(t, 0, path[i]).value.ty), path, i)
    decreases |path| - i, ts.rank(t), 1, 0
  {
    var n := OfferedBy(ts, t, 0, path[i]);
    var m := ts.node(t).members[n];
    var a1 := Place(args, i, m.offset);
    if m.name == "" {
      AnonymousDecides(ts, w, args, t, n, lastError, path, i);
      AggregateAccepts(ts, w, a1, ts.ResolveNestedTypes(m.ty), path, i);
    } else if i < |path| - 1 {
      AcceptsCPaths(ts, w, a1, ts.ResolveNestedTypes(m.ty), path, i + 1);
    }
  }

  lemma {:induction false} NotOfferedBefore(ts: Types, t: TypeId, j: nat, k: nat, name: string)
    requires ts.Ranked() && ts.node(t).Aggregate() && j <= k < |ts.node(t).members|
    requires ts.Find(t, j, name).Some? && k < OfferedBy(ts, t, j, name)
    ensures ts.Offer(t, k, name).None?
    decreases k - j
  {
    if j < k {
      NotOfferedBefore(ts, t, j + 1, k, name);
    }
  }

  /**
   Why an element is rejected where there is nothing to search: it is no index of an array, or one
   beyond its end; or the object reached, named by the element before, has no parts at all.
   */
  lemma WhyRejected(ts: Types, w: Wording, args: Args, t: TypeId, path: seq<string>, i: nat)
    requires ts.Ranked() && i < |path| <= MAX_BTF_ARG_DEPTH
    requires NextHop(ts, t, path[i]).None? && !ts.node(t).Aggregate() && !ts.node(t).Pointer?
    ensures Resolve(ts, w, args, t, path, i) ==
            (args, Failed(if !ts.node(t).Array? then UnexpectedType(path[if i == 0 then 0 else i - 1], t)
                          else if exists n :: ParseArrayIdxStr(path[i]) == Some(n)
                          then OutOfBound(ts.node(t).nelems, ParseArrayIdxStr(path[i]).value)
                          else BadIndex(path[i])))
  {
    assert ParseArrayIdxStr(path[i]).Some? ==>
        ParseArrayIdxStr(path[i]) == Some(ParseArrayIdxStr(path[i]).value);
  }

  // ---------------------------------------------------------------- what is accepted beyond C

  /** A member name applied to a pointer to a pointer somewhere along the path. */
  predicate DoublePointer(ts: Types, t: TypeId, path: seq<string>, i: nat)
    requires ts.Ranked() && i < |path|
    decreases |path| - i
  {
    var h := NextHop(ts, t, path[i]);
    || (ts.node(t).Pointer? && ParseArrayIdxStr(path[i]).None?
        && ts.node(ts.ResolveNestedTypes(ts.node(t).target)).Pointer?)
    || (h.Some? && i + 1 < |path| && DoublePointer(ts, h.value.ty, path, i + 1))
  }

  /** What such a path compiles to: the outer pointer is ignored, as if the object were the inner one. */
  lemma PointersCollapse(ts: Types, w: Wording, args: Args, t: TypeId, path: seq<string>, i: nat)
    requires ts.Ranked() && i < |path| <= MAX_BTF_ARG_DEPTH
    requires ts.node(t).Pointer? && ParseArrayIdxStr(path[i]).None?
    requires ts.node(ts.ResolveNestedTypes(ts.node(t).target)).Pointer?
    ensures Resolve(ts, w, args, t, path, i)
            == Resolve(ts, w, args, ts.ResolveNestedTypes(ts.node(t).target), path, i)
  {
    if i > 0 {
      assert Mark(Mark(args, i - 1), i - 1) == Mark(args, i - 1);
    }
  }

  /** What is accepted means something in C, unless it names a member of a pointer to a pointer. */
  lemma {:induction false} AcceptedMeansC(ts: Types, w: Wording, args: Args, t: TypeId, path: seq<string>, i: nat)
    requires ts.WellFormed() && i < |path| <= MAX_BTF_ARG_DEPTH
    requires Resolve(ts, w, args, t, path, i).1.Resolved?
    ensures CDefined(ts, t, path, i) <==> !DoublePointer(ts, t, path, i)
    decreases |path| - i, ts.rank(t), 2, 0
  {
    match ts.node(t)
    case Struct(_) => MembersMeanC(ts, w, args, t, 0, None, path, i);
    case Union(_) => MembersMeanC(ts, w, args, t, 0, None, path, i);
    case Pointer(u) =>
      var v := ts.ResolveNestedTypes(u);
      var a1 := if i > 0 then Mark(args, i - 1) else args;
      var idx := ParseArrayIdxStr(path[i]);
      if idx.None? {
        AcceptedMeansC(ts, w, a1, v, path, i);
      } else if i + 1 < |path| {
        AcceptedMeansC(ts, w, Place(Mark(a1, i), i, Offset32(ts.size(v), idx.value)), v, path, i + 1);
      }
    case Array(e, n) =>
      var v := ts.ResolveNestedTypes(e);
      if i + 1 < |path| {
        AcceptedMeansC(ts, w, Place(args, i, Offset32(ts.size(v), ParseArrayIdxStr(path[i]).value)), v, path, i + 1);
      }
    case _ =>
  }

  lemma {:induction false} MembersMeanC(ts: Types, w: Wording, args: Args, t: TypeId, k: nat, lastError: Option<Cause>,
                                        path: seq<string>, i: nat)
    requires ts.WellFormed() && i < |path| <= MAX_BTF_ARG_DEPTH
    requires ts.node(t).Aggregate() && k <= |ts.node(t).members|
    requires Members(ts, w, args, t, k, lastError, path, i).1.Resolved?
    ensures ts.Find(t, k, path[i]).Some?
    ensures i + 1 < |path| ==>
              var v := ts.ResolveNestedTypes(ts.Find(t, k, path[i]).value.ty);
              CDefined(ts, v, path, i + 1) <==> !DoublePointer(ts, v, path, i + 1)
    decreases |path| - i, ts.rank(t), 1, |ts.node(t).members| - k
  {
    var m := ts.node(t).members[k];
    if m.name == "" {
      var u := ts.ResolveNestedTypes(m.ty);
      var a1 := Place(args, i, m.offset);
      var (a2, out) := Resolve(ts, w, a1, u, path, i);
      assert ts.AnonymousOk(m.ty);
      if out.Resolved? {
        MembersMeanC(ts, w, a1, u, 0, None, path, i);
      } else {
        MembersMeanC(ts, w, a2, t, k + 1, Some(out.cause), path, i);
        if ts.Offer(t, k, path[i]).Some? {
          NoSecondOffer(ts, t, k, k + 1, path[i]);
        }
      }
    } else if m.name == path[i] {
      if i < |path| - 1 {
        AcceptedMeansC(ts, w, Place(args, i, m.offset), ts.ResolveNestedTypes(m.ty), path, i + 1);
      }
    } else {
      MembersMeanC(ts, w, args, t, k + 1, lastError, path, i);
    }
  }
}
