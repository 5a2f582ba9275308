/**
 Process filters (bpf/process/pfilter.h): matching a list of up to four values, and the search of
 the follow-forks option along the tracked ancestors.
 */
module PFilter {
  import opened Common
  import opened Lifecycle

  datatype Ty = In | NotIn | Other

  // ---------------------------------------------------------------- following forks

  /** The search from entry `e` with `n` lookups left. */
  function FindPidset(procs: map<Pid, Entry>, e: Option<Entry>, value: nat, isns: bool, n: nat): bool
    decreases n
  {
    if n == 0 || e.None? then false
    else
      var pid := if isns then e.value.nspid else e.value.key.pid;
      var ppid := if isns then 0 else e.value.pkey.pid;
      if pid == value || ppid == value then true
      else FindPidset(procs, LookupEntry(procs, e.value.pkey.pid), value, isns, n - 1)
  }

  function LookupEntry(procs: map<Pid, Entry>, pid: Pid): Option<Entry>
  {
    if pid in procs then Some(procs[pid]) else None
  }

  /** The `k`-th tracked ancestor, the process itself being number 0. */
  function AncestorEntry(procs: map<Pid, Entry>, e: Entry, k: nat): Option<Entry>
    decreases k
  {
    if k == 0 then Some(e)
    else if e.pkey.pid in procs then AncestorEntry(procs, procs[e.pkey.pid], k - 1)
    else None
  }

  /** The pid of the `k`-th ancestor, known from the entry before it. */
  function Ancestor(procs: map<Pid, Entry>, e: Entry, k: nat): Option<Pid>
  {
    if k == 0 then Some(e.key.pid)
    else
      match AncestorEntry(procs, e, k - 1)
      case None => None
      case Some(child) => Some(child.pkey.pid)
  }

  /** The namespace pid of the `k`-th tracked ancestor. */
  function AncestorNsPid(procs: map<Pid, Entry>, e: Entry, k: nat): Option<nat>
  {
    match AncestorEntry(procs, e, k)
    case None => None
    case Some(ancestor) => Some(ancestor.nspid)
  }

  ghost predicate OwnPids(procs: map<Pid, Entry>)
  {
    forall p :: p in procs ==> procs[p].key.pid == p
  }

  lemma AncestorStep(procs: map<Pid, Entry>, e: Entry, k: nat)
    requires OwnPids(procs) && e.pkey.pid in procs
    ensures Ancestor(procs, e, k + 1) == Ancestor(procs, procs[e.pkey.pid], k)
  {
  }

  /** With `n` lookups the search reaches the process and its nearest `n` ancestors. */
  lemma {:induction false} FindPidsetReaches(procs: map<Pid, Entry>, e: Entry, value: nat, n: nat)
    requires OwnPids(procs) && n > 0
    ensures FindPidset(procs, Some(e), value, false, n)
            <==> exists k :: 0 <= k <= n && Ancestor(procs, e, k) == Some(value)
    decreases n
  {
    if e.key.pid == value {
      assert Ancestor(procs, e, 0) == Some(value);
    } else if e.pkey.pid == value {
      assert Ancestor(procs, e, 1) == Some(value);
    } else if e.pkey.pid in procs && n > 1 {
      var parent := procs[e.pkey.pid];
      FindPidsetReaches(procs, parent, value, n - 1);
      if k :| 0 <= k <= n && Ancestor(procs, e, k) == Some(value) {
        AncestorStep(procs, e, k - 1);
      }
      if k :| 0 <= k <= n - 1 && Ancestor(procs, parent, k) == Some(value) {
        AncestorStep(procs, e, k);
        assert 0 <= k + 1 <= n && Ancestor(procs, e, k + 1) == Some(value);
      }
    } else {
      forall k | 0 <= k <= n
        ensures Ancestor(procs, e, k) != Some(value)
      {
        if k > 1 {
          assert AncestorEntry(procs, e, k - 1) == None;
        }
      }
    }
  }

  /** By namespace pid it reaches one entry less, and finds 0 at once. */
  lemma {:induction false} FindNsPidsetReaches(procs: map<Pid, Entry>, e: Entry, value: nat, n: nat)
    requires n > 0
    ensures FindPidset(procs, Some(e), value, true, n)
            <==> value == 0 || exists k :: 0 <= k < n && AncestorNsPid(procs, e, k) == Some(value)
    decreases n
  {
    if e.nspid == value || value == 0 {
      assert AncestorNsPid(procs, e, 0) == Some(e.nspid);
    } else if e.pkey.pid in procs && n > 1 {
      var parent := procs[e.pkey.pid];
      FindNsPidsetReaches(procs, parent, value, n - 1);
      if k :| 0 <= k < n - 1 && AncestorNsPid(procs, parent, k) == Some(value) {
        assert AncestorNsPid(procs, e, k + 1) == Some(value);
      }
      if k :| 0 <= k < n && AncestorNsPid(procs, e, k) == Some(value) {
        assert AncestorNsPid(procs, parent, k - 1) == Some(value);
      }
    }
  }

  function FilterPidset(procs: map<Pid, Entry>, value: nat, isns: bool, enter: Entry): bool
  {
    FindPidset(procs, Some(enter), value, isns, 9)
  }

  /**
   Over any history of forks, execs and exits, the search is true exactly when the value is the pid
   of the process or of one of its nearest nine ancestors along the tracked chain.
   */
  lemma FollowsForks(s: State, ops: seq<Op>, value: nat, enter: Entry)
    requires Lifecycle.Valid(s) && forall op :: op in ops ==> Clocked(op)
    ensures FilterPidset(Run(s, ops).procs, value, false, enter) <==>
              exists k :: 0 <= k <= 9 && Ancestor(Run(s, ops).procs, enter, k) == Some(value)
  {
    RunKeepsValid(s, ops);
    FindPidsetReaches(Run(s, ops).procs, enter, value, 9);
  }

  // ---------------------------------------------------------------- one value

  datatype Flags = Flags(nspid: bool, follow: bool)

  function FilterPidsets(procs: map<Pid, Entry>, ty: Ty, flags: Flags, sel: nat, enter: Entry): bool
  {
    if flags.nspid && enter.nspid == 0 then false
    else
      var found := FilterPidset(procs, sel, flags.nspid, enter);
      if ty.In? && !found then false
      else if ty.NotIn? && found then false
      else true
  }

  /** The value at byte offset `off`, or 0 beyond the filter's bound. */
  function ValueAt(f: seq<nat>, off: nat): nat
  {
    if off > 1000 then 0 else if off / 4 < |f| then f[off / 4] else 0
  }

  function ProcessFilterPid(procs: map<Pid, Entry>, ty: Ty, flags: Flags, f: seq<nat>, enter: Entry, off: nat): bool
  {
    var pid := if flags.nspid then enter.nspid else enter.key.pid;
    var sel := ValueAt(f, off);
    if flags.follow then FilterPidsets(procs, ty, flags, sel, enter)
    else if ty.In? && sel != pid then false
    else if ty.NotIn? && sel == pid then false
    else true
  }

  // ---------------------------------------------------------------- up to four values

  function Capped(len: nat): nat
  {
    if len > 4 then 4 else len
  }

  /** The `i`-th value, four bytes each, passes. */
  predicate Passes(pass: nat -> bool, index: nat, i: nat)
  {
    pass(index + 4 * i)
  }

  /** What a list of values means: NotIn wants all of them to pass, any other operator one. */
  ghost predicate Verdict(pass: nat -> bool, ty: Ty, index: nat, len: nat)
  {
    if ty.NotIn? then forall i :: 0 <= i < Capped(len) ==> Passes(pass, index, i)
    else exists i :: 0 <= i < Capped(len) && Passes(pass, index, i)
  }

  /** The same, slot by slot. */
  lemma Slots(pass: nat -> bool, ty: Ty, index: nat, len: nat)
    ensures Verdict(pass, ty, index, len) <==>
              if ty.NotIn?
              then (len > 0 ==> pass(index)) && (len > 1 ==> pass(index + 4)) &&
                   (len > 2 ==> pass(index + 8)) && (len > 3 ==> pass(index + 12))
              else (len > 0 && pass(index)) || (len > 1 && pass(index + 4)) ||
                   (len > 2 && pass(index + 8)) || (len > 3 && pass(index + 12))
  {
    assert Passes(pass, index, 0) == pass(index) && Passes(pass, index, 1) == pass(index + 4);
    assert Passes(pass, index, 2) == pass(index + 8) && Passes(pass, index, 3) == pass(index + 12);
  }

  class SelectorFilter {
    const ty: Ty
    const len: nat
    var index: nat

    constructor (ty: Ty, len: nat, index: nat)
      ensures this.ty == ty && this.len == len && this.index == index
    {
      this.ty, this.len, this.index := ty, len, index;
    }

    /** The form for large programs: results are filled in order. */
    method SelectorMatchLoop(pass: nat -> bool) returns (r: bool)
      modifies this`index
      ensures r <==> Verdict(pass, ty, old(index), len)
      ensures index == old(index) + 4 * Capped(len)
    {
      var res := [ty.NotIn?, ty.NotIn?, ty.NotIn?, ty.NotIn?];
      var n := Capped(len);
      for i := 0 to n
        invariant |res| == 4 && index == old(index) + 4 * i
        invariant forall j :: 0 <= j < i ==> res[j] == Passes(pass, old(index), j)
        invariant forall j :: i <= j < 4 ==> res[j] == ty.NotIn?
      {
        res := res[i := pass(index)];
        index := index + 4;
      }
      Slots(pass, ty, old(index), len);
      if ty.NotIn? {
        r := res[0] && res[1] && res[2] && res[3];
      } else {
        r := res[0] || res[1] || res[2] || res[3];
      }
    }

    /**
     The unrolled form jumps into the middle and fills them backwards; a length of zero falls
     through to all four.
     */
    method SelectorMatchUnrolled(pass: nat -> bool) returns (r: bool)
      modifies this`index
      ensures r <==> Verdict(pass, ty, old(index), if len == 0 then 4 else len)
      ensures index == old(index) + 4 * if len == 0 then 4 else Capped(len)
    {
      var res := [ty.NotIn?, ty.NotIn?, ty.NotIn?, ty.NotIn?];
      var n := Capped(len);
      if n != 3 && n != 2 && n != 1 {
        res := res[3 := pass(index)];
        index := index + 4;
      }
      if n != 2 && n != 1 {
        res := res[2 := pass(index)];
        index := index + 4;
      }
      if n != 1 {
        res := res[1 := pass(index)];
        index := index + 4;
      }
      res := res[0 := pass(index)];
      index := index + 4;
      Slots(pass, ty, old(index), if len == 0 then 4 else len);
      if ty.NotIn? {
        r := res[0] && res[1] && res[2] && res[3];
      } else {
        r := res[0] || res[1] || res[2] || res[3];
      }
    }
  }

  /** The two forms agree on every verdict exactly when there is at least one value. */
  lemma FormsAgree(ty: Ty, index: nat, len: nat)
    ensures (forall pass: nat -> bool ::
               Verdict(pass, ty, index, len) <==> Verdict(pass, ty, index, if len == 0 then 4 else len))
            <==> len > 0
  {
    if len == 0 {
      var pass: nat -> bool := _ => !ty.NotIn?;
      assert Passes(pass, index, 0) == !ty.NotIn?;
      assert Verdict(pass, ty, index, 0) != Verdict(pass, ty, index, 4);
    }
  }

  /** Does the value name the process, or with follow-forks one it descends from? */
  predicate Names(procs: map<Pid, Entry>, flags: Flags, enter: Entry, value: nat)
  {
    if flags.follow then FilterPidset(procs, value, flags.nspid, enter)
    else value == if flags.nspid then enter.nspid else enter.key.pid
  }

  function PidFilter(procs: map<Pid, Entry>, ty: Ty, flags: Flags, f: seq<nat>, enter: Entry): nat -> bool
  {
    (off: nat) => ProcessFilterPid(procs, ty, flags, f, enter, off)
  }

  /** Does the `i`-th value name the process? */
  predicate ValueNames(procs: map<Pid, Entry>, flags: Flags, f: seq<nat>, enter: Entry, index: nat, i: nat)
  {
    Names(procs, flags, enter, ValueAt(f, index + 4 * i))
  }

  lemma PassesMeaning(procs: map<Pid, Entry>, ty: Ty, flags: Flags, f: seq<nat>, enter: Entry, index: nat, i: nat)
    requires !ty.Other?
    ensures Passes(PidFilter(procs, ty, flags, f, enter), index, i) <==>
              && !(flags.follow && flags.nspid && enter.nspid == 0)
              && (ty.In? <==> ValueNames(procs, flags, f, enter, index, i))
  {
  }

  /**
   matchPIDs as a whole: In accepts exactly the processes some value names and NotIn exactly those
   none does, except that following namespace pids rejects a process outside any namespace.
   */
  lemma MatchPidsMeaning(procs: map<Pid, Entry>, ty: Ty, flags: Flags, f: seq<nat>, enter: Entry, index: nat, len: nat)
    requires 0 < len && !ty.Other?
    ensures Verdict(PidFilter(procs, ty, flags, f, enter), ty, index, len) <==>
              && !(flags.follow && flags.nspid && enter.nspid == 0)
              && (ty.In? <==> exists i :: 0 <= i < Capped(len) && ValueNames(procs, flags, f, enter, index, i))
  {
    var pass := PidFilter(procs, ty, flags, f, enter);
    forall i | 0 <= i < Capped(len)
      ensures Passes(pass, index, i) <==>
                && !(flags.follow && flags.nspid && enter.nspid == 0)
                && (ty.In? <==> ValueNames(procs, flags, f, enter, index, i))
    {
      PassesMeaning(procs, ty, flags, f, enter, index, i);
    }
    assert Passes(pass, index, 0) ==> !(flags.follow && flags.nspid && enter.nspid == 0);
  }

  /** One of the first four of `len` values from `f[k]` on is `value`. */
  predicate Listed(f: seq<nat>, k: nat, len: nat, value: nat)
    requires k + Capped(len) <= |f|
  {
    value in f[k..k + if len > 4 then 4 else len]
  }

  /** The `i`-th value of a list is the word itself; past the bound of the filter, or its end, it is 0. */
  lemma ValueOfList(f: seq<nat>, k: nat, i: nat)
    ensures ValueAt(f, 4 * k + 4 * i) == if k + i <= 250 && k + i < |f| then f[k + i] else 0
  {
    assert (4 * k + 4 * i) / 4 == k + i;
  }

  /** Some value names the process exactly when it names one that is listed. */
  lemma NamedIsListed(procs: map<Pid, Entry>, flags: Flags, f: seq<nat>, enter: Entry, k: nat, len: nat)
    requires k + Capped(len) <= |f| && k + Capped(len) <= 251
    ensures (exists i :: 0 <= i < Capped(len) && ValueNames(procs, flags, f, enter, 4 * k, i))
            <==> exists v :: Listed(f, k, len, v) && Names(procs, flags, enter, v)
  {
    if i :| 0 <= i < Capped(len) && ValueNames(procs, flags, f, enter, 4 * k, i) {
      ValueOfList(f, k, i);
      assert f[k..k + Capped(len)][i] == f[k + i];
      assert Listed(f, k, len, f[k + i]) && Names(procs, flags, enter, f[k + i]);
    }
    if v: nat :| Listed(f, k, len, v) && Names(procs, flags, enter, v) {
      var i :| 0 <= i < Capped(len) && f[k..k + Capped(len)][i] == v;
      ValueOfList(f, k, i);
      assert ValueNames(procs, flags, f, enter, 4 * k, i);
    }
  }

  /**
   matchPIDs on a list of words, by the processes' own fields: In accepts a process exactly when its pid,
   or in a namespace rule its namespace pid, is listed; following forks, when that of one of its nearest
   nine ancestors is, or eight in namespaces, where a listed 0 names every process.  NotIn accepts the others.
   */
  lemma MatchesListed(procs: map<Pid, Entry>, ty: Ty, flags: Flags, f: seq<nat>, enter: Entry, k: nat, len: nat)
    requires 0 < len && !ty.Other? && OwnPids(procs)
    requires k + Capped(len) <= |f| && k + Capped(len) <= 251
    ensures var accepted := Verdict(PidFilter(procs, ty, flags, f, enter), ty, 4 * k, len);
            accepted <==>
              if !flags.follow then
                ty.In? <==> Listed(f, k, len, if flags.nspid then enter.nspid else enter.key.pid)
              else if !flags.nspid then
                ty.In? <==> exists j :: 0 <= j <= 9 && Ancestor(procs, enter, j).Some?
                                        && Listed(f, k, len, Ancestor(procs, enter, j).value)
              else
                && enter.nspid != 0
                && (ty.In? <==> (|| Listed(f, k, len, 0)
                                 || exists j :: 0 <= j < 9 && AncestorNsPid(procs, enter, j).Some?
                                                && Listed(f, k, len, AncestorNsPid(procs, enter, j).value)))
  {
    MatchPidsMeaning(procs, ty, flags, f, enter, 4 * k, len);
    NamedIsListed(procs, flags, f, enter, k, len);
    if flags.follow {
      forall v: nat
        ensures Names(procs, flags, enter, v) <==>
                  if flags.nspid then v == 0 || exists j :: 0 <= j < 9 && AncestorNsPid(procs, enter, j) == Some(v)
                  else exists j :: 0 <= j <= 9 && Ancestor(procs, enter, j) == Some(v)
      {
        if flags.nspid {
          FindNsPidsetReaches(procs, enter, v, 9);
        } else {
          FindPidsetReaches(procs, enter, v, 9);
        }
      }
    }
  }

  // ---------------------------------------------------------------- the code's in-place form

  /** filter_pidset: nine times the same step, on the entry last looked up. */
  method FilterPidsetWalk(procs: map<Pid, Entry>, sel: nat, isns: bool, enter: Entry) returns (found: bool)
    ensures found == FilterPidset(procs, sel, isns, enter)
  {
    var filter := Some(enter);
    for i := 0 to 9
      invariant FindPidset(procs, filter, sel, isns, 9 - i) == FilterPidset(procs, sel, isns, enter)
    {
      if filter.None? {
        return false;
      }
      var pid, ppid := 0, 0;
      if isns {
        pid := filter.value.nspid;
      } else {
        pid := filter.value.key.pid;
        ppid := filter.value.pkey.pid;
      }
      if pid == sel || ppid == sel {
        return true;
      }
      filter := LookupEntry(procs, filter.value.pkey.pid);
    }
    return false;
  }
}
