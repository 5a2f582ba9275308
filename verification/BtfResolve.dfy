/**
 The field-path compiler (pkg/btf/btf.go) and the interpreter of its output
 (`extract_arg` in bpf/process/generic_calls.h).
 */
module BtfResolve {
  import opened Common
  import opened BtfTypes

  const MAX_BTF_ARG_DEPTH: nat := 10

  /** One extraction step: add the offset, then load a word if `isPointer`. */
  datatype ConfigBTFArg = ConfigBTFArg(offset: nat, isPointer: bool, isInitialized: bool)

  const ZEROED: ConfigBTFArg := ConfigBTFArg(0, false, false)

  datatype Cause =
    | NotFound(attribute: string, t: TypeId)
    | BadIndex(text: string)
    | OutOfBound(nelems: nat, got: nat)
    | UnexpectedType(current: string, t: TypeId)

  datatype Outcome = Resolved(ty: TypeId) | Failed(cause: Cause)

  /** The text of an error, which the compiler searches; its wording is left open. */
  type Wording = Cause -> string

  predicate Contains(s: string, sub: string)
  {
    sub <= s || (s != "" && Contains(s[1..], sub))
  }

  lemma {:induction false} ContainsSubstring(s: string, sub: string)
    ensures Contains(s, sub) <==> exists k :: 0 <= k <= |s| && sub <= s[k..]
    decreases |s|
  {
    assert s[0..] == s;
    if s != "" {
      ContainsSubstring(s[1..], sub);
      forall k | 1 <= k <= |s|
        ensures s[k..] == s[1..][k - 1..]
      {
      }
      if k :| 0 <= k <= |s[1..]| && sub <= s[1..][k..] {
        assert sub <= s[k + 1..];
      }
      if k :| 0 <= k <= |s| && sub <= s[k..] {
        if k > 0 {
          assert sub <= s[1..][k - 1..];
        }
      }
    }
  }

  /** The array `btfArgs` seen as a value. */
  type Args = s: seq<ConfigBTFArg> | |s| == MAX_BTF_ARG_DEPTH witness seq(MAX_BTF_ARG_DEPTH, _ => ZEROED)

  /** A product of unsigned 32-bit numbers wraps around. */
  function Offset32(size: nat, idx: nat): nat
  {
    (size * idx) % U32
  }

  // ---------------------------------------------------------------- the compiler as a function

  function Place(args: Args, i: nat, offset: nat): Args
    requires i < MAX_BTF_ARG_DEPTH
  {
    args[i := args[i].(offset := offset, isInitialized := true)]
  }

  function Resolve(ts: Types, w: Wording, args: Args, t: TypeId, path: seq<string>, i: nat): (Args, Outcome)
    requires ts.Ranked() && i < |path| <= MAX_BTF_ARG_DEPTH
    decreases |path| - i, ts.rank(t), 2, 0
  {
    match ts.node(t)
    case Struct(_) => Members(ts, w, args, t, 0, None, path, i)
    case Union(_) => Members(ts, w, args, t, 0, None, path, i)
    case Pointer(u) =>
      var v := ts.ResolveNestedTypes(u);
      var a1 := if i > 0 then Mark(args, i - 1) else args;
      var idx := ParseArrayIdxStr(path[i]);
      if idx.Some? then ArrayStep(ts, w, Mark(a1, i), v, path, i, idx.value)
      else Resolve(ts, w, a1, v, path, i)
    case Array(e, n) =>
      var idx := ParseArrayIdxStr(path[i]);
      if idx.None? then (args, Failed(BadIndex(path[i])))
      else if idx.value >= n then (args, Failed(OutOfBound(n, idx.value)))
      else ArrayStep(ts, w, args, ts.ResolveNestedTypes(e), path, i, idx.value)
    case _ => (args, Failed(UnexpectedType(if i > 0 then path[i - 1] else path[i], t)))
  }

  function ArrayStep(ts: Types, w: Wording, args: Args, v: TypeId, path: seq<string>, i: nat, idx: nat): (Args, Outcome)
    requires ts.Ranked() && i < |path| <= MAX_BTF_ARG_DEPTH
    decreases |path| - i - 1, ts.rank(v), 3, 0
  {
    var a1 := Place(args, i, Offset32(ts.size(v), idx));
    if |path| > i + 1 then Resolve(ts, w, a1, v, path, i + 1) else (a1, Resolved(v))
  }

  function Mark(args: Args, i: nat): Args
    requires i < MAX_BTF_ARG_DEPTH
  {
    args[i := args[i].(isPointer := true)]
  }

  /** The loop over the members of `t`, from member `k` on. */
  function Members(ts: Types, w: Wording, args: Args, t: TypeId, k: nat, lastError: Option<Cause>,
                   path: seq<string>, i: nat): (Args, Outcome)
    requires ts.Ranked() && i < |path| <= MAX_BTF_ARG_DEPTH
    requires ts.node(t).Aggregate() && k <= |ts.node(t).members|
    decreases |path| - i, ts.rank(t), 1, |ts.node(t).members| - k
  {
    if k == |ts.node(t).members| then
      (args, Failed(if lastError.Some? then lastError.value else NotFound(path[i], t)))
    else
      var m := ts.node(t).members[k];
      if m.name == "" then
        var (a2, out) := Resolve(ts, w, Place(args, i, m.offset), ts.ResolveNestedTypes(m.ty), path, i);
        if out.Resolved? then (a2, out)
        else if lastError.Some? && i + 1 < |path| && Contains(w(lastError.value), path[i + 1]) then
          (a2, Failed(lastError.value))
        else Members(ts, w, a2, t, k + 1, Some(out.cause), path, i)
      else if m.name == path[i] then
        var a1 := Place(args, i, m.offset);
        var v := ts.ResolveNestedTypes(m.ty);
        if i < |path| - 1 then Resolve(ts, w, a1, v, path, i + 1)
        else if ts.node(v).Pointer? then (Mark(a1, i), Resolved(ts.node(v).target))
        else if ts.node(v).Int? then (Mark(a1, i), Resolved(v))
        else (a1, Resolved(v))
      else Members(ts, w, args, t, k + 1, lastError, path, i)
  }

  // ---------------------------------------------------------------- the interpreter

  /** `extract_arg`, from step `j` on. */
  function Extract(mem: Memory, args: Args, j: nat, a: int): int
    decreases MAX_BTF_ARG_DEPTH - j
  {
    if j >= MAX_BTF_ARG_DEPTH || !args[j].isInitialized then a
    else
      var b := a + args[j].offset;
      Extract(mem, args, j + 1, if args[j].isPointer then mem(b) else b)
  }

  // ---------------------------------------------------------------- what is emitted

  /** The members the compiler has loaded at the end of a path. */
  predicate LoadedMember(ts: Types, t: TypeId) { ts.node(t).Pointer? || ts.node(t).Int? }

  /** The step for one hop: the innermost offset, in 32 bits, and whether a load follows. */
  function StepOf(ts: Types, h: Hop, last: bool): ConfigBTFArg
  {
    ConfigBTFArg(if h.how == ByMember then h.offset else h.offset % U32,
                 h.how == ByPointerIndex ||
                 (if last then h.how == ByMember && LoadedMember(ts, h.ty) else ts.node(h.ty).Pointer?),
                 true)
  }

  function Steps(ts: Types, t: TypeId, path: seq<string>, i: nat): seq<ConfigBTFArg>
    requires ts.Ranked() && i < |path| && CDefined(ts, t, path, i)
    decreases |path| - i, 0
  {
    var h := NextHop(ts, t, path[i]).value;
    [StepOf(ts, h, i + 1 == |path|)] + Rest(ts, h, path, i)
  }

  function Rest(ts: Types, h: Hop, path: seq<string>, i: nat): seq<ConfigBTFArg>
    requires ts.Ranked() && i < |path| && (i + 1 < |path| ==> CDefined(ts, h.ty, path, i + 1))
    decreases |path| - i - 1, 1
  {
    if i + 1 < |path| then Steps(ts, h.ty, path, i + 1) else []
  }

  /** The type C finds at the end of a path: what a pointer member points to, or the last hop's own type. */
  function EndOf(ts: Types, h: Hop, path: seq<string>, i: nat): TypeId
    requires ts.Ranked() && i < |path| && (i + 1 < |path| ==> CDefined(ts, h.ty, path, i + 1))
    decreases |path| - i
  {
    if i + 1 < |path| then EndOf(ts, NextHop(ts, h.ty, path[i + 1]).value, path, i + 1)
    else if h.how == ByMember && ts.node(h.ty).Pointer? then ts.node(h.ty).target
    else h.ty
  }

  function EndType(ts: Types, t: TypeId, path: seq<string>, i: nat): TypeId
    requires ts.Ranked() && i < |path| && CDefined(ts, t, path, i)
  {
    EndOf(ts, NextHop(ts, t, path[i]).value, path, i)
  }

  /** `after` is `before` with steps `i..n` replaced by `steps`, and step `i - 1` perhaps marked. */
  ghost predicate Emitted(before: Args, after: Args, i: nat, n: nat, steps: seq<ConfigBTFArg>, mark: bool)
  {
    && i <= n <= MAX_BTF_ARG_DEPTH
    && after[i..n] == steps
    && after[n..] == before[n..]
    && (forall j :: 0 <= j < i - 1 ==> after[j] == before[j])
    && (i > 0 ==> after[i - 1] == if mark then before[i - 1].(isPointer := true) else before[i - 1])
  }

  ghost predicate Unmarked(args: Args, i: nat)
  {
    forall j :: i <= j < MAX_BTF_ARG_DEPTH ==> !args[j].isPointer
  }

  /** A search that finds no member changes nothing but the offset it tried. */
  lemma {:induction false} FruitlessSearch(ts: Types, w: Wording, args: Args, t: TypeId, k: nat,
                                           lastError: Option<Cause>, path: seq<string>, i: nat)
    requires ts.WellFormed() && i < |path| <= MAX_BTF_ARG_DEPTH
    requires ts.node(t).Aggregate() && k <= |ts.node(t).members|
    requires ts.Find(t, k, path[i]).None?
    ensures var (a, out) := Members(ts, w, args, t, k, lastError, path, i);
            out.Failed? && a == args[i := args[i].(offset := a[i].offset, isInitialized := a[i].isInitialized)]
    decreases ts.rank(t), |ts.node(t).members| - k
  {
    if k < |ts.node(t).members| {
      var m := ts.node(t).members[k];
      if m.name == "" {
        var u := ts.ResolveNestedTypes(m.ty);
        var a1 := Place(args, i, m.offset);
        assert ts.AnonymousOk(m.ty);
        if ts.node(u).Aggregate() {
          FruitlessSearch(ts, w, a1, u, 0, None, path, i);
        }
        var (a2, out) := Resolve(ts, w, a1, u, path, i);
        FruitlessSearch(ts, w, a2, t, k + 1, Some(out.cause), path, i);
      } else {
        FruitlessSearch(ts, w, args, t, k + 1, lastError, path, i);
      }
    }
  }

  /** Where an anonymous member offers the name, its own search decides: no later member offers it. */
  lemma AnonymousDecides(ts: Types, w: Wording, args: Args, t: TypeId, k: nat, lastError: Option<Cause>,
                         path: seq<string>, i: nat)
    requires ts.WellFormed() && i < |path| <= MAX_BTF_ARG_DEPTH
    requires ts.node(t).Aggregate() && k < |ts.node(t).members|
    requires ts.node(t).members[k].name == "" && ts.Offer(t, k, path[i]).Some?
    ensures var m := ts.node(t).members[k];
            var inner := Resolve(ts, w, Place(args, i, m.offset), ts.ResolveNestedTypes(m.ty), path, i);
            var r := Members(ts, w, args, t, k, lastError, path, i);
            if inner.1.Resolved? then r == inner else r.1.Failed?
  {
    var m := ts.node(t).members[k];
    var inner := Resolve(ts, w, Place(args, i, m.offset), ts.ResolveNestedTypes(m.ty), path, i);
    if inner.1.Failed? {
      NoSecondOffer(ts, t, k, k + 1, path[i]);
      FruitlessSearch(ts, w, inner.0, t, k + 1, Some(inner.1.cause), path, i);
    }
  }

  /** An anonymous member that does not offer the name fails, and changes only the offset it tried. */
  lemma AnonymousPassed(ts: Types, w: Wording, args: Args, t: TypeId, k: nat, path: seq<string>, i: nat)
    requires ts.WellFormed() && i < |path| <= MAX_BTF_ARG_DEPTH
    requires ts.node(t).Aggregate() && k < |ts.node(t).members|
    requires ts.node(t).members[k].name == "" && ts.Offer(t, k, path[i]).None?
    ensures var m := ts.node(t).members[k];
            var (a, out) := Resolve(ts, w, Place(args, i, m.offset), ts.ResolveNestedTypes(m.ty), path, i);
            out.Failed? && a == args[i := args[i].(offset := a[i].offset, isInitialized := a[i].isInitialized)]
  {
    var m := ts.node(t).members[k];
    var u := ts.ResolveNestedTypes(m.ty);
    assert ts.AnonymousOk(m.ty);
    if ts.node(u).Aggregate() {
      FruitlessSearch(ts, w, Place(args, i, m.offset), u, 0, None, path, i);
    }
  }

  /** An accepted path with a C meaning leaves exactly its steps in the array, and yields C's type. */
  lemma {:induction false} ResolveEmits(ts: Types, w: Wording, args: Args, t: TypeId, path: seq<string>, i: nat)
    requires ts.WellFormed() && i < |path| <= MAX_BTF_ARG_DEPTH && Unmarked(args, i)
    requires CDefined(ts, t, path, i)
    requires Resolve(ts, w, args, t, path, i).1.Resolved?
    ensures Emitted(args, Resolve(ts, w, args, t, path, i).0, i, |path|, Steps(ts, t, path, i), ts.node(t).Pointer?)
    ensures Resolve(ts, w, args, t, path, i).1 == Resolved(EndType(ts, t, path, i))
    decreases |path| - i, ts.rank(t), 2, 0
  {
    var h := NextHop(ts, t, path[i]).value;
    match ts.node(t)
    case Struct(_) => MembersEmit(ts, w, args, t, 0, None, path, i, h);
    case Union(_) => MembersEmit(ts, w, args, t, 0, None, path, i, h);
    case Pointer(u) =>
      var v := ts.ResolveNestedTypes(u);
      var a1 := if i > 0 then Mark(args, i - 1) else args;
      if h.how == ByPointerIndex {
        ArrayStepEmits(ts, w, Mark(a1, i), path, i, ParseArrayIdxStr(path[i]).value, h);
      } else {
        ResolveEmits(ts, w, a1, v, path, i);
      }
    case Array(e, n) =>
      ArrayStepEmits(ts, w, args, path, i, ParseArrayIdxStr(path[i]).value, h);
    case _ =>
  }

  lemma {:induction false} ArrayStepEmits(ts: Types, w: Wording, args: Args, path: seq<string>, i: nat, idx: nat,
                                          h: Hop)
    requires ts.WellFormed() && i < |path| <= MAX_BTF_ARG_DEPTH && Unmarked(args, i + 1)
    requires h.how != ByMember && h.offset == ts.size(h.ty) * idx
    requires args[i].isPointer == (h.how == ByPointerIndex)
    requires i + 1 < |path| ==> CDefined(ts, h.ty, path, i + 1)
    requires ArrayStep(ts, w, args, h.ty, path, i, idx).1.Resolved?
    ensures Emitted(args, ArrayStep(ts, w, args, h.ty, path, i, idx).0, i, |path|,
                    [StepOf(ts, h, i + 1 == |path|)] + Rest(ts, h, path, i), false)
    ensures ArrayStep(ts, w, args, h.ty, path, i, idx).1 == Resolved(EndOf(ts, h, path, i))
    decreases |path| - i - 1, ts.rank(h.ty), 3, 0
  {
    var a1 := Place(args, i, Offset32(ts.size(h.ty), idx));
    if |path| > i + 1 {
      ResolveEmits(ts, w, a1, h.ty, path, i + 1);
      Prepended(args, a1, Resolve(ts, w, a1, h.ty, path, i + 1).0, i, |path|, Rest(ts, h, path, i),
                ts.node(h.ty).Pointer?);
    }
  }

  /** Emitting step `i` and then the rest is emitting the longer list. */
  lemma Prepended(args: Args, a1: Args, a2: Args, i: nat, n: nat, rest: seq<ConfigBTFArg>, mark: bool)
    requires i < n <= MAX_BTF_ARG_DEPTH
    requires a1 == args[i := a1[i]] && Emitted(a1, a2, i + 1, n, rest, mark)
    ensures Emitted(args, a2, i, n, [if mark then a1[i].(isPointer := true) else a1[i]] + rest, false)
  {
    assert a2[i..n] == [a2[i]] + a2[i + 1..n];
  }

  /** The member loop emits the steps of the hop that C's lookup finds. */
  lemma {:induction false} MembersEmit(ts: Types, w: Wording, args: Args, t: TypeId, k: nat,
                                       lastError: Option<Cause>, path: seq<string>, i: nat, h: Hop)
    requires ts.WellFormed() && i < |path| <= MAX_BTF_ARG_DEPTH && Unmarked(args, i)
    requires ts.node(t).Aggregate() && k <= |ts.node(t).members|
    requires var f := ts.Find(t, k, path[i]);
             f.Some? && h.how == ByMember && h.offset == f.value.offset && h.ty == ts.ResolveNestedTypes(f.value.ty)
    requires i + 1 < |path| ==> CDefined(ts, h.ty, path, i + 1)
    requires Members(ts, w, args, t, k, lastError, path, i).1.Resolved?
    ensures Emitted(args, Members(ts, w, args, t, k, lastError, path, i).0, i, |path|,
                    [StepOf(ts, h, i + 1 == |path|)] + Rest(ts, h, path, i), false)
    ensures Members(ts, w, args, t, k, lastError, path, i).1 == Resolved(EndOf(ts, h, path, i))
    decreases |path| - i, ts.rank(t), 1, |ts.node(t).members| - k
  {
    var m := ts.node(t).members[k];
    if m.name == "" {
      var u := ts.ResolveNestedTypes(m.ty);
      if ts.Offer(t, k, path[i]).Some? {
        AnonymousDecides(ts, w, args, t, k, lastError, path, i);
        MembersEmit(ts, w, Place(args, i, m.offset), u, 0, None, path, i, h);
      } else {
        AnonymousPassed(ts, w, args, t, k, path, i);
        var (a2, out) := Resolve(ts, w, Place(args, i, m.offset), u, path, i);
        MembersEmit(ts, w, a2, t, k + 1, Some(out.cause), path, i, h);
      }
    } else if m.name == path[i] {
      var a1 := Place(args, i, m.offset);
      if i < |path| - 1 {
        ResolveEmits(ts, w, a1, h.ty, path, i + 1);
        Prepended(args, a1, Resolve(ts, w, a1, h.ty, path, i + 1).0, i, |path|, Rest(ts, h, path, i),
                  ts.node(h.ty).Pointer?);
      }
    } else {
      MembersEmit(ts, w, args, t, k + 1, lastError, path, i, h);
    }
  }

  lemma {:induction false} NoSecondOffer(ts: Types, t: TypeId, j: nat, k: nat, name: string)
    requires ts.WellFormed() && ts.node(t).Aggregate() && j < k <= |ts.node(t).members|
    requires ts.Offer(t, j, name).Some?
    ensures ts.Find(t, k, name).None?
    decreases |ts.node(t).members| - k
  {
    if k < |ts.node(t).members| {
      NoSecondOffer(ts, t, j, k + 1, name);
    }
  }
}
