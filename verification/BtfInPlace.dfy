/** The compiler as written: recursive procedures that fill `btfArgs` in place. */
module BtfInPlace {
  import opened Common
  import opened BtfTypes
  import opened BtfResolve

  method ResolveBTFPath(ts: Types, w: Wording, btfArgs: array<ConfigBTFArg>, t: TypeId, path: seq<string>, i: nat)
    returns (out: Outcome)
    requires ts.Ranked() && btfArgs.Length == MAX_BTF_ARG_DEPTH && i < |path| <= MAX_BTF_ARG_DEPTH
    modifies btfArgs
    ensures (btfArgs[..], out) == Resolve(ts, w, old(btfArgs[..]), t, path, i)
    decreases |path| - i, ts.rank(t), 2, 0
  {
    match ts.node(t)
    case Struct(_) =>
      out := ProcessMembers(ts, w, btfArgs, t, path, i);
    case Union(_) =>
      out := ProcessMembers(ts, w, btfArgs, t, path, i);
    case Pointer(u) =>
      if i > 0 {
        btfArgs[i - 1] := btfArgs[i - 1].(isPointer := true);
      }
      var v := ts.ResolveNestedTypes(u);
      var idx := ParseArrayIdxStr(path[i]);
      if idx.Some? {
        btfArgs[i] := btfArgs[i].(isPointer := true);
        out := ProcessArray(ts, w, btfArgs, v, path, i, idx.value);
      } else {
        out := ResolveBTFPath(ts, w, btfArgs, v, path, i);
      }
    case Array(e, n) =>
      var idx := ParseArrayIdxStr(path[i]);
      if idx.None? {
        return Failed(BadIndex(path[i]));
      }
      if idx.value >= n {
        return Failed(OutOfBound(n, idx.value));
      }
      out := ProcessArray(ts, w, btfArgs, ts.ResolveNestedTypes(e), path, i, idx.value);
    case _ =>
      out := Failed(UnexpectedType(if i > 0 then path[i - 1] else path[i], t));
  }

  method ProcessMembers(ts: Types, w: Wording, btfArgs: array<ConfigBTFArg>, t: TypeId, path: seq<string>, i: nat)
    returns (out: Outcome)
    requires ts.Ranked() && btfArgs.Length == MAX_BTF_ARG_DEPTH && i < |path| <= MAX_BTF_ARG_DEPTH
    requires ts.node(t).Aggregate()
    modifies btfArgs
    ensures (btfArgs[..], out) == Members(ts, w, old(btfArgs[..]), t, 0, None, path, i)
    decreases |path| - i, ts.rank(t), 1, 0
  {
    var members := ts.node(t).members;
    var lastError: Option<Cause> := None;
    var k := 0;
    while k < |members|
      invariant 0 <= k <= |members|
      invariant Members(ts, w, btfArgs[..], t, k, lastError, path, i)
                == Members(ts, w, old(btfArgs[..]), t, 0, None, path, i)
    {
      var m := members[k];
      if m.name == "" {
        btfArgs[i] := btfArgs[i].(offset := m.offset, isInitialized := true);
        var last := ResolveBTFPath(ts, w, btfArgs, ts.ResolveNestedTypes(m.ty), path, i);
        if last.Resolved? {
          return last;
        }
        if lastError.Some? && i + 1 < |path| && Contains(w(lastError.value), path[i + 1]) {
          return Failed(lastError.value);
        }
        lastError := Some(last.cause);
      } else if m.name == path[i] {
        btfArgs[i] := btfArgs[i].(offset := m.offset, isInitialized := true);
        var v := ts.ResolveNestedTypes(m.ty);
        if i < |path| - 1 {
          out := ResolveBTFPath(ts, w, btfArgs, v, path, i + 1);
          return;
        }
        if ts.node(v).Pointer? {
          btfArgs[i] := btfArgs[i].(isPointer := true);
          v := ts.node(v).target;
        } else if ts.node(v).Int? {
          btfArgs[i] := btfArgs[i].(isPointer := true);
        }
        return Resolved(v);
      }
      k := k + 1;
    }
    out := Failed(if lastError.Some? then lastError.value else NotFound(path[i], t));
  }

  method ProcessArray(ts: Types, w: Wording, btfArgs: array<ConfigBTFArg>, v: TypeId, path: seq<string>, i: nat,
                      idx: nat)
    returns (out: Outcome)
    requires ts.Ranked() && btfArgs.Length == MAX_BTF_ARG_DEPTH && i < |path| <= MAX_BTF_ARG_DEPTH
    modifies btfArgs
    ensures (btfArgs[..], out) == ArrayStep(ts, w, old(btfArgs[..]), v, path, i, idx)
    decreases |path| - i - 1, ts.rank(v), 3, 0
  {
    btfArgs[i] := btfArgs[i].(isInitialized := true);
    btfArgs[i] := btfArgs[i].(offset := Offset32(ts.size(v), idx));
    assert btfArgs[..] == Place(old(btfArgs[..]), i, Offset32(ts.size(v), idx));
    if |path| > i + 1 {
      out := ResolveBTFPath(ts, w, btfArgs, v, path, i + 1);
    } else {
      out := Resolved(v);
    }
  }

  /** `extract_arg`: at most ten steps, stopping at the first that is not initialised. */
  method ExtractArg(mem: Memory, btfConfig: array<ConfigBTFArg>, a: int) returns (r: int)
    requires btfConfig.Length == MAX_BTF_ARG_DEPTH
    ensures r == Extract(mem, btfConfig[..], 0, a)
  {
    r := a;
    var i := 0;
    while i < MAX_BTF_ARG_DEPTH
      invariant 0 <= i <= MAX_BTF_ARG_DEPTH
      invariant Extract(mem, btfConfig[..], 0, a) == Extract(mem, btfConfig[..], i, r)
    {
      if !btfConfig[i].isInitialized {
        break;
      }
      r := r + btfConfig[i].offset;
      if btfConfig[i].isPointer {
        r := mem(r);
      }
      i := i + 1;
    }
  }
}
