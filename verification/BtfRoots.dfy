/**
 Roots that are pointers (pkg/sensors/tracing/generic.go): the argument is the address of an object
 of the root type, and the caller of the compiler puts one "[0]" in front of the path for every
 pointer that the root type starts with.
 */
module BtfRoots {
  import opened Common
  import opened BtfTypes
  import opened BtfResolve
  import opened BtfCorrectness

  /** addPaddingOnNestedPtr: it looks at the type as declared, without stripping qualifiers. */
  function Pad(ts: Types, ty: TypeId, path: seq<string>): (r: seq<string>)
    requires ts.Ranked()
    ensures |r| >= |path|
    decreases ts.rank(ty)
  {
    if ts.node(ty).Pointer? then Pad(ts, ts.node(ty).target, ["[0]"] + path) else path
  }

  function Pointers(ts: Types, ty: TypeId): nat
    requires ts.Ranked()
    decreases ts.rank(ty)
  {
    if ts.node(ty).Pointer? then 1 + Pointers(ts, ts.node(ty).target) else 0
  }

  /** The type behind the pointers, resolved. */
  function Behind(ts: Types, ty: TypeId): TypeId
    requires ts.Ranked()
    decreases ts.rank(ty)
  {
    if ts.node(ty).Pointer? then Behind(ts, ts.node(ty).target) else ts.ResolveNestedTypes(ty)
  }

  function Follow(ts: Types, mem: Memory, a: int, ty: TypeId): int
    requires ts.Ranked()
    decreases ts.rank(ty)
  {
    if ts.node(ty).Pointer? then Follow(ts, mem, mem(a), ts.node(ty).target) else a
  }

  /** C's value of the path in the object of type `ty` at address `a`, its leading pointers followed. */
  function CAccess(ts: Types, mem: Memory, a: int, ty: TypeId, path: seq<string>): int
    requires ts.Ranked() && path != [] && CDefined(ts, Behind(ts, ty), path, 0)
  {
    var b, u := Follow(ts, mem, a, ty), Behind(ts, ty);
    CWalk(ts, mem, if ts.node(u).Pointer? then mem(b) else b, u, path, 0)
  }

  function Brackets(n: nat): seq<string>
  {
    seq(n, _ => "[0]")
  }

  function NoOffsets(n: nat): (r: seq<nat>)
    ensures |r| == n
  {
    if n == 0 then [] else [0] + NoOffsets(n - 1)
  }

  lemma BracketsCons(n: nat, path: seq<string>)
    ensures Brackets(n + 1) + path == ["[0]"] + (Brackets(n) + path)
  {
  }

  lemma {:induction false} NoOffsetsCons(n: nat, shape: seq<nat>)
    ensures NoOffsets(n + 1) + shape == [0] + (NoOffsets(n) + shape)
  {
  }

  lemma {:induction false} PadIs(ts: Types, ty: TypeId, path: seq<string>)
    requires ts.Ranked()
    ensures Pad(ts, ty, path) == Brackets(Pointers(ts, ty)) + path
    decreases ts.rank(ty)
  {
    if ts.node(ty).Pointer? {
      PadIs(ts, ts.node(ty).target, ["[0]"] + path);
    }
  }

  lemma BracketIsZero()
    ensures ParseArrayIdxStr("[0]") == Some(0)
  {
    ParsesExactlyIndices("[0]", 0);
    assert "[0]" == "[" + Zeros(0) + Decimal(0) + "]";
  }

  lemma {:induction false} SuffixSame(ts: Types, t: TypeId, p: seq<string>, i: nat, q: seq<string>, j: nat)
    requires ts.Ranked() && i < |p| && j < |q| && p[i..] == q[j..]
    ensures CDefined(ts, t, p, i) == CDefined(ts, t, q, j)
    ensures CDefined(ts, t, p, i) ==> Steps(ts, t, p, i) == Steps(ts, t, q, j)
    ensures CDefined(ts, t, p, i) ==> EndType(ts, t, p, i) == EndType(ts, t, q, j)
    decreases |p| - i
  {
    assert p[i] == p[i..][0] == q[j..][0] == q[j];
    assert |p| - i == |p[i..]| == |q[j..]| == |q| - j;
    var h := NextHop(ts, t, p[i]);
    if i + 1 < |p| && h.Some? {
      assert p[i + 1..] == p[i..][1..] == q[j..][1..] == q[j + 1..];
      SuffixSame(ts, h.value.ty, p, i + 1, q, j + 1);
    }
  }

  /** A bracket in front of a path through a pointer is a step that loads it and adds nothing. */
  lemma {:induction false} BracketStep(ts: Types, t: TypeId, v: TypeId, q: seq<string>)
    requires ts.Ranked() && q != []
    requires ts.node(t).Pointer? && v == ts.ResolveNestedTypes(ts.node(t).target)
    ensures CDefined(ts, t, ["[0]"] + q, 0) == CDefined(ts, v, q, 0)
    ensures CDefined(ts, v, q, 0) ==>
              && StepShape(Steps(ts, t, ["[0]"] + q, 0), 0) == [0] + StepShape(Steps(ts, v, q, 0), 0)
              && EndType(ts, t, ["[0]"] + q, 0) == EndType(ts, v, q, 0)
  {
    var p := ["[0]"] + q;
    BracketIsZero();
    assert NextHop(ts, t, p[0]) == Some(Hop(ByPointerIndex, 0, 0, v)) by {
      assert ts.size(v) * 0 == 0;
    }
    SuffixSame(ts, v, p, 1, q, 0);
    if CDefined(ts, v, q, 0) {
      ShapeOfSteps(ts, t, p, 0, 0);
    }
  }

  /** Each bracket is a step that loads the pointer and adds nothing. */
  lemma {:induction false} PaddedSteps(ts: Types, ty: TypeId, path: seq<string>)
    requires ts.Ranked() && path != []
    ensures var t, p, u := ts.ResolveNestedTypes(ty), Brackets(Pointers(ts, ty)) + path, Behind(ts, ty);
            && CDefined(ts, t, p, 0) == CDefined(ts, u, path, 0)
            && (CDefined(ts, t, p, 0) ==>
                  && StepShape(Steps(ts, t, p, 0), 0)
                     == NoOffsets(Pointers(ts, ty)) + StepShape(Steps(ts, u, path, 0), 0)
                  && EndType(ts, t, p, 0) == EndType(ts, u, path, 0))
    decreases ts.rank(ty)
  {
    if ts.node(ty).Pointer? {
      var target := ts.node(ty).target;
      var n, v := Pointers(ts, target), ts.ResolveNestedTypes(target);
      BracketsCons(n, path);
      PaddedSteps(ts, target, path);
      BracketStep(ts, ty, v, Brackets(n) + path);
      if CDefined(ts, v, Brackets(n) + path, 0) {
        NoOffsetsCons(n, StepShape(Steps(ts, Behind(ts, ty), path, 0), 0));
      }
    } else {
      assert Brackets(0) + path == path;
    }
  }

  lemma {:induction false} FollowIsShape(ts: Types, mem: Memory, a: int, ty: TypeId, shape: seq<nat>)
    requires ts.Ranked() && shape != []
    ensures Eval(mem, NoOffsets(Pointers(ts, ty)) + shape, a) == Eval(mem, shape, Follow(ts, mem, a, ty))
    decreases ts.rank(ty)
  {
    if ts.node(ty).Pointer? {
      var rest := NoOffsets(Pointers(ts, ts.node(ty).target)) + shape;
      FollowIsShape(ts, mem, mem(a), ts.node(ty).target, shape);
      EvalCons(mem, 0, rest, a);
      NoOffsetsCons(Pointers(ts, ts.node(ty).target), shape);
    } else {
      assert NoOffsets(0) + shape == shape;
    }
  }

  /** The types and the path keep the meaning behind the padding. */
  predicate RootKeeps(ts: Types, ty: TypeId, path: seq<string>)
    requires ts.Ranked() && path != [] && CDefined(ts, Behind(ts, ty), path, 0)
  {
    var u := Behind(ts, ty);
    if ts.node(u).Pointer? then MakesGood(ts, u, path, 0) else Keeps(ts, u, path, 0)
  }

  /** The shape of C's access. */
  function AccessShape(ts: Types, ty: TypeId, path: seq<string>): (r: seq<nat>)
    requires ts.Ranked() && path != [] && CDefined(ts, Behind(ts, ty), path, 0)
    ensures r != []
  {
    var u := Behind(ts, ty);
    if ts.node(u).Pointer? then [0] + CShape(ts, u, path, 0, 0) else CShape(ts, u, path, 0, 0)
  }

  lemma AccessIsShape(ts: Types, mem: Memory, a: int, ty: TypeId, path: seq<string>)
    requires ts.Ranked() && path != [] && CDefined(ts, Behind(ts, ty), path, 0)
    ensures CAccess(ts, mem, a, ty, path) == Eval(mem, NoOffsets(Pointers(ts, ty)) + AccessShape(ts, ty, path), a)
  {
    var b, u := Follow(ts, mem, a, ty), Behind(ts, ty);
    FollowIsShape(ts, mem, a, ty, AccessShape(ts, ty, path));
    WalkIsShape(ts, mem, u, path, 0, 0, if ts.node(u).Pointer? then mem(b) else b);
    EvalCons(mem, 0, CShape(ts, u, path, 0, 0), b);
  }

  lemma SamePrefix(a: seq<nat>, p: seq<nat>, q: seq<nat>)
    ensures a + p == a + q <==> p == q
  {
    if a + p == a + q {
      assert (a + p)[|a|..] == p && (a + q)[|a|..] == q;
    }
  }

  /** The shape of the steps for the padded path. */
  function PaddedShape(ts: Types, ty: TypeId, path: seq<string>): (r: seq<nat>)
    requires ts.Ranked() && path != [] && CDefined(ts, Behind(ts, ty), path, 0)
    ensures r != []
  {
    NoOffsets(Pointers(ts, ty)) + StepShape(Steps(ts, Behind(ts, ty), path, 0), 0)
  }

  lemma PaddedRuns(ts: Types, w: Wording, mem: Memory, a: int, ty: TypeId, path: seq<string>)
    requires ts.WellFormed() && path != [] && |Pad(ts, ty, path)| <= MAX_BTF_ARG_DEPTH
    requires CDefined(ts, Behind(ts, ty), path, 0)
    requires Compiled(ts, w, ts.ResolveNestedTypes(ty), Pad(ts, ty, path)).1.Resolved?
    ensures Extract(mem, Compiled(ts, w, ts.ResolveNestedTypes(ty), Pad(ts, ty, path)).0, 0, a)
            == Eval(mem, PaddedShape(ts, ty, path), a)
  {
    var t, padded := ts.ResolveNestedTypes(ty), Pad(ts, ty, path);
    PadIs(ts, ty, path);
    PaddedSteps(ts, ty, path);
    ExtractCompiled(ts, w, mem, t, padded, a);
    RunIsShape(mem, Steps(ts, t, padded, 0), 0, a);
  }

  lemma PaddedType(ts: Types, w: Wording, ty: TypeId, path: seq<string>)
    requires ts.WellFormed() && path != [] && |Pad(ts, ty, path)| <= MAX_BTF_ARG_DEPTH
    requires CDefined(ts, Behind(ts, ty), path, 0)
    requires Compiled(ts, w, ts.ResolveNestedTypes(ty), Pad(ts, ty, path)).1.Resolved?
    ensures Compiled(ts, w, ts.ResolveNestedTypes(ty), Pad(ts, ty, path)).1
            == Resolved(EndType(ts, Behind(ts, ty), path, 0))
  {
    PadIs(ts, ty, path);
    PaddedSteps(ts, ty, path);
    ResolveEmits(ts, w, NoArgs(), ts.ResolveNestedTypes(ty), Pad(ts, ty, path), 0);
  }

  lemma RootShapes(ts: Types, ty: TypeId, path: seq<string>)
    requires ts.Ranked() && path != [] && CDefined(ts, Behind(ts, ty), path, 0)
    ensures PaddedShape(ts, ty, path) == NoOffsets(Pointers(ts, ty)) + AccessShape(ts, ty, path)
            <==> RootKeeps(ts, ty, path)
  {
    var u := Behind(ts, ty);
    SamePrefix(NoOffsets(Pointers(ts, ty)), StepShape(Steps(ts, u, path, 0), 0), AccessShape(ts, ty, path));
    if ts.node(u).Pointer? {
      MadeGood(ts, u, path, 0, 0);
    } else {
      SameShape(ts, u, path, 0, 0);
    }
  }

  /**
   An accepted path with its padding yields C's value in the object the argument points to, for every
   memory and argument, if and only if the path keeps the meaning from the type behind the pointers;
   where a qualifier hides a further pointer, which is not padded for, it must make good that load.
   */
  lemma PaddedRootCorrect(ts: Types, w: Wording, ty: TypeId, path: seq<string>)
    requires ts.WellFormed() && path != [] && |Pad(ts, ty, path)| <= MAX_BTF_ARG_DEPTH
    requires CDefined(ts, Behind(ts, ty), path, 0)
    requires Compiled(ts, w, ts.ResolveNestedTypes(ty), Pad(ts, ty, path)).1.Resolved?
    ensures (forall mem: Memory, a: int ::
               Extract(mem, Compiled(ts, w, ts.ResolveNestedTypes(ty), Pad(ts, ty, path)).0, 0, a)
               == CAccess(ts, mem, a, ty, path))
            <==> RootKeeps(ts, ty, path)
    ensures Compiled(ts, w, ts.ResolveNestedTypes(ty), Pad(ts, ty, path)).1
            == Resolved(EndType(ts, Behind(ts, ty), path, 0))
  {
    PaddedType(ts, w, ty, path);
    var args := Compiled(ts, w, ts.ResolveNestedTypes(ty), Pad(ts, ty, path)).0;
    var p, q := PaddedShape(ts, ty, path), NoOffsets(Pointers(ts, ty)) + AccessShape(ts, ty, path);
    forall mem: Memory, a: int
      ensures Extract(mem, args, 0, a) == Eval(mem, p, a) && CAccess(ts, mem, a, ty, path) == Eval(mem, q, a)
    {
      PaddedRuns(ts, w, mem, a, ty, path);
      AccessIsShape(ts, mem, a, ty, path);
    }
    EqualOnAllMemories(p, q);
    RootShapes(ts, ty, path);
    if p != q {
      var mem, a :| Eval(mem, p, a) != Eval(mem, q, a);
      assert Extract(mem, args, 0, a) != CAccess(ts, mem, a, ty, path);
    }
  }

  // ---------------------------------------------------------------- hook parameters

  /** The root for a hook parameter: what it points to, if it is declared as a pointer. */
  function RootType(ts: Types, param: TypeId): TypeId
  {
    if ts.node(param).Pointer? then ts.node(param).target else param
  }

  predicate ArgumentDefined(ts: Types, param: TypeId, path: seq<string>)
    requires ts.Ranked() && path != []
  {
    if ts.node(param).Pointer? then CDefined(ts, Behind(ts, ts.node(param).target), path, 0)
    else CDefined(ts, ts.ResolveNestedTypes(param), path, 0)
  }

  /**
   C's value of the path in argument `a`.  A declared pointer points to an object whose own leading
   pointers are followed; a pointer hidden by a typedef or qualifier is the argument's value.
   */
  function CArgument(ts: Types, mem: Memory, a: int, param: TypeId, path: seq<string>): int
    requires ts.Ranked() && path != [] && ArgumentDefined(ts, param, path)
  {
    if ts.node(param).Pointer? then CAccess(ts, mem, a, ts.node(param).target, path)
    else CWalk(ts, mem, a, ts.ResolveNestedTypes(param), path, 0)
  }

  /** What is compiled for a parameter yields C's value exactly when the path keeps its meaning. */
  lemma ArgumentCorrect(ts: Types, w: Wording, param: TypeId, path: seq<string>)
    requires ts.WellFormed() && path != [] && |Pad(ts, RootType(ts, param), path)| <= MAX_BTF_ARG_DEPTH
    requires ArgumentDefined(ts, param, path)
    requires var root := RootType(ts, param);
             Compiled(ts, w, ts.ResolveNestedTypes(root), Pad(ts, root, path)).1.Resolved?
    ensures var root := RootType(ts, param);
            (forall mem: Memory, a: int ::
               Extract(mem, Compiled(ts, w, ts.ResolveNestedTypes(root), Pad(ts, root, path)).0, 0, a)
               == CArgument(ts, mem, a, param, path))
            <==> if ts.node(param).Pointer? then RootKeeps(ts, root, path)
                 else Keeps(ts, ts.ResolveNestedTypes(param), path, 0)
    ensures var root := RootType(ts, param);
            Compiled(ts, w, ts.ResolveNestedTypes(root), Pad(ts, root, path)).1
            == Resolved(EndType(ts, Behind(ts, root), path, 0))
  {
    if ts.node(param).Pointer? {
      PaddedRootCorrect(ts, w, ts.node(param).target, path);
    } else {
      CompilerCorrect(ts, w, ts.ResolveNestedTypes(param), path);
    }
  }
}
