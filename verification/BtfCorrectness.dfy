/** Running the steps the compiler emits gives the C value of the path: exactly when. */
module BtfCorrectness {
  import opened Common
  import opened BtfTypes
  import opened BtfResolve

  // ---------------------------------------------------------------- running the steps

  function RunSteps(mem: Memory, steps: seq<ConfigBTFArg>, a: int): int
  {
    if steps == [] then a
    else
      var b := a + steps[0].offset;
      RunSteps(mem, steps[1..], if steps[0].isPointer then mem(b) else b)
  }

  ghost predicate AllInitialized(steps: seq<ConfigBTFArg>)
  {
    forall s :: s in steps ==> s.isInitialized
  }

  lemma {:induction false} ExtractRunsSteps(mem: Memory, args: Args, j: nat, n: nat, a: int)
    requires j <= n <= MAX_BTF_ARG_DEPTH && AllInitialized(args[j..n])
    requires n < MAX_BTF_ARG_DEPTH ==> !args[n].isInitialized
    ensures Extract(mem, args, j, a) == RunSteps(mem, args[j..n], a)
    decreases n - j
  {
    if j < n {
      var b := a + args[j].offset;
      assert args[j] == args[j..n][0] && args[j] in args[j..n];
      assert args[j..n][1..] == args[j + 1..n];
      ExtractRunsSteps(mem, args, j + 1, n, if args[j].isPointer then mem(b) else b);
    }
  }

  lemma {:induction false} StepsInitialized(ts: Types, t: TypeId, path: seq<string>, i: nat)
    requires ts.Ranked() && i < |path| && CDefined(ts, t, path, i)
    ensures AllInitialized(Steps(ts, t, path, i))
    decreases |path| - i
  {
    if i + 1 < |path| {
      StepsInitialized(ts, NextHop(ts, t, path[i]).value.ty, path, i + 1);
    }
  }

  function NoArgs(): Args { seq(MAX_BTF_ARG_DEPTH, _ => ZEROED) }

  /** The compiler run on a zeroed array, from the root type. */
  function Compiled(ts: Types, w: Wording, t: TypeId, path: seq<string>): (Args, Outcome)
    requires ts.Ranked() && 0 < |path| <= MAX_BTF_ARG_DEPTH
  {
    Resolve(ts, w, NoArgs(), t, path, 0)
  }

  lemma ExtractCompiled(ts: Types, w: Wording, mem: Memory, t: TypeId, path: seq<string>, a: int)
    requires ts.WellFormed() && 0 < |path| <= MAX_BTF_ARG_DEPTH
    requires CDefined(ts, t, path, 0) && Compiled(ts, w, t, path).1.Resolved?
    ensures Extract(mem, Compiled(ts, w, t, path).0, 0, a) == RunSteps(mem, Steps(ts, t, path, 0), a)
  {
    ResolveEmits(ts, w, NoArgs(), t, path, 0);
    StepsInitialized(ts, t, path, 0);
    var args := Compiled(ts, w, t, path).0;
    if |path| < MAX_BTF_ARG_DEPTH {
      assert args[|path|..][0] == NoArgs()[|path|..][0];
    }
    ExtractRunsSteps(mem, args, 0, |path|, a);
  }

  // ---------------------------------------------------------------- programs of loads

  /**
   Both the steps and the C walk add offsets and load words.  The shape of such a program lists the
   offsets added before each load, and after the last one.
   */
  function Eval(mem: Memory, shape: seq<nat>, a: int): int
    requires shape != []
  {
    if |shape| == 1 then a + shape[0] else Eval(mem, shape[1..], mem(a + shape[0]))
  }

  /** The shape of the emitted steps, `acc` having been added already. */
  function StepShape(steps: seq<ConfigBTFArg>, acc: nat): (r: seq<nat>)
    ensures r != [] && r[0] >= acc
  {
    if steps == [] then [acc]
    else
      var offset := acc + steps[0].offset;
      if steps[0].isPointer then [offset] + StepShape(steps[1..], 0) else StepShape(steps[1..], offset)
  }

  /** The shape of the C walk. */
  function CShape(ts: Types, t: TypeId, path: seq<string>, i: nat, acc: nat): (r: seq<nat>)
    requires ts.Ranked() && i < |path| && CDefined(ts, t, path, i)
    ensures r != [] && r[0] >= acc + NextHop(ts, t, path[i]).value.anon + NextHop(ts, t, path[i]).value.offset
    decreases |path| - i
  {
    var h := NextHop(ts, t, path[i]).value;
    var offset := acc + h.anon + h.offset;
    if i + 1 == |path| then if ts.Scalar(h.ty) then [offset, 0] else [offset]
    else if ts.node(h.ty).Pointer? then [offset] + CShape(ts, h.ty, path, i + 1, 0)
    else CShape(ts, h.ty, path, i + 1, offset)
  }

  lemma EvalCons(mem: Memory, o: nat, rest: seq<nat>, a: int)
    requires rest != []
    ensures Eval(mem, [o] + rest, a) == Eval(mem, rest, mem(a + o))
  {
    assert ([o] + rest)[1..] == rest;
  }

  lemma {:induction false} RunIsShape(mem: Memory, steps: seq<ConfigBTFArg>, acc: nat, a: int)
    ensures RunSteps(mem, steps, a + acc) == Eval(mem, StepShape(steps, acc), a)
    decreases |steps|
  {
    if steps != [] {
      var offset := acc + steps[0].offset;
      if steps[0].isPointer {
        RunIsShape(mem, steps[1..], 0, mem(a + offset));
        EvalCons(mem, offset, StepShape(steps[1..], 0), a);
      } else {
        RunIsShape(mem, steps[1..], offset, a);
      }
    }
  }

  lemma {:induction false} WalkIsShape(ts: Types, mem: Memory, t: TypeId, path: seq<string>, i: nat, acc: nat, a: int)
    requires ts.Ranked() && i < |path| && CDefined(ts, t, path, i)
    ensures CWalk(ts, mem, a + acc, t, path, i) == Eval(mem, CShape(ts, t, path, i, acc), a)
    decreases |path| - i
  {
    var h := NextHop(ts, t, path[i]).value;
    var offset := acc + h.anon + h.offset;
    if i + 1 == |path| {
      EvalCons(mem, offset, [0], a);
      assert [offset] + [0] == [offset, 0];
    } else if ts.node(h.ty).Pointer? {
      WalkIsShape(ts, mem, h.ty, path, i + 1, 0, mem(a + offset));
      EvalCons(mem, offset, CShape(ts, h.ty, path, i + 1, 0), a);
    } else {
      WalkIsShape(ts, mem, h.ty, path, i + 1, offset, a);
    }
  }

  // ---------------------------------------------------------------- different shapes, different values

  function Sum(s: seq<nat>): nat
  {
    if s == [] then 0 else s[0] + Sum(s[1..])
  }

  /** A memory in which the word at `x` is `b * x`: it writes a shape as digits to the base `b`. */
  function Scale(b: nat): Memory { x => b * x }

  lemma {:induction false} EvalSnoc(mem: Memory, s: seq<nat>, o: nat, a: int)
    requires s != []
    ensures Eval(mem, s + [o], a) == mem(Eval(mem, s, a)) + o
    decreases |s|
  {
    assert (s + [o])[1..] == s[1..] + [o];
    if |s| > 1 {
      EvalSnoc(mem, s[1..], o, mem(a + s[0]));
    }
  }

  lemma {:induction false} SumSnoc(s: seq<nat>, o: nat)
    ensures Sum(s + [o]) == Sum(s) + o
  {
    if s == [] {
      assert s + [o] == [o];
    } else {
      assert (s + [o])[1..] == s[1..] + [o];
      SumSnoc(s[1..], o);
    }
  }

  lemma SameDigits(b: nat, x: int, y: int, r: nat, s: nat)
    requires r < b && s < b && b * x + r == b * y + s
    ensures x == y && r == s
  {
    if x > y {
      Times(b, x, y);
    } else if x < y {
      Times(b, y, x);
    }
  }

  lemma {:induction false} TimesPositive(b: nat, d: nat)
    ensures b * (d + 1) >= b
  {
    if d > 0 {
      TimesPositive(b, d - 1);
      assert b * (d + 1) == b * d + b;
    }
  }

  lemma Times(b: nat, x: int, y: int)
    requires x > y
    ensures b * x >= b * y + b
  {
    TimesPositive(b, x - y - 1);
    assert b * x == b * y + b * (x - y);
  }

  lemma {:induction false} ScaledAtLeast(b: nat, s: seq<nat>)
    requires s != [] && b > 0
    ensures Eval(Scale(b), s, 1) >= if |s| == 1 then 1 else b
    decreases |s|
  {
    if |s| > 1 {
      var init, last := s[..|s| - 1], s[|s| - 1];
      assert s == init + [last];
      ScaledAtLeast(b, init);
      EvalSnoc(Scale(b), init, last, 1);
      assert b * Eval(Scale(b), init, 1) >= b;
    }
  }

  lemma {:induction false} ShapesDiffer(b: nat, p: seq<nat>, q: seq<nat>)
    requires p != [] && q != [] && b > 1 + Sum(p) && b > 1 + Sum(q)
    requires Eval(Scale(b), p, 1) == Eval(Scale(b), q, 1)
    ensures p == q
    decreases |p|
  {
    ScaledAtLeast(b, p);
    ScaledAtLeast(b, q);
    if |p| > 1 && |q| > 1 {
      var p', o, q', r := p[..|p| - 1], p[|p| - 1], q[..|q| - 1], q[|q| - 1];
      assert p == p' + [o] && q == q' + [r];
      SumSnoc(p', o);
      SumSnoc(q', r);
      EvalSnoc(Scale(b), p', o, 1);
      EvalSnoc(Scale(b), q', r, 1);
      SameDigits(b, Eval(Scale(b), p', 1), Eval(Scale(b), q', 1), o, r);
      ShapesDiffer(b, p', q');
    } else {
      SumSingle(p);
      SumSingle(q);
    }
  }

  lemma SumSingle(s: seq<nat>)
    ensures |s| == 1 ==> Sum(s) == s[0]
  {
  }

  /** Two programs give the same value for every memory and argument only if their shapes are equal. */
  lemma EqualOnAllMemories(p: seq<nat>, q: seq<nat>)
    requires p != [] && q != []
    ensures (forall mem: Memory, a: int :: Eval(mem, p, a) == Eval(mem, q, a)) <==> p == q
  {
    if p != q {
      var mem := Scale(2 + Sum(p) + Sum(q));
      if Eval(mem, p, 1) == Eval(mem, q, 1) {
        ShapesDiffer(2 + Sum(p) + Sum(q), p, q);
      }
      assert Eval(mem, p, 1) != Eval(mem, q, 1);
    }
  }

  // ---------------------------------------------------------------- when the meaning is kept

  /**
   A load that C does not make: of an element indexed through a pointer that is neither a pointer
   nor, at the end, an integer.
   */
  predicate ExtraLoad(ts: Types, h: Hop, last: bool)
  {
    h.how == ByPointerIndex && !(if last then ts.Scalar(h.ty) else ts.node(h.ty).Pointer?)
  }

  /** A load that C makes at the end and the steps do not: of an array element, an enumeration or a float. */
  predicate MissingLoad(ts: Types, h: Hop, last: bool)
  {
    last && ts.Scalar(h.ty) && (h.how == ByArrayIndex || (h.how == ByMember && !LoadedMember(ts, h.ty)))
  }

  /** Bytes of offset that the steps lose: those of anonymous members, and 32-bit wrap-around. */
  function LostBytes(ts: Types, t: TypeId, path: seq<string>, i: nat): nat
    requires ts.Ranked() && i < |path| && CDefined(ts, t, path, i)
    decreases |path| - i
  {
    var h := NextHop(ts, t, path[i]).value;
    h.anon + (if h.how == ByMember then 0 else h.offset - h.offset % U32)
    + (if i + 1 < |path| then LostBytes(ts, h.ty, path, i + 1) else 0)
  }

  /** From a common base: no byte is lost, and no load added or missing unless one makes good the other. */
  predicate Keeps(ts: Types, t: TypeId, path: seq<string>, i: nat)
    requires ts.Ranked() && i < |path| && CDefined(ts, t, path, i)
    decreases |path| - i
  {
    var h := NextHop(ts, t, path[i]).value;
    var last := i + 1 == |path|;
    && LostBytes(ts, t, path, i) == 0
    && !MissingLoad(ts, h, last)
    && (last ==> !ExtraLoad(ts, h, last))
    && (!last ==> if ExtraLoad(ts, h, last) then CatchesUp(ts, h.ty, path, i + 1) else Keeps(ts, h.ty, path, i + 1))
  }

  /**
   The steps are one load ahead: only a load missing at the end, with no offset before it, makes
   that good.
   */
  predicate CatchesUp(ts: Types, t: TypeId, path: seq<string>, i: nat)
    requires ts.Ranked() && i < |path| && CDefined(ts, t, path, i)
    decreases |path| - i
  {
    var h := NextHop(ts, t, path[i]).value;
    var last := i + 1 == |path|;
    && h.anon + h.offset == 0
    && !ExtraLoad(ts, h, last)
    && if last then MissingLoad(ts, h, last) else CatchesUp(ts, h.ty, path, i + 1)
  }

  /** The steps are one load behind: only an added load, with no offset before it, makes that good. */
  predicate MakesGood(ts: Types, t: TypeId, path: seq<string>, i: nat)
    requires ts.Ranked() && i < |path| && CDefined(ts, t, path, i)
    decreases |path| - i
  {
    var h := NextHop(ts, t, path[i]).value;
    var last := i + 1 == |path|;
    && h.anon + h.offset == 0
    && if ExtraLoad(ts, h, last) then last || Keeps(ts, h.ty, path, i + 1)
       else !last && MakesGood(ts, h.ty, path, i + 1)
  }

  lemma SumCons(o: nat, rest: seq<nat>)
    ensures Sum([o] + rest) == o + Sum(rest)
  {
    assert ([o] + rest)[1..] == rest;
  }

  lemma ShapeOfSteps(ts: Types, t: TypeId, path: seq<string>, i: nat, acc: nat)
    requires ts.Ranked() && i < |path| && CDefined(ts, t, path, i)
    ensures var h := NextHop(ts, t, path[i]).value;
            var step := StepOf(ts, h, i + 1 == |path|);
            StepShape(Steps(ts, t, path, i), acc)
            == if step.isPointer then [acc + step.offset] + StepShape(Rest(ts, h, path, i), 0)
               else StepShape(Rest(ts, h, path, i), acc + step.offset)
  {
    var h := NextHop(ts, t, path[i]).value;
    assert Steps(ts, t, path, i)[1..] == Rest(ts, h, path, i);
  }

  function Offsets(steps: seq<ConfigBTFArg>): nat
  {
    if steps == [] then 0 else steps[0].offset + Offsets(steps[1..])
  }

  function COffsets(ts: Types, t: TypeId, path: seq<string>, i: nat): nat
    requires ts.Ranked() && i < |path| && CDefined(ts, t, path, i)
    decreases |path| - i
  {
    var h := NextHop(ts, t, path[i]).value;
    h.anon + h.offset + if i + 1 < |path| then COffsets(ts, h.ty, path, i + 1) else 0
  }

  lemma {:induction false} SumStepShape(steps: seq<ConfigBTFArg>, acc: nat)
    ensures Sum(StepShape(steps, acc)) == acc + Offsets(steps)
    decreases |steps|
  {
    if steps == [] {
      SumSingle([acc]);
    } else {
      var offset := acc + steps[0].offset;
      SumCons(offset, StepShape(steps[1..], 0));
      SumStepShape(steps[1..], if steps[0].isPointer then 0 else offset);
    }
  }

  lemma {:induction false} SumCShape(ts: Types, t: TypeId, path: seq<string>, i: nat, acc: nat)
    requires ts.Ranked() && i < |path| && CDefined(ts, t, path, i)
    ensures Sum(CShape(ts, t, path, i, acc)) == acc + COffsets(ts, t, path, i)
    decreases |path| - i
  {
    var h := NextHop(ts, t, path[i]).value;
    var offset := acc + h.anon + h.offset;
    if i + 1 == |path| {
      SumCons(offset, [0]);
      assert [offset] + [0] == [offset, 0];
    } else {
      SumCons(offset, CShape(ts, h.ty, path, i + 1, 0));
      SumCShape(ts, h.ty, path, i + 1, if ts.node(h.ty).Pointer? then 0 else offset);
    }
  }

  lemma {:induction false} OffsetsLost(ts: Types, t: TypeId, path: seq<string>, i: nat)
    requires ts.Ranked() && i < |path| && CDefined(ts, t, path, i)
    ensures Offsets(Steps(ts, t, path, i)) + LostBytes(ts, t, path, i) == COffsets(ts, t, path, i)
    decreases |path| - i
  {
    var h := NextHop(ts, t, path[i]).value;
    assert Steps(ts, t, path, i)[1..] == Rest(ts, h, path, i);
    if i + 1 < |path| {
      OffsetsLost(ts, h.ty, path, i + 1);
    }
  }

  /** The offsets of the C walk exceed those of the steps by what is lost. */
  lemma SumsDiffer(ts: Types, t: TypeId, path: seq<string>, i: nat, acc: nat, acc': nat)
    requires ts.Ranked() && i < |path| && CDefined(ts, t, path, i)
    ensures Sum(StepShape(Steps(ts, t, path, i), acc)) - acc + LostBytes(ts, t, path, i)
            == Sum(CShape(ts, t, path, i, acc')) - acc'
  {
    SumStepShape(Steps(ts, t, path, i), acc);
    SumCShape(ts, t, path, i, acc');
    OffsetsLost(ts, t, path, i);
  }

  lemma NothingLost(ts: Types, t: TypeId, path: seq<string>, i: nat)
    requires ts.Ranked() && i < |path| && CDefined(ts, t, path, i) && LostBytes(ts, t, path, i) == 0
    ensures var h := NextHop(ts, t, path[i]).value;
            && h.anon == 0
            && StepOf(ts, h, i + 1 == |path|).offset == h.offset
            && (i + 1 < |path| ==> LostBytes(ts, h.ty, path, i + 1) == 0)
  {
  }

  /** The C walk makes at most one load more than the steps. */
  lemma {:induction false} LoadsAtMostOneMore(ts: Types, t: TypeId, path: seq<string>, i: nat, acc: nat, acc': nat)
    requires ts.Ranked() && i < |path| && CDefined(ts, t, path, i)
    ensures |CShape(ts, t, path, i, acc')| <= |StepShape(Steps(ts, t, path, i), acc)| + 1
    decreases |path| - i
  {
    var h := NextHop(ts, t, path[i]).value;
    var step := StepOf(ts, h, i + 1 == |path|);
    var b, b' := acc + step.offset, acc' + h.anon + h.offset;
    ShapeOfSteps(ts, t, path, i, acc);
    if i + 1 < |path| {
      LoadsAtMostOneMore(ts, h.ty, path, i + 1, if step.isPointer then 0 else b,
                         if ts.node(h.ty).Pointer? then 0 else b');
    }
  }

  lemma {:induction false} CaughtUp(ts: Types, t: TypeId, path: seq<string>, i: nat, acc: nat)
    requires ts.Ranked() && i < |path| && CDefined(ts, t, path, i)
    ensures [acc] + StepShape(Steps(ts, t, path, i), 0) == CShape(ts, t, path, i, acc) <==> CatchesUp(ts, t, path, i)
    decreases |path| - i
  {
    var h := NextHop(ts, t, path[i]).value;
    var last := i + 1 == |path|;
    var ours, theirs := [acc] + StepShape(Steps(ts, t, path, i), 0), CShape(ts, t, path, i, acc);
    ShapeOfSteps(ts, t, path, i, 0);
    if h.anon + h.offset > 0 {
      assert ours[0] < theirs[0];
    } else if !last {
      var rest := StepShape(Steps(ts, h.ty, path, i + 1), 0);
      if ExtraLoad(ts, h, last) {
        assert ours == [acc] + ([0] + rest);
        LoadsAtMostOneMore(ts, h.ty, path, i + 1, 0, acc);
      } else if ts.node(h.ty).Pointer? {
        CaughtUp(ts, h.ty, path, i + 1, 0);
        assert ours == [acc] + ([0] + rest);
        SameTail(acc, [0] + rest, CShape(ts, h.ty, path, i + 1, 0));
      } else {
        CaughtUp(ts, h.ty, path, i + 1, acc);
      }
    }
  }

  lemma SameTail(o: nat, p: seq<nat>, q: seq<nat>)
    ensures [o] + p == [o] + q <==> p == q
  {
    if [o] + p == [o] + q {
      assert ([o] + p)[1..] == ([o] + q)[1..];
      assert ([o] + p)[1..] == p && ([o] + q)[1..] == q;
    }
  }

  lemma LossShows(ts: Types, t: TypeId, path: seq<string>, i: nat, acc: nat)
    requires ts.Ranked() && i < |path| && CDefined(ts, t, path, i) && LostBytes(ts, t, path, i) > 0
    ensures StepShape(Steps(ts, t, path, i), acc) != CShape(ts, t, path, i, acc)
  {
    SumsDiffer(ts, t, path, i, acc, acc);
  }

  lemma SameEnd(ts: Types, t: TypeId, path: seq<string>, i: nat, acc: nat)
    requires ts.Ranked() && i + 1 == |path| && CDefined(ts, t, path, i) && LostBytes(ts, t, path, i) == 0
    ensures var h := NextHop(ts, t, path[i]).value;
            StepShape(Steps(ts, t, path, i), acc) == CShape(ts, t, path, i, acc)
            <==> !ExtraLoad(ts, h, true) && !MissingLoad(ts, h, true)
  {
    NothingLost(ts, t, path, i);
    ShapeOfSteps(ts, t, path, i, acc);
  }

  lemma CShapeNext(ts: Types, t: TypeId, path: seq<string>, i: nat, acc: nat, h: Hop)
    requires ts.Ranked() && i + 1 < |path| && CDefined(ts, t, path, i) && Some(h) == NextHop(ts, t, path[i])
    ensures var offset := acc + h.anon + h.offset;
            CShape(ts, t, path, i, acc)
            == if ts.node(h.ty).Pointer? then [offset] + CShape(ts, h.ty, path, i + 1, 0)
               else CShape(ts, h.ty, path, i + 1, offset)
  {
  }

  lemma StepShapeNext(ts: Types, t: TypeId, path: seq<string>, i: nat, acc: nat, h: Hop)
    requires ts.Ranked() && i + 1 < |path| && CDefined(ts, t, path, i) && LostBytes(ts, t, path, i) == 0
    requires Some(h) == NextHop(ts, t, path[i])
    ensures h.anon == 0
    ensures StepShape(Steps(ts, t, path, i), acc)
            == if ExtraLoad(ts, h, false) || ts.node(h.ty).Pointer?
               then [acc + h.offset] + StepShape(Steps(ts, h.ty, path, i + 1), 0)
               else StepShape(Steps(ts, h.ty, path, i + 1), acc + h.offset)
  {
    ShapeOfSteps(ts, t, path, i, acc);
    NothingLost(ts, t, path, i);
  }

  /** After an added load the steps are one load ahead. */
  lemma ShapesPart(ts: Types, t: TypeId, path: seq<string>, i: nat, acc: nat, h: Hop)
    requires ts.Ranked() && i + 1 < |path| && CDefined(ts, t, path, i) && LostBytes(ts, t, path, i) == 0
    requires Some(h) == NextHop(ts, t, path[i]) && ExtraLoad(ts, h, false)
    ensures StepShape(Steps(ts, t, path, i), acc) == [acc + h.offset] + StepShape(Steps(ts, h.ty, path, i + 1), 0)
    ensures CShape(ts, t, path, i, acc) == CShape(ts, h.ty, path, i + 1, acc + h.offset)
  {
    StepShapeNext(ts, t, path, i, acc, h);
    CShapeNext(ts, t, path, i, acc, h);
  }

  /** Where nothing is lost and no load added, both shapes go on alike. */
  lemma ShapesNext(ts: Types, t: TypeId, path: seq<string>, i: nat, acc: nat, h: Hop)
    requires ts.Ranked() && i + 1 < |path| && CDefined(ts, t, path, i) && LostBytes(ts, t, path, i) == 0
    requires Some(h) == NextHop(ts, t, path[i]) && !ExtraLoad(ts, h, false)
    ensures StepShape(Steps(ts, t, path, i), acc)
            == if ts.node(h.ty).Pointer? then [acc + h.offset] + StepShape(Steps(ts, h.ty, path, i + 1), 0)
               else StepShape(Steps(ts, h.ty, path, i + 1), acc + h.offset)
    ensures CShape(ts, t, path, i, acc)
            == if ts.node(h.ty).Pointer? then [acc + h.offset] + CShape(ts, h.ty, path, i + 1, 0)
               else CShape(ts, h.ty, path, i + 1, acc + h.offset)
  {
    StepShapeNext(ts, t, path, i, acc, h);
    CShapeNext(ts, t, path, i, acc, h);
  }

  lemma SameNext(load: bool, o: nat, p: seq<nat>, p0: seq<nat>, p1: seq<nat>, q: seq<nat>, q0: seq<nat>, q1: seq<nat>)
    requires p == if load then [o] + p0 else p1
    requires q == if load then [o] + q0 else q1
    ensures p == q <==> if load then p0 == q0 else p1 == q1
  {
    if load {
      SameTail(o, p0, q0);
    }
  }

  lemma ShapesGoOn(ts: Types, t: TypeId, path: seq<string>, i: nat, acc: nat, h: Hop)
    requires ts.Ranked() && i + 1 < |path| && CDefined(ts, t, path, i) && LostBytes(ts, t, path, i) == 0
    requires Some(h) == NextHop(ts, t, path[i]) && !ExtraLoad(ts, h, false)
    ensures StepShape(Steps(ts, t, path, i), acc) == CShape(ts, t, path, i, acc)
            <==> if ts.node(h.ty).Pointer?
                 then StepShape(Steps(ts, h.ty, path, i + 1), 0) == CShape(ts, h.ty, path, i + 1, 0)
                 else StepShape(Steps(ts, h.ty, path, i + 1), acc + h.offset)
                      == CShape(ts, h.ty, path, i + 1, acc + h.offset)
  {
    ShapesNext(ts, t, path, i, acc, h);
    SameNext(ts.node(h.ty).Pointer?, acc + h.offset,
             StepShape(Steps(ts, t, path, i), acc), StepShape(Steps(ts, h.ty, path, i + 1), 0),
             StepShape(Steps(ts, h.ty, path, i + 1), acc + h.offset),
             CShape(ts, t, path, i, acc), CShape(ts, h.ty, path, i + 1, 0),
             CShape(ts, h.ty, path, i + 1, acc + h.offset));
  }

  lemma {:induction false} SameShape(ts: Types, t: TypeId, path: seq<string>, i: nat, acc: nat)
    requires ts.Ranked() && i < |path| && CDefined(ts, t, path, i)
    ensures StepShape(Steps(ts, t, path, i), acc) == CShape(ts, t, path, i, acc) <==> Keeps(ts, t, path, i)
    decreases |path| - i
  {
    var h := NextHop(ts, t, path[i]).value;
    if LostBytes(ts, t, path, i) > 0 {
      LossShows(ts, t, path, i, acc);
    } else if i + 1 == |path| {
      SameEnd(ts, t, path, i, acc);
    } else if ExtraLoad(ts, h, false) {
      ShapesPart(ts, t, path, i, acc, h);
      CaughtUp(ts, h.ty, path, i + 1, acc + h.offset);
    } else {
      ShapesGoOn(ts, t, path, i, acc, h);
      SameShape(ts, h.ty, path, i + 1, if ts.node(h.ty).Pointer? then 0 else acc + h.offset);
    }
  }

  lemma {:induction false} MadeGood(ts: Types, t: TypeId, path: seq<string>, i: nat, acc: nat)
    requires ts.Ranked() && i < |path| && CDefined(ts, t, path, i)
    ensures StepShape(Steps(ts, t, path, i), acc) == [acc] + CShape(ts, t, path, i, 0) <==> MakesGood(ts, t, path, i)
    decreases |path| - i
  {
    var h := NextHop(ts, t, path[i]).value;
    var last := i + 1 == |path|;
    var ours, theirs := StepShape(Steps(ts, t, path, i), acc), [acc] + CShape(ts, t, path, i, 0);
    ShapeOfSteps(ts, t, path, i, acc);
    if h.anon + h.offset > 0 {
      OffsetBeforeLoad(ts, t, path, i, acc);
    } else if !last {
      var c := CShape(ts, h.ty, path, i + 1, 0);
      if ExtraLoad(ts, h, last) {
        SameShape(ts, h.ty, path, i + 1, 0);
        SameTail(acc, StepShape(Steps(ts, h.ty, path, i + 1), 0), c);
      } else if ts.node(h.ty).Pointer? {
        MadeGood(ts, h.ty, path, i + 1, 0);
        SameTail(acc, StepShape(Steps(ts, h.ty, path, i + 1), 0), [0] + c);
      } else {
        MadeGood(ts, h.ty, path, i + 1, acc);
      }
    }
  }

  lemma OffsetBeforeLoad(ts: Types, t: TypeId, path: seq<string>, i: nat, acc: nat)
    requires ts.Ranked() && i < |path| && CDefined(ts, t, path, i)
    requires NextHop(ts, t, path[i]).value.anon + NextHop(ts, t, path[i]).value.offset > 0
    ensures StepShape(Steps(ts, t, path, i), acc) != [acc] + CShape(ts, t, path, i, 0)
  {
    ShapeOfSteps(ts, t, path, i, acc);
    if LostBytes(ts, t, path, i) > 0 {
      SumsDiffer(ts, t, path, i, acc, 0);
      SumCons(acc, CShape(ts, t, path, i, 0));
    } else {
      NothingLost(ts, t, path, i);
      assert StepShape(Steps(ts, t, path, i), acc)[0] > acc;
    }
  }

  /**
   Compiler correctness.  For an accepted path that means something in C, running the emitted
   steps gives the C value for every memory and every argument if and only if the types and the path
   satisfy `Keeps`: no anonymous member has a non-zero offset, no index product exceeds 32 bits, no
   load is added for an element indexed through a pointer and none is missing for an array element at
   the end, except that one of each cancel out when only zero offsets lie between them.  The type
   returned is always the one C finds at the end of the path.
   */
  lemma CompilerCorrect(ts: Types, w: Wording, t: TypeId, path: seq<string>)
    requires ts.WellFormed() && 0 < |path| <= MAX_BTF_ARG_DEPTH
    requires CDefined(ts, t, path, 0) && Compiled(ts, w, t, path).1.Resolved?
    ensures (forall mem: Memory, a: int ::
               Extract(mem, Compiled(ts, w, t, path).0, 0, a) == CWalk(ts, mem, a, t, path, 0))
            <==> Keeps(ts, t, path, 0)
    ensures Compiled(ts, w, t, path).1 == Resolved(EndType(ts, t, path, 0))
  {
    var args, p, q := Compiled(ts, w, t, path).0, StepShape(Steps(ts, t, path, 0), 0), CShape(ts, t, path, 0, 0);
    forall mem: Memory, a: int
      ensures Extract(mem, args, 0, a) == Eval(mem, p, a) && CWalk(ts, mem, a, t, path, 0) == Eval(mem, q, a)
    {
      ExtractCompiled(ts, w, mem, t, path, a);
      RunIsShape(mem, Steps(ts, t, path, 0), 0, a);
      WalkIsShape(ts, mem, t, path, 0, 0, a);
    }
    ResolveEmits(ts, w, NoArgs(), t, path, 0);
    EqualOnAllMemories(p, q);
    SameShape(ts, t, path, 0, 0);
    if p != q {
      var mem, a :| Eval(mem, p, a) != Eval(mem, q, a);
      assert Extract(mem, args, 0, a) != CWalk(ts, mem, a, t, path, 0);
    }
  }
}
