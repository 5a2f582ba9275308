/**
 The cgroup tracker (pkg/cgtracker/cgtracker.go with bpf/cgroup/bpf_cgtracker.c): a directory walk
 that maps a subtree to its root while the kernel keeps creating and removing cgroups, a hook
 copying the parent's tracker to every new one.
 */
module CgTracker {
  type CgroupId = nat

  /** `level` is the kernel's depth; the parent of a cgroup at level 0 is not looked up. */
  datatype Cgroup = Cgroup(parent: CgroupId, level: nat)

  /** What the walk still has to do, first entry first. */
  datatype Task =
    | Visit(id: CgroupId)
    | Update(id: CgroupId)
    | List(id: CgroupId)
    | Read(id: CgroupId, due: set<CgroupId>)  // open for listing; `due` was there when it was opened

  datatype State = State(
    live: map<CgroupId, Cgroup>,
    dead: set<CgroupId>,
    tracker: map<CgroupId, CgroupId>,
    work: seq<Task>)
  {
    /** The cgroup hierarchy: parents are live and one level up; id 0 and old ids are not reused. */
    ghost predicate Hierarchy() {
      && 0 !in live
      && live.Keys !! dead
      && (forall c :: c in live && live[c].level > 0 ==>
            live[c].parent in live && live[live[c].parent].level == live[c].level - 1)
    }

    /** `c` lies in the subtree of `root`, the root included. */
    predicate Under(c: CgroupId, root: CgroupId)
      requires Hierarchy()
      decreases if c in live then live[c].level else 0
    {
      c in live && (c == root || (live[c].level > 0 && Under(live[c].parent, root)))
    }

    predicate MapsTo(c: CgroupId, root: CgroupId) {
      c in tracker && tracker[c] == root
    }

    function Children(p: CgroupId): set<CgroupId> {
      set c | c in live && live[c].level > 0 && live[c].parent == p
    }
  }

  // ---------------------------------------------------------------- steps

  datatype Step =
    | WalkVisit                              // read the id of the next directory
    | WalkUpdate                             // map it to the root
    | WalkOpen                               // open it for listing
    | WalkRead(names: seq<CgroupId>)         // read its entries, in any order
    | Mkdir(c: CgroupId, p: CgroupId)        // the kernel creates c in p, and the hook runs
    | Rmdir(c: CgroupId)                     // the directory disappears
    | Release(c: CgroupId)                   // the release hook runs, any time later
  {
    predicate IsWalk() { WalkVisit? || WalkUpdate? || WalkOpen? || WalkRead? }
  }

  /**
   A listing is not a snapshot: it has what was there from the opening on, may have what was created
   or removed meanwhile, and has nothing else.
   */
  ghost predicate Listing(s: State, id: CgroupId, due: set<CgroupId>, names: seq<CgroupId>)
  {
    && (forall c :: c in due && c in s.Children(id) ==> c in names)
    && (forall c :: c in names ==> c in due || c in s.Children(id) || c in s.dead)
  }

  ghost predicate Enabled(s: State, root: CgroupId, step: Step)
  {
    match step
    case WalkVisit => s.work != [] && s.work[0].Visit?
    case WalkUpdate => s.work != [] && s.work[0].Update?
    case WalkOpen => s.work != [] && s.work[0].List?
    case WalkRead(names) => s.work != [] && s.work[0].Read? && Listing(s, s.work[0].id, s.work[0].due, names)
    case Mkdir(c, p) => c != 0 && c !in s.live && c !in s.dead && p in s.live
    case Rmdir(c) => c in s.live && c != root && s.Children(c) == {}
    case Release(c) => c in s.dead
  }

  /** The mkdir hook: a new cgroup inherits its parent's tracker, if the parent has one. */
  function MkdirHook(tracker: map<CgroupId, CgroupId>, c: CgroupId, p: CgroupId): map<CgroupId, CgroupId>
  {
    if c == 0 || p == 0 || p !in tracker then tracker else tracker[c := tracker[p]]
  }

  function Tasks(cs: seq<CgroupId>): (r: seq<Task>)
    ensures forall t :: t in r <==> t.Visit? && t.id in cs
  {
    if cs == [] then [] else [Visit(cs[0])] + Tasks(cs[1..])
  }

  function Apply(s: State, root: CgroupId, step: Step): State
    requires Enabled(s, root, step)
  {
    match step
    case WalkVisit =>
      // reading the id of a directory that is gone fails, and so does listing it
      if s.work[0].id in s.live then s.(work := [Update(s.work[0].id)] + s.work[1..])
      else s.(work := s.work[1..])
    case WalkUpdate =>
      s.(tracker := s.tracker[s.work[0].id := root], work := [List(s.work[0].id)] + s.work[1..])
    case WalkOpen =>
      s.(work := [Read(s.work[0].id, s.Children(s.work[0].id))] + s.work[1..])
    case WalkRead(names) =>
      s.(work := Tasks(names) + s.work[1..])
    case Mkdir(c, p) =>
      s.(live := s.live[c := Cgroup(p, s.live[p].level + 1)], tracker := MkdirHook(s.tracker, c, p))
    case Rmdir(c) =>
      s.(live := s.live - {c}, dead := s.dead + {c})
    case Release(c) =>
      s.(tracker := s.tracker - {c})
  }

  /** The walk as `AddCgroupTrackerPath` starts it: the root is mapped first, then listed. */
  function Begin(s: State, root: CgroupId): State
  {
    s.(tracker := s.tracker[root := root], work := [List(root)])
  }

  // ---------------------------------------------------------------- the invariants

  /** The walk will still read `c` in a listing of `p` that is open. */
  ghost predicate DueIn(s: State, p: CgroupId, c: CgroupId)
  {
    exists t :: t in s.work && t.Read? && t.id == p && c in t.due
  }

  /** The walk will still reach `c`: its visit is due, or its parent's listing or visit is. */
  ghost predicate Pending(s: State, root: CgroupId, c: CgroupId)
    requires s.Hierarchy() && c in s.live
    decreases s.live[c].level
  {
    || Visit(c) in s.work
    || Update(c) in s.work
    || (s.live[c].level > 0 &&
          (List(s.live[c].parent) in s.work
           || DueIn(s, s.live[c].parent, c)
           || (s.live[c].parent != root && Pending(s, root, s.live[c].parent))))
  }

  /** Every cgroup below the root is mapped to it or will be reached. */
  ghost predicate Complete(s: State, root: CgroupId)
  {
    && s.Hierarchy() && root in s.live && s.MapsTo(root, root)
    && (forall c :: c in s.live && c != root && s.Under(c, root) ==> s.MapsTo(c, root) || Pending(s, root, c))
  }

  /** `c` lies under the root, or did. */
  ghost predicate Inside(s: State, root: CgroupId, c: CgroupId)
    requires s.Hierarchy()
  {
    if c in s.live then s.Under(c, root) else c in s.dead
  }

  /** Nothing live outside the subtree is mapped to the root, or about to be. */
  ghost predicate Confined(s: State, root: CgroupId)
  {
    && s.Hierarchy() && root in s.live
    && (forall c :: s.MapsTo(c, root) ==> c in s.dead || s.Under(c, root))
    && (forall t :: t in s.work ==> Inside(s, root, t.id))
    && (forall t, c :: t in s.work && t.Read? && c in t.due ==> Inside(s, root, c))
  }

  lemma StepHierarchy(s: State, root: CgroupId, step: Step)
    requires s.Hierarchy() && root in s.live && Enabled(s, root, step)
    ensures Apply(s, root, step).Hierarchy() && root in Apply(s, root, step).live
  {
    if step.Rmdir? {
      forall c | c in s.live && s.live[c].level > 0
        ensures s.live[c].parent != step.c
      {
        assert c !in s.Children(step.c);
      }
    }
  }

  /** A step neither moves a cgroup nor changes who lies under whom. */
  lemma {:induction false} UnderStable(s: State, root: CgroupId, step: Step, c: CgroupId)
    requires s.Hierarchy() && root in s.live && Enabled(s, root, step)
    requires c in s.live && c in Apply(s, root, step).live
    ensures Apply(s, root, step).Hierarchy()
    ensures Apply(s, root, step).Under(c, root) == s.Under(c, root)
    decreases s.live[c].level
  {
    StepHierarchy(s, root, step);
    assert Apply(s, root, step).live[c] == s.live[c];
    if c != root && s.live[c].level > 0 {
      UnderStable(s, root, step, s.live[c].parent);
    }
  }

  /** A listing not yet open is still to come, or is open and has the child. */
  lemma ListingStable(s: State, root: CgroupId, step: Step, p: CgroupId, c: CgroupId)
    requires Enabled(s, root, step) && List(p) in s.work && c in s.Children(p)
    ensures List(p) in Apply(s, root, step).work || DueIn(Apply(s, root, step), p, c)
  {
    if step.IsWalk() {
      assert s.work == [s.work[0]] + s.work[1..];
      if step.WalkOpen? && s.work[0].id == p {
        assert Read(p, s.Children(p)) in Apply(s, root, step).work;
      }
    }
  }

  /** A child due in an open listing is read in it, as long as it lives. */
  lemma DueStable(s: State, root: CgroupId, step: Step, p: CgroupId, c: CgroupId)
    requires Enabled(s, root, step) && DueIn(s, p, c) && c in s.Children(p)
    ensures DueIn(Apply(s, root, step), p, c) || Visit(c) in Apply(s, root, step).work
  {
    var t :| t in s.work && t.Read? && t.id == p && c in t.due;
    if step.IsWalk() {
      assert s.work == [s.work[0]] + s.work[1..];
    }
    if !(step.WalkRead? && s.work[0] == t) {
      assert t in Apply(s, root, step).work;
    }
  }

  /** What is due stays due, until the step that maps it. */
  lemma {:induction false} PendingStable(s: State, root: CgroupId, step: Step, c: CgroupId)
    requires s.Hierarchy() && root in s.live && Enabled(s, root, step)
    requires c in s.live && c in Apply(s, root, step).live && Pending(s, root, c)
    ensures Apply(s, root, step).Hierarchy()
    ensures Pending(Apply(s, root, step), root, c) || (step.WalkUpdate? && c == s.work[0].id)
    decreases s.live[c].level
  {
    var s' := Apply(s, root, step);
    StepHierarchy(s, root, step);
    assert s'.live[c] == s.live[c];
    if step.IsWalk() {
      assert s.work == [s.work[0]] + s.work[1..];
    }
    if s.live[c].level > 0 {
      var p := s.live[c].parent;
      if List(p) in s.work {
        ListingStable(s, root, step, p, c);
      } else if DueIn(s, p, c) {
        DueStable(s, root, step, p, c);
      } else if p != root && Pending(s, root, p) {
        PendingStable(s, root, step, p);
      }
    }
  }

  /** A cgroup below the root stays mapped to it or due, whatever the step. */
  lemma StaysCovered(s: State, root: CgroupId, step: Step, c: CgroupId)
    requires s.Hierarchy() && root in s.live && Enabled(s, root, step)
    requires c in s.live && c in Apply(s, root, step).live
    requires s.MapsTo(c, root) || Pending(s, root, c)
    ensures Apply(s, root, step).Hierarchy()
    ensures Apply(s, root, step).MapsTo(c, root) || Pending(Apply(s, root, step), root, c)
  {
    StepHierarchy(s, root, step);
    if Pending(s, root, c) {
      PendingStable(s, root, step, c);
    }
  }

  /** A cgroup created in the subtree inherits the mapping, or is due because its parent is. */
  lemma CreatedCovered(s: State, root: CgroupId, step: Step)
    requires s.Hierarchy() && root in s.live && Enabled(s, root, step) && step.Mkdir?
    requires s.MapsTo(step.p, root) || (step.p != root && Pending(s, root, step.p))
    ensures Apply(s, root, step).Hierarchy()
    ensures Apply(s, root, step).MapsTo(step.c, root) || Pending(Apply(s, root, step), root, step.c)
  {
    StepHierarchy(s, root, step);
    if !s.MapsTo(step.p, root) {
      PendingStable(s, root, step, step.p);
    }
  }

  lemma StepKeepsComplete(s: State, root: CgroupId, step: Step)
    requires Complete(s, root) && Enabled(s, root, step)
    ensures Complete(Apply(s, root, step), root)
  {
    var s' := Apply(s, root, step);
    StepHierarchy(s, root, step);
    forall c | c in s'.live && c != root && s'.Under(c, root)
      ensures s'.MapsTo(c, root) || Pending(s', root, c)
    {
      if c in s.live {
        UnderStable(s, root, step, c);
        StaysCovered(s, root, step, c);
      } else {
        UnderStable(s, root, step, step.p);
        CreatedCovered(s, root, step);
      }
    }
  }

  lemma InsideStable(s: State, root: CgroupId, step: Step, c: CgroupId)
    requires s.Hierarchy() && root in s.live && Enabled(s, root, step) && Inside(s, root, c)
    ensures Apply(s, root, step).Hierarchy() && Inside(Apply(s, root, step), root, c)
  {
    StepHierarchy(s, root, step);
    if c in s.live && c in Apply(s, root, step).live {
      UnderStable(s, root, step, c);
    }
  }

  lemma ChildInside(s: State, root: CgroupId, p: CgroupId, c: CgroupId)
    requires s.Hierarchy() && Inside(s, root, p) && c in s.Children(p)
    ensures Inside(s, root, c)
  {
  }

  lemma StepKeepsTaskInside(s: State, root: CgroupId, step: Step, t: Task)
    requires Confined(s, root) && Enabled(s, root, step) && t in Apply(s, root, step).work
    ensures Apply(s, root, step).Hierarchy() && Inside(Apply(s, root, step), root, t.id)
  {
    StepHierarchy(s, root, step);
    if step.IsWalk() {
      assert s.work == [s.work[0]] + s.work[1..] && s.work[0] in s.work;
    }
    if t !in s.work && step.WalkRead? && t.id in s.Children(s.work[0].id) {
      ChildInside(s, root, s.work[0].id, t.id);
    }
    assert Inside(s, root, t.id);
    InsideStable(s, root, step, t.id);
  }

  lemma StepKeepsDueInside(s: State, root: CgroupId, step: Step, t: Task, c: CgroupId)
    requires Confined(s, root) && Enabled(s, root, step) && t in Apply(s, root, step).work && t.Read? && c in t.due
    ensures Apply(s, root, step).Hierarchy() && Inside(Apply(s, root, step), root, c)
  {
    if t !in s.work {
      assert s.work == [s.work[0]] + s.work[1..] && s.work[0] in s.work;
      assert step.WalkOpen? && t.id == s.work[0].id;
      ChildInside(s, root, t.id, c);
    }
    InsideStable(s, root, step, c);
  }

  lemma StepKeepsConfined(s: State, root: CgroupId, step: Step)
    requires Confined(s, root) && Enabled(s, root, step)
    ensures Confined(Apply(s, root, step), root)
  {
    var s' := Apply(s, root, step);
    StepHierarchy(s, root, step);
    forall t | t in s'.work
      ensures Inside(s', root, t.id) && forall c :: t.Read? && c in t.due ==> Inside(s', root, c)
    {
      StepKeepsTaskInside(s, root, step, t);
      forall c | t.Read? && c in t.due
        ensures Inside(s', root, c)
      {
        StepKeepsDueInside(s, root, step, t, c);
      }
    }
    forall c | s'.MapsTo(c, root)
      ensures c in s'.dead || s'.Under(c, root)
    {
      if step.WalkUpdate? && c == s.work[0].id {
        assert s.work[0] in s.work;
      }
      if c in s.live && c in s'.live {
        UnderStable(s, root, step, c);
      } else if c in s'.live {
        UnderStable(s, root, step, step.p);
      }
    }
  }

  // ---------------------------------------------------------------- whole runs

  ghost predicate Becomes(s: State, root: CgroupId, step: Step, s': State)
  {
    Enabled(s, root, step) && s' == Apply(s, root, step)
  }

  ghost predicate Run(states: seq<State>, steps: seq<Step>, root: CgroupId)
  {
    && |states| == |steps| + 1
    && (forall i :: 0 <= i < |steps| ==>
          Becomes(states[i], root, steps[i], states[i + 1]))
  }

  lemma {:induction false} RunKeeps(states: seq<State>, steps: seq<Step>, root: CgroupId, n: nat)
    requires Run(states, steps, root) && n < |states|
    ensures Complete(states[0], root) ==> Complete(states[n], root)
    ensures Confined(states[0], root) ==> Confined(states[n], root)
  {
    if n > 0 {
      RunKeeps(states, steps, root, n - 1);
      assert Becomes(states[n - 1], root, steps[n - 1], states[n]);
      if Complete(states[0], root) {
        StepKeepsComplete(states[n - 1], root, steps[n - 1]);
      }
      if Confined(states[0], root) {
        StepKeepsConfined(states[n - 1], root, steps[n - 1]);
      }
    }
  }

  lemma {:induction false} NothingPending(s: State, root: CgroupId, c: CgroupId)
    requires s.Hierarchy() && c in s.live && s.work == []
    ensures !Pending(s, root, c)
    decreases s.live[c].level
  {
    if s.live[c].level > 0 {
      NothingPending(s, root, s.live[c].parent);
    }
  }

  /** At the start the whole subtree is due, whatever the map held before. */
  lemma {:induction false} AllPendingAtStart(s: State, root: CgroupId, c: CgroupId)
    requires s.Hierarchy() && root in s.live && c in s.live && c != root && s.Under(c, root)
    ensures Begin(s, root).Hierarchy() && Begin(s, root).Under(c, root)
    ensures Pending(Begin(s, root), root, c)
    decreases s.live[c].level
  {
    if s.live[c].parent != root {
      AllPendingAtStart(s, root, s.live[c].parent);
    }
  }

  lemma {:induction false} SameTree(s: State, t: State, c: CgroupId, root: CgroupId)
    requires s.Hierarchy() && t.Hierarchy() && s.live == t.live && c in s.live
    ensures s.Under(c, root) == t.Under(c, root)
    decreases s.live[c].level
  {
    if c != root && s.live[c].level > 0 {
      SameTree(s, t, s.live[c].parent, root);
    }
  }

  /**
   Register-then-scan misses nothing.  In every interleaving of the walk with creations, removals
   and releases anywhere, when the walk ends every live cgroup under the root maps to the root;
   and if only cgroups under the root mapped to it before, exactly those do.
   */
  lemma WalkMapsExactlyTheSubtree(s0: State, states: seq<State>, steps: seq<Step>, root: CgroupId, c: CgroupId)
    requires s0.Hierarchy() && root in s0.live
    requires Run(states, steps, root) && states[0] == Begin(s0, root)
    requires states[|steps|].work == [] && c in states[|steps|].live
    ensures var s := states[|steps|];
            && s.Hierarchy()
            && (s.Under(c, root) ==> s.MapsTo(c, root))
            && ((forall x :: s0.MapsTo(x, root) ==> x in s0.dead || s0.Under(x, root)) ==>
                  (s.MapsTo(c, root) ==> s.Under(c, root)))
  {
    var b := Begin(s0, root);
    var s := states[|steps|];
    assert b.Hierarchy();
    forall x | x in b.live
      ensures b.Under(x, root) == s0.Under(x, root)
      ensures x != root && b.Under(x, root) ==> Pending(b, root, x)
    {
      SameTree(s0, b, x, root);
      if x != root && b.Under(x, root) {
        AllPendingAtStart(s0, root, x);
      }
    }
    assert Complete(b, root);
    if forall x :: s0.MapsTo(x, root) ==> x in s0.dead || s0.Under(x, root) {
      assert Confined(b, root);
    }
    RunKeeps(states, steps, root, |steps|);
    NothingPending(s, root, c);
  }

  // ---------------------------------------------------------------- entries that stay behind

  /** The `i`-th state of the run maps `d` to the root, or the step before it does. */
  ghost predicate MapsAt(states: seq<State>, steps: seq<Step>, root: CgroupId, i: nat, d: CgroupId)
    requires |states| == |steps| + 1 && i <= |steps|
  {
    if i == 0 then states[0].MapsTo(d, root)
    else
      match steps[i - 1]
      case WalkUpdate => states[i - 1].work != [] && states[i - 1].work[0].id == d
      case Mkdir(c, p) => c == d && p != 0 && states[i - 1].MapsTo(p, root)
      case _ => false
  }

  ghost predicate NotReleased(steps: seq<Step>, i: nat, n: nat, d: CgroupId)
    requires n <= |steps|
  {
    forall j :: i <= j < n ==> steps[j] != Release(d)
  }

  /** Ids in the map and in the walk belong to cgroups that live or have lived. */
  ghost predicate Known(s: State, root: CgroupId)
  {
    && (forall c :: s.MapsTo(c, root) ==> c in s.live || c in s.dead)
    && (forall t :: t in s.work ==> t.id in s.live || t.id in s.dead)
    && (forall t, c :: t in s.work && t.Read? && c in t.due ==> c in s.live || c in s.dead)
  }

  lemma StepKeepsKnown(s: State, root: CgroupId, step: Step)
    requires Known(s, root) && Enabled(s, root, step)
    ensures Known(Apply(s, root, step), root)
  {
    var s' := Apply(s, root, step);
    if step.IsWalk() {
      assert s.work == [s.work[0]] + s.work[1..] && s.work[0] in s.work;
    }
    forall t | t in s'.work
      ensures t.id in s'.live || t.id in s'.dead
      ensures forall c :: t.Read? && c in t.due ==> c in s'.live || c in s'.dead
    {
      assert t in s.work || step.IsWalk();
    }
  }

  lemma {:induction false} RunKeepsKnown(states: seq<State>, steps: seq<Step>, root: CgroupId, n: nat)
    requires Run(states, steps, root) && n < |states| && Known(states[0], root)
    ensures Known(states[n], root)
  {
    if n > 0 {
      RunKeepsKnown(states, steps, root, n - 1);
      assert Becomes(states[n - 1], root, steps[n - 1], states[n]);
      StepKeepsKnown(states[n - 1], root, steps[n - 1]);
    }
  }

  /** One step maps `d`, or releases it, or leaves what the map says about it. */
  lemma StepMaps(s: State, root: CgroupId, step: Step, d: CgroupId)
    requires Known(s, root) && Enabled(s, root, step)
    ensures Apply(s, root, step).MapsTo(d, root) <==>
              || (step.WalkUpdate? && s.work[0].id == d)
              || (step.Mkdir? && step.c == d && step.p != 0 && s.MapsTo(step.p, root))
              || (s.MapsTo(d, root) && step != Release(d))
  {
  }

  /**
   At any time of any run a cgroup, live or removed, is mapped to the root exactly when the start, the
   walk or its creation mapped it and its release hook has not run since.
   */
  lemma {:induction false} MappedExactly(states: seq<State>, steps: seq<Step>, root: CgroupId, n: nat, d: CgroupId)
    requires Run(states, steps, root) && n <= |steps| && Known(states[0], root)
    ensures states[n].MapsTo(d, root)
            <==> exists i :: 0 <= i <= n && MapsAt(states, steps, root, i, d) && NotReleased(steps, i, n, d)
  {
    if n == 0 {
      assert states[0].MapsTo(d, root) ==> MapsAt(states, steps, root, 0, d) && NotReleased(steps, 0, 0, d);
    } else {
      var s, step := states[n - 1], steps[n - 1];
      MappedExactly(states, steps, root, n - 1, d);
      RunKeepsKnown(states, steps, root, n - 1);
      assert Becomes(s, root, step, states[n]);
      StepMaps(s, root, step, d);
      if MapsAt(states, steps, root, n, d) {
        assert NotReleased(steps, n, n, d);
      }
      if i :| 0 <= i <= n - 1 && MapsAt(states, steps, root, i, d) && NotReleased(steps, i, n - 1, d) {
        assert step != Release(d) ==> NotReleased(steps, i, n, d);
      }
      if i :| 0 <= i <= n && MapsAt(states, steps, root, i, d) && NotReleased(steps, i, n, d) {
        if i < n {
          assert NotReleased(steps, i, n - 1, d) && steps[n - 1] != Release(d);
        }
      }
    }
  }

  /** The walk has read the id of `d` and is about to map it. */
  predicate AboutToMap(s: State, d: CgroupId)
  {
    s.work != [] && s.work[0] == Update(d)
  }

  ghost predicate UpdatesFirst(s: State)
  {
    forall k :: 0 < k < |s.work| ==> !s.work[k].Update?
  }

  /** A cgroup that is gone is about to be mapped only if it already was. */
  lemma StepOfGone(s: State, root: CgroupId, step: Step, d: CgroupId)
    requires Enabled(s, root, step) && UpdatesFirst(s) && s.live.Keys !! s.dead
    ensures UpdatesFirst(Apply(s, root, step))
    ensures d in s.dead ==> d in Apply(s, root, step).dead
    ensures d in s.dead && AboutToMap(Apply(s, root, step), d) ==> AboutToMap(s, d)
    ensures AboutToMap(s, d) && !step.WalkUpdate? ==> AboutToMap(Apply(s, root, step), d)
  {
    if step.WalkRead? {
      var tasks := Tasks(step.names);
      assert forall k :: 0 <= k < |tasks| ==> tasks[k] in tasks;
    }
  }

  lemma {:induction false} RunOfGone(states: seq<State>, steps: seq<Step>, root: CgroupId, j: nat, n: nat, d: CgroupId)
    requires Run(states, steps, root) && j <= n <= |steps|
    requires states[0].Hierarchy() && root in states[0].live && UpdatesFirst(states[0])
    requires d in states[j].dead
    ensures UpdatesFirst(states[n]) && d in states[n].dead && states[n].Hierarchy()
    ensures AboutToMap(states[n], d) ==> AboutToMap(states[j], d)
    decreases n - j
  {
    RunUpdatesFirst(states, steps, root, n);
    if j < n {
      RunOfGone(states, steps, root, j, n - 1, d);
      assert Becomes(states[n - 1], root, steps[n - 1], states[n]);
      StepOfGone(states[n - 1], root, steps[n - 1], d);
    }
  }

  lemma {:induction false} RunUpdatesFirst(states: seq<State>, steps: seq<Step>, root: CgroupId, n: nat)
    requires Run(states, steps, root) && n <= |steps|
    requires states[0].Hierarchy() && root in states[0].live && UpdatesFirst(states[0])
    ensures UpdatesFirst(states[n]) && states[n].Hierarchy() && root in states[n].live
  {
    if n > 0 {
      RunUpdatesFirst(states, steps, root, n - 1);
      assert Becomes(states[n - 1], root, steps[n - 1], states[n]);
      StepOfGone(states[n - 1], root, steps[n - 1], root);
      StepHierarchy(states[n - 1], root, steps[n - 1]);
    }
  }

  /** A walk that ends maps what it is about to map. */
  lemma {:induction false} WillMap(states: seq<State>, steps: seq<Step>, root: CgroupId, j: nat, d: CgroupId)
    returns (i: nat)
    requires Run(states, steps, root) && j <= |steps| && states[|steps|].work == []
    requires AboutToMap(states[j], d)
    ensures j < i <= |steps| && MapsAt(states, steps, root, i, d)
    decreases |steps| - j
  {
    assert Becomes(states[j], root, steps[j], states[j + 1]);
    if steps[j].WalkUpdate? {
      i := j + 1;
    } else {
      i := WillMap(states, steps, root, j + 1, d);
    }
  }

  /**
   Exactly when a released cgroup stays in the map: its last release falls between the reading of its
   id by the walk and the update.  So if no release falls there, no released cgroup stays mapped.
   */
  lemma StaleExactly(s0: State, states: seq<State>, steps: seq<Step>, root: CgroupId, j: nat, d: CgroupId)
    requires s0.Hierarchy() && root in s0.live
    requires forall c :: s0.MapsTo(c, root) ==> c in s0.live || c in s0.dead
    requires Run(states, steps, root) && states[0] == Begin(s0, root) && states[|steps|].work == []
    requires j < |steps| && steps[j] == Release(d) && NotReleased(steps, j + 1, |steps|, d)
    ensures states[|steps|].MapsTo(d, root) <==> AboutToMap(states[j], d)
  {
    var n := |steps|;
    assert Known(states[0], root);
    MappedExactly(states, steps, root, n, d);
    if AboutToMap(states[j], d) {
      var i := MappedAfter(states, steps, root, j, d);
      assert NotReleased(steps, i, n, d);
    }
    if i :| 0 <= i <= n && MapsAt(states, steps, root, i, d) && NotReleased(steps, i, n, d) {
      assert i > j;
      MappedBefore(states, steps, root, j, i, d);
    }
  }

  lemma MappedAfter(states: seq<State>, steps: seq<Step>, root: CgroupId, j: nat, d: CgroupId) returns (i: nat)
    requires Run(states, steps, root) && states[|steps|].work == []
    requires j < |steps| && steps[j] == Release(d) && AboutToMap(states[j], d)
    ensures j + 1 < i <= |steps| && MapsAt(states, steps, root, i, d)
  {
    i := WillMap(states, steps, root, j, d);
  }

  /** After its release only the walk maps a cgroup, having read its id before. */
  lemma MappedBefore(states: seq<State>, steps: seq<Step>, root: CgroupId, j: nat, i: nat, d: CgroupId)
    requires Run(states, steps, root) && j < i <= |steps| && steps[j] == Release(d)
    requires states[0].Hierarchy() && root in states[0].live && UpdatesFirst(states[0])
    requires MapsAt(states, steps, root, i, d)
    ensures AboutToMap(states[j], d)
  {
    assert Becomes(states[j], root, steps[j], states[j + 1]);
    assert Becomes(states[i - 1], root, steps[i - 1], states[i]);
    RunOfGone(states, steps, root, j, i - 1, d);
  }

  /** If a cgroup is never released between the reading of its id and the update, it does not stay. */
  lemma NoStaleEntry(s0: State, states: seq<State>, steps: seq<Step>, root: CgroupId, j: nat, d: CgroupId)
    requires s0.Hierarchy() && root in s0.live
    requires forall c :: s0.MapsTo(c, root) ==> c in s0.live || c in s0.dead
    requires Run(states, steps, root) && states[0] == Begin(s0, root)
    requires forall k :: 0 <= k < |steps| && steps[k] == Release(d) ==> !AboutToMap(states[k], d)
    requires j < |steps| && steps[j] == Release(d)
    ensures !states[|steps|].MapsTo(d, root)
  {
    assert Known(states[0], root);
    MappedExactly(states, steps, root, |steps|, d);
    if i :| 0 <= i <= |steps| && MapsAt(states, steps, root, i, d) && NotReleased(steps, i, |steps|, d) {
      assert i > j;
      MappedBefore(states, steps, root, j, i, d);
      assert false;
    }
  }

  /** The states of a walk of a root with one child `d`, which disappears while it is being visited. */
  function Vanishing(root: CgroupId, d: CgroupId): seq<State>
  {
    var two, one := map[root := Cgroup(0, 0), d := Cgroup(root, 1)], map[root := Cgroup(0, 0)];
    var before, after := map[root := root], map[root := root, d := root];
    [ State(two, {}, before, [List(root)]), State(two, {}, before, [Read(root, {d})]),
      State(two, {}, before, [Visit(d)]), State(two, {}, before, [Update(d)]),
      State(one, {d}, before, [Update(d)]), State(one, {d}, before, [Update(d)]),
      State(one, {d}, after, [List(d)]), State(one, {d}, after, [Read(d, {})]), State(one, {d}, after, []) ]
  }

  function VanishingSteps(d: CgroupId): seq<Step>
  {
    [WalkOpen, WalkRead([d]), WalkVisit, Rmdir(d), Release(d), WalkUpdate, WalkOpen, WalkRead([])]
  }

  lemma ListedStep(root: CgroupId, d: CgroupId, i: nat)
    requires root != 0 && d != 0 && root != d && i < 3
    ensures Becomes(Vanishing(root, d)[i], root, VanishingSteps(d)[i], Vanishing(root, d)[i + 1])
  {
    var s := Vanishing(root, d)[i];
    if i == 0 {
      assert s.Children(root) == {d};
    } else if i == 1 {
      assert Tasks([]) == [] && Tasks([d]) == [Visit(d)];
    }
  }

  lemma VanishingStep(root: CgroupId, d: CgroupId, i: nat)
    requires root != 0 && d != 0 && root != d && 3 <= i < 5
    ensures Becomes(Vanishing(root, d)[i], root, VanishingSteps(d)[i], Vanishing(root, d)[i + 1])
  {
    var s := Vanishing(root, d)[i];
    if i == 3 {
      assert s.Children(d) == {};
      assert s.live - {d} == Vanishing(root, d)[4].live;
    } else {
      assert s.tracker - {d} == s.tracker;
    }
  }

  lemma VanishedStep(root: CgroupId, d: CgroupId, i: nat)
    requires root != 0 && d != 0 && root != d && 5 <= i < 8
    ensures Becomes(Vanishing(root, d)[i], root, VanishingSteps(d)[i], Vanishing(root, d)[i + 1])
  {
    var s := Vanishing(root, d)[i];
    if i == 5 {
      assert s.tracker[d := root] == Vanishing(root, d)[6].tracker;
    } else if i == 6 {
      assert s.Children(d) == {};
    } else {
      assert Tasks([]) == [];
    }
  }

  /**
   What a removal can leave behind: a directory that goes between the reading of its id and the
   update is entered into the map after its release, and nothing deletes that entry again.
   */
  lemma StaleEntryIsPossible(root: CgroupId, d: CgroupId)
    requires root != 0 && d != 0 && root != d
    ensures Vanishing(root, d)[0].Hierarchy() && Run(Vanishing(root, d), VanishingSteps(d), root)
    ensures var s := Vanishing(root, d)[8];
            s.work == [] && d in s.dead && s.MapsTo(d, root)
  {
    forall i | 0 <= i < 8
      ensures Becomes(Vanishing(root, d)[i], root, VanishingSteps(d)[i], Vanishing(root, d)[i + 1])
    {
      if i < 3 {
        ListedStep(root, d, i);
      } else if i < 5 {
        VanishingStep(root, d, i);
      } else {
        VanishedStep(root, d, i);
      }
    }
  }

  // ---------------------------------------------------------------- the code's atomic steps

  /** The shared map, with the user-space walk and the two kernel hooks as methods on it. */
  class TrackerMap {
    var entries: map<CgroupId, CgroupId>

    constructor ()
      ensures entries == map[]
    {
      entries := map[];
    }

    method Add(tracked: CgroupId, tracker: CgroupId)
      modifies this
      ensures entries == old(entries)[tracked := tracker]
    {
      entries := entries[tracked := tracker];
    }

    /** `tg_cgtracker_cgroup_mkdir`, with the parent id that `cgroup_get_parent_id` finds. */
    method CgroupMkdir(cgid: CgroupId, cgidParent: CgroupId)
      modifies this
      ensures entries == MkdirHook(old(entries), cgid, cgidParent)
    {
      if cgid == 0 {
        return;
      }
      if cgidParent == 0 {
        return;
      }
      if cgidParent in entries {
        entries := entries[cgid := entries[cgidParent]];
      }
    }

    /** `tg_cgtracker_cgroup_release`. */
    method CgroupRelease(cgid: CgroupId)
      modifies this
      ensures entries == if cgid != 0 then old(entries) - {cgid} else old(entries)
    {
      if cgid != 0 {
        entries := entries - {cgid};
      }
    }

    /** One directory of the walk: read its id, if it is still there, and map it to the root. */
    method VisitDir(s: State, root: CgroupId)
      requires s.work != [] && s.work[0].Visit? && s.tracker == entries
      modifies this
      ensures var s1 := Apply(s, root, WalkVisit);
              entries == if s.work[0].id in s.live then Apply(s1, root, WalkUpdate).tracker else s.tracker
    {
      if s.work[0].id !in s.live {
        return;
      }
      Add(s.work[0].id, root);
    }
  }
}
