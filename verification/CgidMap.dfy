/**
 The map from cgroup ids to containers (pkg/cgidmap/cgidmap.go): a slice of slots, some of them
 free, with two indices into it.  `Plain` is the map it stands for.
 */
module CgidMap {
  import opened Common

  type CgroupID = nat
  type ContainerID = string
  type PodID = string

  datatype Entry = Entry(cgID: CgroupID, contID: ContainerID, podID: PodID, invalid: bool)

  datatype State = State(
    entries: seq<Entry>,
    cap: nat,
    cgMap: map<CgroupID, nat>,
    contMap: map<ContainerID, nat>,
    invalidCnt: int)

  datatype Placement = Placement(pod: PodID, cg: CgroupID)

  type PlainMap = map<ContainerID, Placement>

  // ---------------------------------------------------------------- agreement of slots and indices

  function CountInvalid(es: seq<Entry>): nat
  {
    if es == [] then 0
    else CountInvalid(es[..|es| - 1]) + if es[|es| - 1].invalid then 1 else 0
  }

  /** Valid slots correspond one to one with both indices, and `invalidCnt` counts the free ones. */
  ghost predicate Agrees(s: State)
  {
    && |s.entries| <= s.cap
    && (forall c :: c in s.contMap ==>
          s.contMap[c] < |s.entries| && !s.entries[s.contMap[c]].invalid && s.entries[s.contMap[c]].contID == c)
    && (forall g :: g in s.cgMap ==>
          s.cgMap[g] < |s.entries| && !s.entries[s.cgMap[g]].invalid && s.entries[s.cgMap[g]].cgID == g)
    && (forall i :: 0 <= i < |s.entries| && !s.entries[i].invalid ==> Indexed(s, i))
    && s.invalidCnt == CountInvalid(s.entries)
  }

  ghost predicate Indexed(s: State, i: nat)
    requires i < |s.entries|
  {
    && s.entries[i].contID in s.contMap && s.contMap[s.entries[i].contID] == i
    && s.entries[i].cgID in s.cgMap && s.cgMap[s.entries[i].cgID] == i
  }

  ghost function Plain(s: State): PlainMap
    requires Agrees(s)
  {
    map c | c in s.contMap :: Placement(s.entries[s.contMap[c]].podID, s.entries[s.contMap[c]].cgID)
  }

  lemma {:induction false} CountAppend(es: seq<Entry>, e: Entry)
    ensures CountInvalid(es + [e]) == CountInvalid(es) + if e.invalid then 1 else 0
  {
    assert (es + [e])[..|es|] == es;
  }

  lemma {:induction false} CountUpdate(es: seq<Entry>, i: nat, e: Entry)
    requires i < |es|
    ensures CountInvalid(es[i := e])
            == CountInvalid(es) - (if es[i].invalid then 1 else 0) + (if e.invalid then 1 else 0)
  {
    var n := |es| - 1;
    if i == n {
      assert es[i := e][..n] == es[..n];
    } else {
      CountUpdate(es[..n], i, e);
      assert es[i := e][..n] == es[..n][i := e];
    }
  }

  lemma {:induction false} CountPositive(es: seq<Entry>)
    ensures CountInvalid(es) > 0 <==> exists i :: 0 <= i < |es| && es[i].invalid
  {
    if es != [] {
      var n := |es| - 1;
      CountPositive(es[..n]);
      if i :| 0 <= i < n && es[i].invalid {
        assert es[..n][i].invalid;
      }
      if CountInvalid(es[..n]) > 0 {
        var i :| 0 <= i < n && es[..n][i].invalid;
        assert es[i].invalid;
      }
    }
  }

  // ---------------------------------------------------------------- the operations

  function FirstInvalid(es: seq<Entry>, i: nat): nat
    requires i <= |es|
    decreases |es| - i
  {
    if i == |es| || es[i].invalid then i else FirstInvalid(es, i + 1)
  }

  /** Appending to a full slice moves it to a larger one, of a capacity the runtime chooses. */
  function Grown(l: nat, cap: nat, choice: nat): nat
  {
    if l < cap then cap else if choice > l then choice else l + 1
  }

  function Add(s: State, pod: PodID, cont: ContainerID, cg: CgroupID, choice: nat): State
  {
    var l := |s.entries|;
    if cont in s.contMap then
      var idx := s.contMap[cont];
      if idx >= l then s
      else s.(entries := s.entries[idx := s.entries[idx].(podID := pod, cgID := cg)])
    else
      var e := Entry(cg, cont, pod, false);
      var free := FirstInvalid(s.entries, 0);
      if s.cap > l || s.invalidCnt == 0 || free >= l then
        State(s.entries + [e], Grown(l, s.cap, choice), s.cgMap[cg := l], s.contMap[cont := l], s.invalidCnt)
      else
        State(s.entries[free := e], s.cap, s.cgMap[cg := free], s.contMap[cont := free], s.invalidCnt - 1)
  }

  function Get(s: State, cg: CgroupID): Option<ContainerID>
  {
    if cg in s.cgMap && s.cgMap[cg] < |s.entries| then Some(s.entries[s.cgMap[cg]].contID) else None
  }

  /** Updating pod `pod` from slot `idx` on; `tmp` are the listed ids not met so far. */
  function UpdateFrom(s: State, pod: PodID, tmp: set<ContainerID>, idx: nat): (State, set<ContainerID>)
    requires idx <= |s.entries|
    decreases |s.entries| - idx
  {
    if idx == |s.entries| then (s, tmp)
    else
      var e := s.entries[idx];
      if e.invalid || e.podID != pod then UpdateFrom(s, pod, tmp, idx + 1)
      else if e.contID in tmp then UpdateFrom(s, pod, tmp - {e.contID}, idx + 1)
      else UpdateFrom(Freed(s, idx), pod, tmp, idx + 1)
  }

  function Freed(s: State, idx: nat): State
    requires idx < |s.entries|
  {
    var e := s.entries[idx];
    State(s.entries[idx := e.(invalid := true)], s.cap, s.cgMap - {e.cgID}, s.contMap - {e.contID}, s.invalidCnt + 1)
  }

  // ---------------------------------------------------------------- what they mean on the plain map

  /** `Add` neither changes a container's cgroup id nor takes that of another live container. */
  ghost predicate AddOk(m: PlainMap, cont: ContainerID, cg: CgroupID)
  {
    if cont in m then m[cont].cg == cg
    else forall c :: c in m ==> m[c].cg != cg
  }

  /** The free-slot search cannot fail: the branch that logs a wrong count is unreachable. */
  lemma {:induction false} FirstInvalidFound(es: seq<Entry>, i: nat)
    requires i <= |es|
    ensures i <= FirstInvalid(es, i) <= |es|
    ensures forall j :: i <= j < FirstInvalid(es, i) ==> !es[j].invalid
    ensures FirstInvalid(es, i) < |es| ==> es[FirstInvalid(es, i)].invalid
    decreases |es| - i
  {
    if i < |es| && !es[i].invalid {
      FirstInvalidFound(es, i + 1);
    }
  }

  lemma CountCorrectMeansFound(s: State)
    requires Agrees(s) && s.invalidCnt != 0
    ensures FirstInvalid(s.entries, 0) < |s.entries|
  {
    FirstInvalidFound(s.entries, 0);
    CountPositive(s.entries);
  }

  /**
   Slots and indices still agree after an `Add` exactly when it keeps the container's cgroup id
   and does not reuse another's; and then it is an update of the plain map.
   */
  lemma AddRefines(s: State, pod: PodID, cont: ContainerID, cg: CgroupID, choice: nat)
    requires Agrees(s)
    ensures Agrees(Add(s, pod, cont, cg, choice)) <==> AddOk(Plain(s), cont, cg)
    ensures AddOk(Plain(s), cont, cg) ==>
              Plain(Add(s, pod, cont, cg, choice)) == Plain(s)[cont := Placement(pod, cg)]
  {
    if cont in s.contMap {
      AddLive(s, pod, cont, cg, choice);
    } else {
      AddNew(s, pod, cont, cg, choice);
    }
  }

  lemma AddLive(s: State, pod: PodID, cont: ContainerID, cg: CgroupID, choice: nat)
    requires Agrees(s) && cont in s.contMap
    ensures Agrees(Add(s, pod, cont, cg, choice)) <==> AddOk(Plain(s), cont, cg)
    ensures AddOk(Plain(s), cont, cg) ==>
              Plain(Add(s, pod, cont, cg, choice)) == Plain(s)[cont := Placement(pod, cg)]
  {
    assert AddOk(Plain(s), cont, cg) <==> s.entries[s.contMap[cont]].cgID == cg;
    if s.entries[s.contMap[cont]].cgID != cg {
      AddLiveMoves(s, pod, cont, cg, choice);
    } else {
      AddLiveAgrees(s, pod, cont, cg, choice);
    }
  }

  /** The index keeps the old cgroup id, under which the slot is then found wrongly. */
  lemma AddLiveMoves(s: State, pod: PodID, cont: ContainerID, cg: CgroupID, choice: nat)
    requires Agrees(s) && cont in s.contMap && s.entries[s.contMap[cont]].cgID != cg
    ensures !Agrees(Add(s, pod, cont, cg, choice))
  {
    var idx := s.contMap[cont];
    var s', was := Add(s, pod, cont, cg, choice), s.entries[idx].cgID;
    assert Indexed(s, idx);
    assert was in s'.cgMap && s'.entries[s'.cgMap[was]].cgID != was;
  }

  lemma AddLiveAgrees(s: State, pod: PodID, cont: ContainerID, cg: CgroupID, choice: nat)
    requires Agrees(s) && cont in s.contMap && s.entries[s.contMap[cont]].cgID == cg
    ensures Agrees(Add(s, pod, cont, cg, choice))
    ensures Plain(Add(s, pod, cont, cg, choice)) == Plain(s)[cont := Placement(pod, cg)]
  {
    var idx := s.contMap[cont];
    var s' := Add(s, pod, cont, cg, choice);
    CountUpdate(s.entries, idx, s'.entries[idx]);
    forall i | 0 <= i < |s'.entries| && !s'.entries[i].invalid
      ensures Indexed(s', i)
    {
      assert Indexed(s, i);
    }
  }

  /** Where a new container goes: after the last slot, or into a free one. */
  ghost predicate Placed(s: State, e: Entry, idx: nat, s': State)
  {
    && idx <= |s.entries|
    && s'.entries == (if idx == |s.entries| then s.entries + [e] else s.entries[idx := e])
    && (idx < |s.entries| ==> s.entries[idx].invalid)
    && s'.cgMap == s.cgMap[e.cgID := idx]
    && s'.contMap == s.contMap[e.contID := idx]
  }

  lemma AddPlaces(s: State, pod: PodID, cont: ContainerID, cg: CgroupID, choice: nat) returns (idx: nat)
    requires Agrees(s) && cont !in s.contMap
    ensures Placed(s, Entry(cg, cont, pod, false), idx, Add(s, pod, cont, cg, choice))
    ensures Add(s, pod, cont, cg, choice).invalidCnt == CountInvalid(Add(s, pod, cont, cg, choice).entries)
    ensures |Add(s, pod, cont, cg, choice).entries| <= Add(s, pod, cont, cg, choice).cap
  {
    var e := Entry(cg, cont, pod, false);
    idx := Add(s, pod, cont, cg, choice).contMap[cont];
    FirstInvalidFound(s.entries, 0);
    if s.invalidCnt != 0 {
      CountCorrectMeansFound(s);
    }
    if idx == |s.entries| {
      CountAppend(s.entries, e);
    } else {
      CountUpdate(s.entries, idx, e);
    }
  }

  lemma AddNewConflict(s: State, e: Entry, idx: nat, s': State, c: ContainerID)
    requires Agrees(s) && e.contID !in s.contMap && Placed(s, e, idx, s')
    requires c in s.contMap && s.entries[s.contMap[c]].cgID == e.cgID
    ensures !Agrees(s')
  {
    var i := s.contMap[c];
    assert s'.entries[i] == s.entries[i] && s'.cgMap[e.cgID] == idx != i;
    assert !Indexed(s', i);
  }

  lemma AddNewAgrees(s: State, e: Entry, idx: nat, s': State)
    requires Agrees(s) && e.contID !in s.contMap && !e.invalid && Placed(s, e, idx, s')
    requires |s'.entries| <= s'.cap && s'.invalidCnt == CountInvalid(s'.entries)
    requires forall c :: c in s.contMap ==> s.entries[s.contMap[c]].cgID != e.cgID
    ensures Agrees(s')
  {
    forall i | 0 <= i < |s'.entries| && !s'.entries[i].invalid
      ensures Indexed(s', i)
    {
      PlacedIndexed(s, e, idx, s', i);
    }
    forall g | g in s'.cgMap
      ensures s'.cgMap[g] < |s'.entries| && !s'.entries[s'.cgMap[g]].invalid && s'.entries[s'.cgMap[g]].cgID == g
    {
      assert g != e.cgID ==> s.cgMap[g] != idx;
    }
    forall c | c in s'.contMap
      ensures s'.contMap[c] < |s'.entries| && !s'.entries[s'.contMap[c]].invalid
      ensures s'.entries[s'.contMap[c]].contID == c
    {
      PlacedKeeps(s, e, idx, s', c);
    }
  }

  lemma PlacedIndexed(s: State, e: Entry, idx: nat, s': State, i: nat)
    requires Agrees(s) && e.contID !in s.contMap && !e.invalid && Placed(s, e, idx, s')
    requires forall c :: c in s.contMap ==> s.entries[s.contMap[c]].cgID != e.cgID
    requires i < |s'.entries| && !s'.entries[i].invalid
    ensures Indexed(s', i)
  {
    if i != idx {
      assert Indexed(s, i);
      assert s.entries[i].contID in s.contMap;
    }
  }

  lemma AddNewPlain(s: State, e: Entry, idx: nat, s': State)
    requires Agrees(s) && Agrees(s') && e.contID !in s.contMap && Placed(s, e, idx, s')
    ensures Plain(s') == Plain(s)[e.contID := Placement(e.podID, e.cgID)]
  {
    var m := Plain(s)[e.contID := Placement(e.podID, e.cgID)];
    forall c | c in s'.contMap
      ensures Plain(s')[c] == m[c]
    {
      PlacedKeeps(s, e, idx, s', c);
    }
    SameMap(Plain(s'), m);
  }

  lemma SameMap(m: PlainMap, m': PlainMap)
    requires m.Keys == m'.Keys && forall c :: c in m ==> m[c] == m'[c]
    ensures m == m'
  {
  }

  lemma PlacedKeeps(s: State, e: Entry, idx: nat, s': State, c: ContainerID)
    requires Agrees(s) && e.contID !in s.contMap && Placed(s, e, idx, s') && c in s'.contMap
    ensures s'.contMap[c] < |s'.entries|
    ensures s'.entries[s'.contMap[c]] == if c == e.contID then e else s.entries[s.contMap[c]]
  {
    if c != e.contID {
      assert s.contMap[c] != idx;
    }
  }

  lemma AddNew(s: State, pod: PodID, cont: ContainerID, cg: CgroupID, choice: nat)
    requires Agrees(s) && cont !in s.contMap
    ensures Agrees(Add(s, pod, cont, cg, choice)) <==> AddOk(Plain(s), cont, cg)
    ensures AddOk(Plain(s), cont, cg) ==>
              Plain(Add(s, pod, cont, cg, choice)) == Plain(s)[cont := Placement(pod, cg)]
  {
    var e := Entry(cg, cont, pod, false);
    var idx := AddPlaces(s, pod, cont, cg, choice);
    var s' := Add(s, pod, cont, cg, choice);
    if c :| c in s.contMap && s.entries[s.contMap[c]].cgID == cg {
      assert Plain(s)[c].cg == cg;
      AddNewConflict(s, e, idx, s', c);
    } else {
      AddNewAgrees(s, e, idx, s');
      AddNewPlain(s, e, idx, s');
    }
  }

  /** `Get` answers from the plain map: the container that has the cgroup id, if any. */
  lemma GetRefines(s: State, cg: CgroupID, c: ContainerID)
    requires Agrees(s)
    ensures Get(s, cg) == Some(c) <==> c in Plain(s) && Plain(s)[c].cg == cg
  {
    if c in Plain(s) && Plain(s)[c].cg == cg {
      assert Indexed(s, s.contMap[c]);
    }
    if Get(s, cg) == Some(c) {
      assert Indexed(s, s.cgMap[cg]);
    }
  }

  /** Freeing a slot removes its container from the plain map. */
  lemma FreedRefines(s: State, idx: nat)
    requires Agrees(s) && idx < |s.entries| && !s.entries[idx].invalid
    ensures Agrees(Freed(s, idx))
    ensures Plain(Freed(s, idx)) == Plain(s) - {s.entries[idx].contID}
  {
    var s' := Freed(s, idx);
    var e := s.entries[idx];
    assert Indexed(s, idx);
    CountUpdate(s.entries, idx, e.(invalid := true));
    forall i | 0 <= i < |s'.entries| && !s'.entries[i].invalid
      ensures Indexed(s', i)
    {
      assert Indexed(s, i);
    }
  }

  ghost function PlainUpdate(m: PlainMap, pod: PodID, conts: set<ContainerID>): PlainMap
  {
    map c | c in m && (m[c].pod == pod ==> c in conts) :: m[c]
  }

  /** The listed ids that are not mapped for the pod. */
  ghost function Unmapped(m: PlainMap, pod: PodID, conts: set<ContainerID>): set<ContainerID>
  {
    set c | c in conts && !(c in m && m[c].pod == pod)
  }

  /** Container `c` of pod `pod` sits in a slot below `idx`. */
  ghost predicate Met(s: State, pod: PodID, idx: nat, c: ContainerID)
    requires Agrees(s)
  {
    c in s.contMap && s.contMap[c] < idx && s.entries[s.contMap[c]].podID == pod
  }

  /** After slots below `idx`: the pod's containers there are listed, and crossed off. */
  ghost predicate Crossed(s: State, pod: PodID, conts: set<ContainerID>, tmp: set<ContainerID>, idx: nat)
    requires Agrees(s)
  {
    && (forall c :: c in tmp <==> c in conts && !Met(s, pod, idx, c))
    && (forall c :: Met(s, pod, idx, c) ==> c in conts)
  }

  lemma CrossedSkip(s: State, pod: PodID, conts: set<ContainerID>, tmp: set<ContainerID>, idx: nat)
    requires Agrees(s) && idx < |s.entries| && Crossed(s, pod, conts, tmp, idx)
    requires s.entries[idx].invalid || s.entries[idx].podID != pod
    ensures Crossed(s, pod, conts, tmp, idx + 1)
  {
    assert forall c :: Met(s, pod, idx, c) <==> Met(s, pod, idx + 1, c);
  }

  lemma CrossedKeep(s: State, pod: PodID, conts: set<ContainerID>, tmp: set<ContainerID>, idx: nat)
    requires Agrees(s) && idx < |s.entries| && Crossed(s, pod, conts, tmp, idx)
    requires !s.entries[idx].invalid && s.entries[idx].podID == pod && s.entries[idx].contID in tmp
    ensures Crossed(s, pod, conts, tmp - {s.entries[idx].contID}, idx + 1)
  {
    assert Indexed(s, idx);
    var k := s.entries[idx].contID;
    assert forall c :: Met(s, pod, idx + 1, c) <==> Met(s, pod, idx, c) || c == k;
  }

  lemma CrossedFree(s: State, pod: PodID, conts: set<ContainerID>, tmp: set<ContainerID>, idx: nat)
    requires Agrees(s) && idx < |s.entries| && Crossed(s, pod, conts, tmp, idx)
    requires !s.entries[idx].invalid && s.entries[idx].podID == pod && s.entries[idx].contID !in tmp
    ensures s.entries[idx].contID !in conts
    ensures Agrees(Freed(s, idx)) && Crossed(Freed(s, idx), pod, conts, tmp, idx + 1)
  {
    assert Indexed(s, idx);
    FreedRefines(s, idx);
    forall c
      ensures Met(Freed(s, idx), pod, idx + 1, c) <==> Met(s, pod, idx, c)
    {
    }
  }

  lemma CrossedAll(s: State, pod: PodID, conts: set<ContainerID>, tmp: set<ContainerID>)
    requires Agrees(s) && Crossed(s, pod, conts, tmp, |s.entries|)
    ensures Plain(s) == PlainUpdate(Plain(s), pod, conts)
    ensures tmp == Unmapped(Plain(s), pod, conts)
  {
    assert forall c :: Met(s, pod, |s.entries|, c) <==> c in Plain(s) && Plain(s)[c].pod == pod;
  }

  lemma WithoutUnlisted(m: PlainMap, k: ContainerID, pod: PodID, conts: set<ContainerID>)
    requires k in m && m[k].pod == pod && k !in conts
    ensures PlainUpdate(m - {k}, pod, conts) == PlainUpdate(m, pod, conts)
    ensures Unmapped(m - {k}, pod, conts) == Unmapped(m, pod, conts)
  {
  }

  /**
   `Update` drops exactly the pod's unlisted containers and queues exactly the listed ids that
   are not mapped for the pod (at `idx == 0` with `tmp == conts` the requires is trivial).
   */
  lemma {:induction false} UpdateFromRefines(s: State, pod: PodID, conts: set<ContainerID>, tmp: set<ContainerID>,
                                             idx: nat)
    requires Agrees(s) && idx <= |s.entries| && Crossed(s, pod, conts, tmp, idx)
    ensures Agrees(UpdateFrom(s, pod, tmp, idx).0)
    ensures Plain(UpdateFrom(s, pod, tmp, idx).0) == PlainUpdate(Plain(s), pod, conts)
    ensures UpdateFrom(s, pod, tmp, idx).1 == Unmapped(Plain(s), pod, conts)
    decreases |s.entries| - idx
  {
    if idx == |s.entries| {
      CrossedAll(s, pod, conts, tmp);
    } else {
      var e := s.entries[idx];
      if e.invalid || e.podID != pod {
        CrossedSkip(s, pod, conts, tmp, idx);
        UpdateFromRefines(s, pod, conts, tmp, idx + 1);
      } else if e.contID in tmp {
        CrossedKeep(s, pod, conts, tmp, idx);
        UpdateFromRefines(s, pod, conts, tmp - {e.contID}, idx + 1);
      } else {
        assert Indexed(s, idx);
        CrossedFree(s, pod, conts, tmp, idx);
        FreedRefines(s, idx);
        WithoutUnlisted(Plain(s), e.contID, pod, conts);
        UpdateFromRefines(Freed(s, idx), pod, conts, tmp, idx + 1);
      }
    }
  }

  /** The whole of `Update` on the plain map. */
  lemma UpdateRefines(s: State, pod: PodID, conts: set<ContainerID>)
    requires Agrees(s)
    ensures Agrees(UpdateFrom(s, pod, conts, 0).0)
    ensures Plain(UpdateFrom(s, pod, conts, 0).0) == PlainUpdate(Plain(s), pod, conts)
    ensures UpdateFrom(s, pod, conts, 0).1 == Unmapped(Plain(s), pod, conts)
  {
    UpdateFromRefines(s, pod, conts, conts, 0);
  }

  // ---------------------------------------------------------------- whole runs

  datatype Op =
    | OpAdd(pod: PodID, cont: ContainerID, cg: CgroupID, choice: nat)
    | OpUpdate(pod: PodID, conts: set<ContainerID>)

  function Apply(s: State, op: Op): State
  {
    match op
    case OpAdd(pod, cont, cg, choice) => Add(s, pod, cont, cg, choice)
    case OpUpdate(pod, conts) => UpdateFrom(s, pod, conts, 0).0
  }

  ghost function PlainApply(m: PlainMap, op: Op): PlainMap
  {
    match op
    case OpAdd(pod, cont, cg, _) => m[cont := Placement(pod, cg)]
    case OpUpdate(pod, conts) => PlainUpdate(m, pod, conts)
  }

  function Run(ops: seq<Op>): State
  {
    if ops == [] then State([], 1024, map[], map[], 0)
    else Apply(Run(ops[..|ops| - 1]), ops[|ops| - 1])
  }

  ghost function PlainRun(ops: seq<Op>): PlainMap
  {
    if ops == [] then map[]
    else PlainApply(PlainRun(ops[..|ops| - 1]), ops[|ops| - 1])
  }

  ghost predicate OpsOk(ops: seq<Op>)
  {
    forall i :: 0 <= i < |ops| && ops[i].OpAdd? ==> AddOk(PlainRun(ops[..i]), ops[i].cont, ops[i].cg)
  }

  /** Over any sequence of operations the slots and indices refine the plain map. */
  lemma {:induction false} RunRefines(ops: seq<Op>)
    requires OpsOk(ops)
    ensures Agrees(Run(ops)) && Plain(Run(ops)) == PlainRun(ops)
  {
    if ops != [] {
      var n := |ops| - 1;
      var init, op := ops[..n], ops[n];
      forall i | 0 <= i < n && init[i].OpAdd?
        ensures AddOk(PlainRun(init[..i]), init[i].cont, init[i].cg)
      {
        assert init[..i] == ops[..i];
      }
      RunRefines(init);
      match op {
        case OpAdd(pod, cont, cg, choice) => AddRefines(Run(init), pod, cont, cg, choice);
        case OpUpdate(pod, conts) => UpdateRefines(Run(init), pod, conts);
      }
    }
  }

  // ---------------------------------------------------------------- the code's in-place form

  class Cgidm {
    var entries: seq<Entry>
    var cap: nat
    var cgMap: map<CgroupID, nat>
    var contMap: map<ContainerID, nat>
    var invalidCnt: int

    ghost function View(): State
      reads this
    {
      State(entries, cap, cgMap, contMap, invalidCnt)
    }

    constructor ()
      ensures View() == Run([])
    {
      entries, cap, cgMap, contMap, invalidCnt := [], 1024, map[], map[], 0;
    }

    method AddEntryAllocID(e: Entry, choice: nat) returns (idx: nat)
      requires Agrees(View()) && !e.invalid
      modifies this`entries, this`cap, this`invalidCnt
      ensures idx == if old(cap) > |old(entries)| || old(invalidCnt) == 0 then |old(entries)|
                     else FirstInvalid(old(entries), 0)
      ensures if idx == |old(entries)|
              then entries == old(entries) + [e] && cap == Grown(idx, old(cap), choice) && invalidCnt == old(invalidCnt)
              else idx < |old(entries)| && entries == old(entries)[idx := e] && cap == old(cap)
                   && invalidCnt == old(invalidCnt) - 1
    {
      var l := |entries|;
      if cap > l || invalidCnt == 0 {
        cap := Grown(l, cap, choice);
        entries := entries + [e];
        return l;
      }
      CountCorrectMeansFound(View());
      FirstInvalidFound(entries, 0);
      var i := 0;
      while i < l
        invariant 0 <= i <= FirstInvalid(entries, 0) < l
        invariant unchanged(this)
      {
        if entries[i].invalid {
          invalidCnt := invalidCnt - 1;
          entries := entries[i := e];
          return i;
        }
        i := i + 1;
      }
      assert false;
    }

    method UpdateEntry(idx: nat, newEntry: Entry)
      requires idx < |entries|
      modifies this`entries
      ensures entries == old(entries)[idx := old(entries)[idx].(podID := newEntry.podID, cgID := newEntry.cgID)]
    {
      var oldEntry := entries[idx];
      if oldEntry.podID != newEntry.podID {
        entries := entries[idx := entries[idx].(podID := newEntry.podID)];
      }
      if oldEntry.cgID != newEntry.cgID {
        entries := entries[idx := entries[idx].(cgID := newEntry.cgID)];
      }
    }

    method AddContainer(podID: PodID, contID: ContainerID, cgroupID: CgroupID, choice: nat)
      requires Agrees(View())
      modifies this
      ensures View() == Add(old(View()), podID, contID, cgroupID, choice)
    {
      var newEntry := Entry(cgroupID, contID, podID, false);
      if contID in contMap {
        UpdateEntry(contMap[contID], newEntry);
        return;
      }
      if invalidCnt != 0 {
        CountCorrectMeansFound(View());
      }
      var idx := AddEntryAllocID(newEntry, choice);
      contMap := contMap[contID := idx];
      cgMap := cgMap[cgroupID := idx];
    }

    method GetContainer(cgID: CgroupID) returns (r: Option<ContainerID>)
      requires Agrees(View())
      ensures r == Get(View(), cgID)
    {
      if cgID in cgMap {
        return Some(entries[cgMap[cgID]].contID);
      }
      r := None;
    }

    /** The pod's containers that are no longer listed lose their slots; the rest is queued. */
    method Update(podID: PodID, contIDs: seq<ContainerID>) returns (queued: set<ContainerID>)
      requires Agrees(View())
      modifies this
      ensures (View(), queued) == UpdateFrom(old(View()), podID, set c | c in contIDs, 0)
    {
      var tmp := set c | c in contIDs;
      var idx := 0;
      while idx < |entries|
        invariant 0 <= idx <= |entries|
        invariant UpdateFrom(View(), podID, tmp, idx) == UpdateFrom(old(View()), podID, set c | c in contIDs, 0)
        decreases |entries| - idx
      {
        var e := entries[idx];
        if !(e.invalid || e.podID != podID) {
          if e.contID in tmp {
            tmp := tmp - {e.contID};
          } else {
            cgMap := cgMap - {e.cgID};
            contMap := contMap - {e.contID};
            entries := entries[idx := e.(invalid := true)];
            invalidCnt := invalidCnt + 1;
          }
        }
        idx := idx + 1;
      }
      queued := tmp;
    }
  }
}
