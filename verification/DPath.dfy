/**
 Path reconstruction (bpf/lib/bpf_d_path.h).

 A walk climbs from a dentry towards the process's root, across mounts, and writes the path
 backwards into a fixed buffer.  `TruePath` is the path itself, defined without any buffer;
 `Iterate` is the walk with its buffer; `CwdReadData` is the code's own in-place form.
 */
module DPath {
  import opened Common

  const MAX_BUF_LEN: nat := 4096
  const BUFFER_SIZE: nat := MAX_BUF_LEN + 256
  const NAME_MAX: nat := 255
  const ENAMETOOLONG: int := 36
  const UNRESOLVED_PATH_COMPONENTS: int := 2
  const DELETED: string := " (deleted)"

  // ---------------------------------------------------------------- the dentry/mount graph

  type DentryId = nat
  type MountId = nat

  /** `&mount->mnt`: the vfsmount embedded in a mount, so `real_mount` is the field `of`. */
  datatype VfsMount = VfsMount(of: MountId)

  datatype Path = Path(dentry: DentryId, mnt: VfsMount)

  /** Any memory content: parents and mounts may be cyclic or shared. */
  datatype Graph = Graph(
    dParent: DentryId -> DentryId,
    dName: DentryId -> string,
    dUnhashed: DentryId -> bool,
    mntRoot: VfsMount -> DentryId,
    mntParent: MountId -> MountId,
    mntMountpoint: MountId -> DentryId)
  {
    predicate IsRoot(d: DentryId) { dParent(d) == d }

    predicate Unlinked(d: DentryId) { dUnhashed(d) && !IsRoot(d) }

    /** The kernel's limit on the length of one dentry name. */
    ghost predicate NamesFit() { forall d :: |dName(d)| <= NAME_MAX }
  }

  datatype Pos = Pos(dentry: DentryId, vfsmnt: VfsMount, mnt: MountId)

  function Start(path: Path): Pos { Pos(path.dentry, path.mnt, path.mnt.of) }

  // ---------------------------------------------------------------- the path, without a buffer

  datatype Move = Arrived | Crossed(to: Pos) | Named(name: string, to: Pos)

  function Next(g: Graph, root: Path, p: Pos): Move
  {
    if p.dentry == root.dentry && p.vfsmnt == root.mnt then Arrived
    else if p.dentry == g.mntRoot(p.vfsmnt) || g.IsRoot(p.dentry) then
      var parent := g.mntParent(p.mnt);
      if parent == p.mnt then Arrived
      else Crossed(Pos(g.mntMountpoint(p.mnt), VfsMount(parent), parent))
    else Named(g.dName(p.dentry), p.(dentry := g.dParent(p.dentry)))
  }

  /** The part of the path that `n` moves reveal: each further move extends it on the left. */
  function TruePath(g: Graph, root: Path, p: Pos, n: nat): string
    decreases n
  {
    if n == 0 then "" else
    match Next(g, root, p)
    case Arrived => ""
    case Crossed(q) => TruePath(g, root, q, n - 1)
    case Named(s, q) => TruePath(g, root, q, n - 1) + ("/" + s)
  }

  predicate Arrives(g: Graph, root: Path, p: Pos, n: nat)
    decreases n
  {
    n > 0 &&
    match Next(g, root, p)
    case Arrived => true
    case Crossed(q) => Arrives(g, root, q, n - 1)
    case Named(_, q) => Arrives(g, root, q, n - 1)
  }

  lemma FrontStays(front: string, path: string, name: string)
    ensures front + path + name == front + (path + name)
  {
  }

  /** More moves only add characters in front, and none once the walk has arrived. */
  lemma {:induction false} TruePathGrows(g: Graph, root: Path, p: Pos, n: nat, m: nat)
    requires n <= m
    ensures exists front :: TruePath(g, root, p, m) == front + TruePath(g, root, p, n)
    ensures Arrives(g, root, p, n) ==>
              Arrives(g, root, p, m) && TruePath(g, root, p, m) == TruePath(g, root, p, n)
    decreases n
  {
    if n == 0 {
      assert TruePath(g, root, p, m) == TruePath(g, root, p, m) + TruePath(g, root, p, n);
    } else {
      match Next(g, root, p) {
        case Arrived =>
          assert TruePath(g, root, p, m) == "" + TruePath(g, root, p, n);
        case Crossed(q) =>
          TruePathGrows(g, root, q, n - 1, m - 1);
        case Named(s, q) =>
          TruePathGrows(g, root, q, n - 1, m - 1);
          var front :| TruePath(g, root, q, m - 1) == front + TruePath(g, root, q, n - 1);
          FrontStays(front, TruePath(g, root, q, n - 1), "/" + s);
          assert TruePath(g, root, p, m) == front + TruePath(g, root, p, n);
      }
    }
  }

  // ---------------------------------------------------------------- the path as the file system has it

  /** The dentry `k` levels above `d`. */
  function Up(g: Graph, d: DentryId, k: nat): DentryId
    decreases k
  {
    if k == 0 then d else Up(g, g.dParent(d), k - 1)
  }

  /** The names of `d` and of the `k - 1` dentries above it, the topmost first. */
  function Names(g: Graph, d: DentryId, k: nat): string
    decreases k
  {
    if k == 0 then "" else Names(g, g.dParent(d), k - 1) + ("/" + g.dName(d))
  }

  /** A dentry at which mount `m` begins, or that has no parent. */
  predicate Topmost(g: Graph, d: DentryId, m: MountId)
  {
    d == g.mntRoot(VfsMount(m)) || g.dParent(d) == d
  }

  /** `k` levels up from `d` in mount `m` neither the process's root nor a topmost dentry is left. */
  ghost predicate Climbs(g: Graph, root: Path, d: DentryId, m: MountId, k: nat)
  {
    forall j :: 0 <= j < k ==> Path(Up(g, d, j), VfsMount(m)) != root && !Topmost(g, Up(g, d, j), m)
  }

  /** The part of a path in one mount: `up` levels from dentry `from`. */
  datatype Leg = Leg(from: DentryId, mnt: MountId, up: nat)
  {
    function Top(g: Graph): Path { Path(Up(g, from, up), VfsMount(mnt)) }
  }

  /** The leg ends where its mount begins, on the dentry of the parent mount where the next one starts. */
  predicate Leaves(g: Graph, root: Path, leg: Leg, next: Leg)
  {
    && leg.Top(g) != root && Topmost(g, leg.Top(g).dentry, leg.mnt)
    && g.mntParent(leg.mnt) != leg.mnt
    && next.mnt == g.mntParent(leg.mnt) && next.from == g.mntMountpoint(leg.mnt)
  }

  /** The leg ends at the process's root, or at the top of a mount that is mounted nowhere. */
  predicate Ends(g: Graph, root: Path, leg: Leg)
  {
    leg.Top(g) == root || (Topmost(g, leg.Top(g).dentry, leg.mnt) && g.mntParent(leg.mnt) == leg.mnt)
  }

  /** The way from a file to the root, mount by mount. */
  ghost predicate Route(g: Graph, root: Path, legs: seq<Leg>)
  {
    && legs != []
    && (forall i :: 0 <= i < |legs| ==> Climbs(g, root, legs[i].from, legs[i].mnt, legs[i].up))
    && (forall i :: 0 <= i < |legs| - 1 ==> Leaves(g, root, legs[i], legs[i + 1]))
    && Ends(g, root, legs[|legs| - 1])
  }

  /** The path along a route: the names in the outermost mount first. */
  function RouteText(g: Graph, legs: seq<Leg>): string
  {
    if legs == [] then "" else RouteText(g, legs[1..]) + Names(g, legs[0].from, legs[0].up)
  }

  /** One step for each name, each crossing and the arrival. */
  function RouteSteps(legs: seq<Leg>): nat
  {
    if legs == [] then 0 else legs[0].up + 1 + RouteSteps(legs[1..])
  }

  function At(d: DentryId, m: MountId): Pos { Pos(d, VfsMount(m), m) }

  /** Climbing in one mount reveals the names passed, whatever comes above. */
  lemma {:induction false} Climbing(g: Graph, root: Path, d: DentryId, m: MountId, k: nat, n: nat)
    requires Climbs(g, root, d, m, k)
    ensures TruePath(g, root, At(d, m), k + n) == TruePath(g, root, At(Up(g, d, k), m), n) + Names(g, d, k)
    ensures Arrives(g, root, At(d, m), k + n) == Arrives(g, root, At(Up(g, d, k), m), n)
    decreases k
  {
    if k == 0 {
      assert TruePath(g, root, At(d, m), n) + "" == TruePath(g, root, At(d, m), n);
    } else {
      assert Path(Up(g, d, 0), VfsMount(m)) != root && !Topmost(g, Up(g, d, 0), m);
      ClimbsOn(g, root, d, m, k);
      Climbing(g, root, g.dParent(d), m, k - 1, n);
      FrontStays(TruePath(g, root, At(Up(g, d, k), m), n), Names(g, g.dParent(d), k - 1), "/" + g.dName(d));
    }
  }

  lemma ClimbsOn(g: Graph, root: Path, d: DentryId, m: MountId, k: nat)
    requires k > 0
    ensures Climbs(g, root, d, m, k)
            <==> Path(d, VfsMount(m)) != root && !Topmost(g, d, m) && Climbs(g, root, g.dParent(d), m, k - 1)
  {
    assert Up(g, d, 0) == d;
    forall j: nat
      ensures Up(g, d, j + 1) == Up(g, g.dParent(d), j)
    {
    }
    if Climbs(g, root, d, m, k) {
      assert Path(Up(g, d, 0), VfsMount(m)) != root && !Topmost(g, Up(g, d, 0), m);
      forall j | 0 <= j < k - 1
        ensures Path(Up(g, g.dParent(d), j), VfsMount(m)) != root && !Topmost(g, Up(g, g.dParent(d), j), m)
      {
        assert Path(Up(g, d, j + 1), VfsMount(m)) != root && !Topmost(g, Up(g, d, j + 1), m);
      }
    }
    if Path(d, VfsMount(m)) != root && !Topmost(g, d, m) && Climbs(g, root, g.dParent(d), m, k - 1) {
      forall j | 0 <= j < k
        ensures Path(Up(g, d, j), VfsMount(m)) != root && !Topmost(g, Up(g, d, j), m)
      {
        if j > 0 {
          assert Up(g, d, j) == Up(g, g.dParent(d), j - 1);
        }
      }
    }
  }

  /**
   Crossing a mount: above the `k` names up to where mount `m` begins, the path goes on in the parent
   mount, at the dentry on which `m` itself is mounted.
   */
  lemma MountCrossed(g: Graph, root: Path, leg: Leg, next: Leg, n: nat)
    requires Climbs(g, root, leg.from, leg.mnt, leg.up) && Leaves(g, root, leg, next)
    ensures TruePath(g, root, At(leg.from, leg.mnt), leg.up + 1 + n)
            == TruePath(g, root, At(g.mntMountpoint(leg.mnt), g.mntParent(leg.mnt)), n)
               + Names(g, leg.from, leg.up)
    ensures Arrives(g, root, At(leg.from, leg.mnt), leg.up + 1 + n)
            == Arrives(g, root, At(g.mntMountpoint(leg.mnt), g.mntParent(leg.mnt)), n)
  {
    Climbing(g, root, leg.from, leg.mnt, leg.up, 1 + n);
  }

  lemma RouteRest(g: Graph, root: Path, legs: seq<Leg>)
    requires Route(g, root, legs) && |legs| > 1
    ensures Route(g, root, legs[1..]) && Leaves(g, root, legs[0], legs[1])
  {
    forall i | 0 <= i < |legs| - 2
      ensures Leaves(g, root, legs[1..][i], legs[1..][i + 1])
    {
      assert Leaves(g, root, legs[i + 1], legs[i + 2]);
    }
  }

  /** Before the `k` levels are climbed the walk has not arrived. */
  lemma {:induction false} NotYetArrived(g: Graph, root: Path, d: DentryId, m: MountId, k: nat, n: nat)
    requires Climbs(g, root, d, m, k) && n <= k
    ensures !Arrives(g, root, At(d, m), n)
    decreases n
  {
    if n > 0 {
      ClimbsOn(g, root, d, m, k);
      NotYetArrived(g, root, g.dParent(d), m, k - 1, n - 1);
    }
  }

  /** Along a route the walk arrives with exactly its steps, and the true path is the route's text. */
  lemma {:induction false} RouteIsPath(g: Graph, root: Path, legs: seq<Leg>, n: nat)
    requires Route(g, root, legs)
    ensures Arrives(g, root, At(legs[0].from, legs[0].mnt), n) <==> n >= RouteSteps(legs)
    ensures n >= RouteSteps(legs) ==> TruePath(g, root, At(legs[0].from, legs[0].mnt), n) == RouteText(g, legs)
    decreases |legs|
  {
    var leg, rest := legs[0], legs[1..];
    if n <= leg.up {
      NotYetArrived(g, root, leg.from, leg.mnt, leg.up, n);
    } else if |legs| == 1 {
      Climbing(g, root, leg.from, leg.mnt, leg.up, n - leg.up);
      assert rest == [];
    } else {
      RouteRest(g, root, legs);
      MountCrossed(g, root, leg, legs[1], n - leg.up - 1);
      RouteIsPath(g, root, rest, n - leg.up - 1);
    }
  }

  /** A walk that arrives has followed a route. */
  lemma {:induction false} ArrivalHasRoute(g: Graph, root: Path, d: DentryId, m: MountId, n: nat)
    returns (legs: seq<Leg>)
    requires Arrives(g, root, At(d, m), n)
    ensures Route(g, root, legs) && legs[0].from == d && legs[0].mnt == m
    decreases n
  {
    var here := Leg(d, m, 0);
    assert here.Top(g) == Path(d, VfsMount(m));
    if Ends(g, root, here) {
      legs := [here];
    } else if Topmost(g, d, m) {
      var rest := ArrivalHasRoute(g, root, g.mntMountpoint(m), g.mntParent(m), n - 1);
      legs := [here] + rest;
      assert forall i :: 0 < i < |legs| ==> legs[i] == rest[i - 1];
    } else {
      var rest := ArrivalHasRoute(g, root, g.dParent(d), m, n - 1);
      var first := Leg(d, m, rest[0].up + 1);
      ClimbsOn(g, root, d, m, first.up);
      assert first.Top(g) == rest[0].Top(g);
      legs := [first] + rest[1..];
      assert forall i :: 0 < i < |legs| ==> legs[i] == rest[i];
      LongerLeg(g, root, rest, legs);
    }
  }

  lemma LongerLeg(g: Graph, root: Path, rest: seq<Leg>, legs: seq<Leg>)
    requires Route(g, root, rest) && |legs| == |rest| && forall i :: 0 < i < |legs| ==> legs[i] == rest[i]
    requires legs[0].mnt == rest[0].mnt && legs[0].Top(g) == rest[0].Top(g)
    requires Climbs(g, root, legs[0].from, legs[0].mnt, legs[0].up)
    ensures Route(g, root, legs)
  {
    forall i | 0 <= i < |legs| - 1
      ensures Leaves(g, root, legs[i], legs[i + 1])
    {
      assert Leaves(g, root, rest[i], rest[i + 1]);
    }
  }

  // ---------------------------------------------------------------- the walk with its buffer

  /** `text` is what the buffer holds from the write pointer on, `blen` the room left before it. */
  datatype Walk = Walk(at: Pos, text: string, blen: nat, resolved: bool)

  /** One `cwd_read`: the new state, and whether the loop stops here. */
  function CwdStep(g: Graph, root: Path, w: Walk): (Walk, bool)
  {
    match Next(g, root, w.at)
    case Arrived => (w.(resolved := true), true)
    case Crossed(q) => (w.(at := q), false)
    case Named(s, q) =>
      if |s| < w.blen then
        (w.(at := q, text := "/" + s + w.text, blen := w.blen - |s| - 1), false)
      else
        (w.(text := s[|s| - w.blen..] + w.text, blen := 0), true)
  }

  function Iterate(g: Graph, root: Path, w: Walk, n: nat): Walk
    decreases n
  {
    if n == 0 then w else
    var (w', stop) := CwdStep(g, root, w);
    if stop then w' else Iterate(g, root, w', n - 1)
  }

  /** A name cut to the room left yields the same bytes as cutting the whole path at the end. */
  lemma CutName(rest: string, s: string, text: string, room: nat)
    requires room <= |s|
    ensures Last(rest + ("/" + s) + text, |text| + room) == s[|s| - room..] + text
  {
    var all := rest + ("/" + s) + text;
    assert all == (rest + "/" + s[..|s| - room]) + (s[|s| - room..] + text);
  }

  /** The buffer holds the longest suffix of `path` and the old text that fits, and knows if it is all. */
  ghost predicate Means(w: Walk, path: string, arrived: bool, w': Walk)
  {
    && w'.text == Last(path + w.text, |w.text| + w.blen)
    && w'.blen + |w'.text| == w.blen + |w.text|
    && (w'.resolved <==> arrived && |path| <= w.blen)
  }

  lemma NamedMeans(w: Walk, s: string, q: Pos, rest: string, arrived: bool, w': Walk)
    requires |s| < w.blen
    requires Means(w.(at := q, text := "/" + s + w.text, blen := w.blen - |s| - 1), rest, arrived, w')
    ensures Means(w, rest + ("/" + s), arrived, w')
  {
    assert rest + ("/" + s) + w.text == rest + ("/" + s + w.text);
  }

  lemma CutMeans(w: Walk, s: string, rest: string, arrived: bool)
    requires |s| >= w.blen && !w.resolved
    ensures Means(w, rest + ("/" + s), arrived, w.(text := s[|s| - w.blen..] + w.text, blen := 0))
  {
    CutName(rest, s, w.text, w.blen);
  }

  lemma NothingAdded(w: Walk, arrived: bool)
    requires !w.resolved
    ensures Means(w, "", arrived, w.(resolved := arrived))
  {
    assert "" + w.text == w.text;
  }

  /** The meaning of `n` steps, given that of the steps after the first. */
  lemma MeaningGrows(g: Graph, root: Path, w: Walk, n: nat)
    requires n > 0 && !w.resolved
    requires var (w', stop) := CwdStep(g, root, w);
             !stop ==> Means(w', TruePath(g, root, w'.at, n - 1), Arrives(g, root, w'.at, n - 1),
                             Iterate(g, root, w', n - 1))
    ensures Means(w, TruePath(g, root, w.at, n), Arrives(g, root, w.at, n), Iterate(g, root, w, n))
  {
    match Next(g, root, w.at) {
      case Arrived => NothingAdded(w, true);
      case Crossed(q) =>
      case Named(s, q) =>
        var rest, arrived := TruePath(g, root, q, n - 1), Arrives(g, root, q, n - 1);
        if |s| < w.blen {
          NamedMeans(w, s, q, rest, arrived, Iterate(g, root, CwdStep(g, root, w).0, n - 1));
        } else {
          CutMeans(w, s, rest, arrived);
        }
    }
  }

  /**
   Path meaning.  After any number of steps the buffer holds the longest suffix of the true
   path (followed by what was there) that fits; and the walk reports success exactly when it
   arrived and nothing had to be cut.
   */
  lemma {:induction false} PathMeaning(g: Graph, root: Path, w: Walk, n: nat)
    requires !w.resolved
    ensures Means(w, TruePath(g, root, w.at, n), Arrives(g, root, w.at, n), Iterate(g, root, w, n))
    decreases n
  {
    if n == 0 {
      NothingAdded(w, false);
    } else {
      var (w', stop) := CwdStep(g, root, w);
      if !stop {
        PathMeaning(g, root, w', n - 1);
      }
      MeaningGrows(g, root, w, n);
    }
  }

  /** A walk that has stopped, resolved or truncated, stays exactly as it is. */
  lemma StopIsFinal(g: Graph, root: Path, w: Walk)
    requires CwdStep(g, root, w).1
    ensures CwdStep(g, root, CwdStep(g, root, w).0) == (CwdStep(g, root, w).0, true)
  {
    match Next(g, root, w.at) {
      case Arrived =>
      case Named(s, _) =>
        var w' := CwdStep(g, root, w).0;
        assert s[|s|..] + w'.text == w'.text;
    }
  }

  /** Cutting a loop in two and resuming from the saved state loses nothing. */
  lemma {:induction false} IterateSplits(g: Graph, root: Path, w: Walk, m: nat, n: nat)
    ensures Iterate(g, root, w, m + n) == Iterate(g, root, Iterate(g, root, w, m), n)
    decreases m
  {
    if m > 0 {
      var (w', stop) := CwdStep(g, root, w);
      if stop {
        StopIsFinal(g, root, w);
      } else {
        IterateSplits(g, root, w', m - 1, n);
      }
    }
  }

  /** The loop keeps hold of the room it was given. */
  lemma {:induction false} IterateRoom(g: Graph, root: Path, w: Walk, n: nat)
    ensures var w' := Iterate(g, root, w, n);
            w'.blen + |w'.text| == w.blen + |w.text| && |w.text| <= |w'.text|
    decreases n
  {
    if n > 0 && !CwdStep(g, root, w).1 {
      IterateRoom(g, root, CwdStep(g, root, w).0, n - 1);
    }
  }

  // ---------------------------------------------------------------- d_path_local

  ghost predicate IsRouteOf(g: Graph, path: Path, root: Path, legs: seq<Leg>)
  {
    Route(g, root, legs) && legs[0].from == path.dentry && legs[0].mnt == path.mnt.of
  }

  function Suffix(g: Graph, path: Path): string
  {
    if g.Unlinked(path.dentry) then DELETED else ""
  }

  function Begin(g: Graph, path: Path, room: nat): Walk
    requires |DELETED| <= room
  {
    Walk(Start(path), Suffix(g, path), room - |Suffix(g, path)|, false)
  }

  datatype Resolved = Resolved(text: string, buflen: int, error: int)

  /** What `d_path_local` leaves in the buffer, and the length and error it reports. */
  function DPathResult(g: Graph, path: Path, root: Path, iterations: nat): Resolved
  {
    var w := Iterate(g, root, Begin(g, path, MAX_BUF_LEN), iterations);
    if |w.text| <= |Suffix(g, path)| then Resolved(w.text, 0, 0)
    else Resolved(w.text,
                  if w.blen > 0 then MAX_BUF_LEN - w.blen else 0,
                  if w.resolved then 0 else UNRESOLVED_PATH_COMPONENTS)
  }

  /**
   What the caller of `d_path_local` may conclude.  The bytes are the longest suffix of the true
   path that fits.  The error is right unless the walk met only mount points; the reported length
   is right exactly when the walk wrote something and left room, or there was nothing at all, and else 0.
   */
  lemma DPathLocalMeaning(g: Graph, path: Path, root: Path, iterations: nat)
    ensures var r := DPathResult(g, path, root, iterations);
            var full := TruePath(g, root, Start(path), iterations);
            var whole := Arrives(g, root, Start(path), iterations)
                         && |full| + |Suffix(g, path)| <= MAX_BUF_LEN;
            && r.text == Last(full + Suffix(g, path), MAX_BUF_LEN)
            && (r.error == 0 <==> whole || full == "")
            && (r.buflen == |r.text| || r.buflen == 0)
            && (r.buflen == |r.text| <==>
                (full != "" && |full| + |Suffix(g, path)| < MAX_BUF_LEN)
                || (full == "" && !g.Unlinked(path.dentry)))
  {
    PathMeaning(g, root, Begin(g, path, MAX_BUF_LEN), iterations);
  }

  /**
   The same by the file system alone: whether there is a route of no more than the given steps decides
   the flag, and the bytes are the end of its text, a file that is unhashed and has a parent being
   called deleted.
   */
  lemma ResolvesTheRoute(g: Graph, path: Path, root: Path, iterations: nat)
    ensures Arrives(g, root, Start(path), iterations) <==>
              exists legs :: IsRouteOf(g, path, root, legs) && RouteSteps(legs) <= iterations
    ensures forall legs :: IsRouteOf(g, path, root, legs) && RouteSteps(legs) <= iterations ==>
              var deleted := g.dUnhashed(path.dentry) && g.dParent(path.dentry) != path.dentry;
              DPathResult(g, path, root, iterations).text
              == Last(RouteText(g, legs) + if deleted then " (deleted)" else "", MAX_BUF_LEN)
  {
    DPathLocalMeaning(g, path, root, iterations);
    forall legs | IsRouteOf(g, path, root, legs)
      ensures Arrives(g, root, Start(path), iterations) <==> RouteSteps(legs) <= iterations
      ensures RouteSteps(legs) <= iterations ==>
                TruePath(g, root, Start(path), iterations) == RouteText(g, legs)
    {
      RouteIsPath(g, root, legs, iterations);
    }
    if Arrives(g, root, Start(path), iterations) {
      var legs := ArrivalHasRoute(g, root, path.dentry, path.mnt.of, iterations);
      assert IsRouteOf(g, path, root, legs);
    }
  }

  /**
   A cut path is a suffix of the path itself, not merely of what was walked: once the buffer is
   full, it holds the same bytes that any longer walk of the graph would end with.
   */
  lemma TruncatedIsSuffixOfWholePath(g: Graph, path: Path, root: Path, n: nat, m: nat)
    requires n <= m
    requires |TruePath(g, root, Start(path), n)| + |Suffix(g, path)| >= MAX_BUF_LEN
    ensures DPathResult(g, path, root, n).text
            == Last(TruePath(g, root, Start(path), m) + Suffix(g, path), MAX_BUF_LEN)
  {
    PathMeaning(g, root, Begin(g, path, MAX_BUF_LEN), n);
    TruePathGrows(g, root, Start(path), n, m);
    var short := TruePath(g, root, Start(path), n);
    var front :| TruePath(g, root, Start(path), m) == front + short;
    assert front + short + Suffix(g, path) == front + (short + Suffix(g, path));
  }

  /** A deleted file whose walk adds nothing is reported with length 0 although 10 bytes were written. */
  lemma ReportedLengthCanBeWrong() returns (g: Graph, path: Path)
    ensures g.NamesFit()
    ensures forall n :: DPathResult(g, path, path, n).buflen == 0
                        && DPathResult(g, path, path, n).text == DELETED
  {
    g := Graph(_ => 0, _ => "f", _ => true, _ => 0, m => m, _ => 0);
    path := Path(1, VfsMount(0));
    forall n
      ensures DPathResult(g, path, path, n).buflen == 0
              && DPathResult(g, path, path, n).text == DELETED
    {
      assert Next(g, path, Start(path)) == Arrived;
    }
  }

  // ---------------------------------------------------------------- the code's in-place form

  /** Copies `str` in front of the write pointer; the callers always leave room for it. */
  method Prepend(buf: array<char>, buffer: nat, buflen: nat, str: string)
    returns (buffer': nat, buflen': int, error: int)
    requires |str| <= buffer <= buf.Length
    modifies buf
    ensures error == if |str| <= buflen then 0 else -ENAMETOOLONG
    ensures buflen' == buflen - |str|
    ensures buffer' == if error == 0 then buffer - |str| else buffer
    ensures error == 0 ==> buf[buffer'..buffer] == str
    ensures forall i :: 0 <= i < buf.Length && !(buffer' <= i < buffer) ==> buf[i] == old(buf[i])
  {
    buffer' := buffer;
    buflen' := buflen - |str|;
    if buflen' < 0 {
      return buffer', buflen', -ENAMETOOLONG;
    }
    buffer' := buffer' - |str|;
    forall i | 0 <= i < |str| { buf[buffer' + i] := str[i]; }
    error := 0;
  }

  /**
   Writes "/name" in front of the write pointer, or as much of the name's end as fits.  As long
   as the pointer's offset equals the remaining length, neither of the two bound checks fires.
   */
  method PrependName(buf: array<char>, bufptr: nat, buflen: nat, name: string)
    returns (bufptr': nat, buflen': nat, error: int)
    requires buf.Length == BUFFER_SIZE
    requires bufptr == buflen <= MAX_BUF_LEN
    requires |name| <= NAME_MAX
    modifies buf
    ensures bufptr' == buflen' <= bufptr
    ensures error == if |name| < buflen then 0 else -ENAMETOOLONG
    ensures buf[bufptr'..bufptr] == Last("/" + name, buflen)
    ensures forall i :: 0 <= i < buf.Length && !(bufptr' <= i < bufptr) ==> buf[i] == old(buf[i])
  {
    var writeSlash := 1;
    var bufferOffset := bufptr;
    var namelen := |name|;
    var from := 0;
    if namelen >= buflen {
      from := namelen - buflen;
      namelen := buflen;
      writeSlash := 0;
    }
    buflen' := buflen - (namelen + writeSlash);
    if namelen + writeSlash > bufferOffset {
      assert false;
    }
    bufferOffset := bufferOffset - (namelen + writeSlash);
    if bufferOffset >= MAX_BUF_LEN {
      assert false;
    }
    if writeSlash == 1 {
      buf[bufferOffset] := '/';
    }
    assert namelen % 256 == namelen;
    namelen := namelen % 256;
    ghost var text := if writeSlash == 1 then "/" + name else name[from..];
    assert text == Last("/" + name, buflen);
    forall i | 0 <= i < namelen {
      buf[bufferOffset + writeSlash + i] := name[from + i];
    }
    bufptr' := bufferOffset;
    assert |text| == bufptr - bufptr';
    assert forall i :: 0 <= i < |text| ==> buf[bufptr' + i] == text[i];
    error := if writeSlash == 1 then 0 else -ENAMETOOLONG;
  }

  /** What is written in front of the text joins it. */
  lemma Written(bytes: seq<char>, bytes': seq<char>, ptr: nat, was: nat, top: nat)
    requires ptr <= was <= top <= |bytes| == |bytes'|
    requires forall i :: 0 <= i < |bytes'| && !(ptr <= i < was) ==> bytes'[i] == bytes[i]
    ensures bytes'[ptr..top] == bytes'[ptr..was] + bytes[was..top]
  {
  }

  /** A step over a name adds the end of "/name" that fits. */
  lemma NamedStep(g: Graph, root: Path, w: Walk, s: string, q: Pos)
    requires Next(g, root, w.at) == Named(s, q)
    ensures var w' := w.(text := Last("/" + s, w.blen) + w.text, blen := w.blen - |Last("/" + s, w.blen)|);
            CwdStep(g, root, w) == if |s| < w.blen then (w'.(at := q), false) else (w', true)
  {
    if |s| >= w.blen {
      assert Last("/" + s, w.blen) == s[|s| - w.blen..];
    }
  }

  class CwdReadData {
    const rootDentry: DentryId
    const rootMnt: VfsMount
    const bf: array<char>
    const top: nat
    var dentry: DentryId
    var vfsmnt: VfsMount
    var mnt: MountId
    var bptr: nat
    var blen: nat
    var resolved: bool

    ghost predicate Valid()
      reads this
    {
      bf.Length == BUFFER_SIZE && bptr == blen <= top <= MAX_BUF_LEN
    }

    ghost function View(): Walk
      reads this, bf
      requires Valid()
    {
      Walk(Pos(dentry, vfsmnt, mnt), bf[bptr..top], blen, resolved)
    }

    ghost function Root(): Path { Path(rootDentry, rootMnt) }

    constructor (root: Path, at: Pos, bf: array<char>, bptr: nat, blen: nat, top: nat)
      requires bf.Length == BUFFER_SIZE && bptr == blen <= top <= MAX_BUF_LEN
      ensures Valid() && this.bf == bf && this.top == top && Root() == root
      ensures View() == Walk(at, bf[bptr..top], blen, false)
    {
      rootDentry, rootMnt := root.dentry, root.mnt;
      this.bf, this.bptr, this.blen, this.top := bf, bptr, blen, top;
      dentry, vfsmnt, mnt := at.dentry, at.vfsmnt, at.mnt;
      resolved := false;
    }

    /** One step of the walk, in place; bytes before the pointer and after `top` are untouched. */
    method CwdRead(g: Graph) returns (stop: bool)
      requires Valid() && g.NamesFit()
      modifies this, bf
      ensures Valid()
      ensures (View(), stop) == CwdStep(g, Root(), old(View()))
      ensures forall i :: 0 <= i < bf.Length && !(bptr <= i < top) ==> bf[i] == old(bf[i])
    {
      if !(dentry != rootDentry || vfsmnt != rootMnt) {
        resolved := true;
        return true;
      }
      if dentry == g.mntRoot(vfsmnt) || g.IsRoot(dentry) {
        var parent := g.mntParent(mnt);
        if mnt != parent {
          dentry := g.mntMountpoint(mnt);
          mnt := parent;
          vfsmnt := VfsMount(parent);
          return false;
        }
        resolved := true;
        return true;
      }
      var parent := g.dParent(dentry);
      ghost var was := bptr;
      NamedStep(g, Root(), View(), g.dName(dentry), View().at.(dentry := parent));
      var error;
      bptr, blen, error := PrependName(bf, bptr, blen, g.dName(dentry));
      Written(old(bf[..]), bf[..], bptr, was, top);
      assert bf[bptr..top] == bf[..][bptr..top] && old(bf[was..top]) == old(bf[..])[was..top];
      assert bf[bptr..was] == bf[..][bptr..was];
      if error != 0 {
        return true;
      }
      dentry := parent;
      return false;
    }
  }

  /** `d_path_local`: the single loop, with the length and error it hands back. */
  method DPathLocal(g: Graph, path: Path, root: Path, buffer: array<char>, iterations: nat)
    returns (res: nat, buflen: int, error: int)
    requires buffer.Length == BUFFER_SIZE && g.NamesFit()
    modifies buffer
    ensures res <= MAX_BUF_LEN
    ensures Resolved(buffer[res..MAX_BUF_LEN], buflen, error) == DPathResult(g, path, root, iterations)
    ensures forall i :: MAX_BUF_LEN <= i < BUFFER_SIZE ==> buffer[i] == old(buffer[i])
  {
    res, buflen, error := MAX_BUF_LEN, MAX_BUF_LEN, 0;
    if g.Unlinked(path.dentry) {
      var left;
      res, left, error := Prepend(buffer, res, buflen, DELETED);
      if error != 0 {
        assert false;
      }
      buflen := left;
    }
    ghost var w0 := Begin(g, path, MAX_BUF_LEN);
    assert buffer[res..MAX_BUF_LEN] == w0.text;
    var data := new CwdReadData(root, Start(path), buffer, res, buflen, MAX_BUF_LEN);
    var i := 0;
    var stop := false;
    while i < iterations && !stop
      invariant 0 <= i <= iterations
      invariant data.Valid() && fresh(data) && data.bf == buffer && data.top == MAX_BUF_LEN && data.Root() == root
      invariant Iterate(g, root, w0, iterations)
                == if stop then data.View() else Iterate(g, root, data.View(), iterations - i)
      invariant forall i :: MAX_BUF_LEN <= i < BUFFER_SIZE ==> buffer[i] == old(buffer[i])
      decreases iterations - i, !stop
    {
      stop := data.CwdRead(g);
      i := i + 1;
    }
    IterateRoom(g, root, w0, iterations);
    assert data.View() == Iterate(g, root, w0, iterations);
    if data.bptr == res {
      buflen := 0;
      return res, 0, 0;
    }
    error := if data.resolved then 0 else UNRESOLVED_PATH_COMPONENTS;
    res := data.bptr;
    buflen := data.blen;
    if buflen > 0 {
      buflen := MAX_BUF_LEN - buflen;
    }
  }
}
