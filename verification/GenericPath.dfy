/**
 The resumable walk (bpf/process/generic_path.h): path resolution cut into at most
 `GENERIC_PATH_CALLS` tail calls, with the position saved in per-CPU state between them.
 */
module GenericPath {
  import opened Common
  import opened DPath

  const GENERIC_PATH_CALLS: nat := 8
  /** The last byte of the buffer is kept free, so the walk starts one byte lower. */
  const TOP: nat := MAX_BUF_LEN - 1

  datatype State = STATE_INIT | STATE_WORK

  datatype TailCall = TAIL_CALL_PATH | TAIL_CALL_PROCESS

  /** The position and text a fresh offloaded walk starts from. */
  function Begun(g: Graph, path: Path): Walk
  {
    Begin(g, path, TOP)
  }

  /** What eight calls may achieve, seen as one uninterrupted loop. */
  function OneLoop(g: Graph, path: Path, root: Path, iterations: nat): Walk
  {
    Iterate(g, root, Begun(g, path), GENERIC_PATH_CALLS * iterations)
  }

  /** The call, from the `c`-th on, with which the walk is handed back: the one that resolves, or the last. */
  function CallsFrom(g: Graph, root: Path, w: Walk, iterations: nat, c: nat): (r: nat)
    requires c <= GENERIC_PATH_CALLS
    ensures c <= r <= GENERIC_PATH_CALLS
    decreases GENERIC_PATH_CALLS - c
  {
    if c == GENERIC_PATH_CALLS || Iterate(g, root, w, c * iterations).resolved then c
    else CallsFrom(g, root, w, iterations, c + 1)
  }

  /** After `cnt` calls the walk has taken all their steps and is to be resumed. */
  ghost predicate StillWalks(g: Graph, root: Path, w0: Walk, iterations: nat, cnt: nat, w: Walk)
  {
    && cnt < GENERIC_PATH_CALLS
    && w == Iterate(g, root, w0, cnt * iterations)
    && CallsFrom(g, root, w0, iterations, 1) == CallsFrom(g, root, w0, iterations, cnt + 1)
  }

  /** After `cnt` calls the walk is where eight calls would bring it. */
  ghost predicate Finished(g: Graph, root: Path, w0: Walk, iterations: nat, cnt: nat, w: Walk)
  {
    cnt == CallsFrom(g, root, w0, iterations, 1) && w == Iterate(g, root, w0, GENERIC_PATH_CALLS * iterations)
  }

  lemma NextCall(g: Graph, root: Path, w0: Walk, iterations: nat, cnt: nat, w: Walk)
    requires !w0.resolved && StillWalks(g, root, w0, iterations, cnt, w)
    ensures var w' := Iterate(g, root, w, iterations);
            if w'.resolved || cnt + 1 == GENERIC_PATH_CALLS then Finished(g, root, w0, iterations, cnt + 1, w')
            else StillWalks(g, root, w0, iterations, cnt + 1, w')
  {
    Resume(g, root, w0, cnt, iterations);
  }

  class GenericPathState {
    const buffer: array<char>
    var state: State
    var off: nat
    var cnt: nat
    var rootDentry: DentryId
    var rootMnt: VfsMount
    var dentry: DentryId
    var vfsmnt: VfsMount
    var mnt: MountId

    ghost predicate Valid()
      reads this
    {
      buffer.Length == BUFFER_SIZE && off <= TOP
    }

    /** The walk that the saved fields stand for. */
    ghost function View(): Walk
      reads this, buffer
      requires Valid()
    {
      Walk(Pos(dentry, vfsmnt, mnt), buffer[off..TOP], off, false)
    }

    ghost function Root(): Path
      reads this
    {
      Path(rootDentry, rootMnt)
    }

    constructor (buffer: array<char>)
      requires buffer.Length == BUFFER_SIZE
      ensures Valid() && state == STATE_INIT && this.buffer == buffer
    {
      this.buffer := buffer;
      state, off, cnt := STATE_INIT, 0, 0;
      rootDentry, dentry, mnt := 0, 0, 0;
      rootMnt, vfsmnt := VfsMount(0), VfsMount(0);
    }

    method PathInit(g: Graph, path: Path, root: Path) returns (next: TailCall)
      requires Valid()
      modifies this, buffer
      ensures Valid() && state == STATE_WORK && cnt == 0 && next == TAIL_CALL_PATH
      ensures Root() == root && View() == Begun(g, path)
      ensures forall i :: TOP <= i < BUFFER_SIZE ==> buffer[i] == old(buffer[i])
    {
      var buf := MAX_BUF_LEN - 1;
      if g.Unlinked(path.dentry) {
        var left, error;
        buf, left, error := Prepend(buffer, buf, MAX_BUF_LEN, DELETED);
      }
      rootDentry, rootMnt := root.dentry, root.mnt;
      dentry, vfsmnt, mnt := path.dentry, path.mnt, path.mnt.of;
      cnt := 0;
      off := buf;
      state := STATE_WORK;
      next := TAIL_CALL_PATH;
      assert buffer[off..TOP] == Suffix(g, path);
    }

    /**
     One tail call of the walk.  Whether or not the position is saved back (it is not when the
     walk ends here), the buffer and offset are those of `iterations` more steps.
     */
    method PathWork(g: Graph, iterations: nat) returns (next: TailCall, resolved: bool)
      requires Valid() && g.NamesFit()
      modifies this, buffer
      ensures Valid() && Root() == old(Root()) && state == old(state) && cnt == old(cnt) + 1
      ensures var w := Iterate(g, Root(), old(View()), iterations);
              && resolved == w.resolved
              && off == w.blen && buffer[off..TOP] == w.text
              && next == (if w.resolved || cnt == GENERIC_PATH_CALLS then TAIL_CALL_PROCESS else TAIL_CALL_PATH)
              && (next == TAIL_CALL_PATH ==> View() == w)
      ensures forall i :: TOP <= i < BUFFER_SIZE ==> buffer[i] == old(buffer[i])
    {
      ghost var w0 := View();
      ghost var root := Root();
      var data := new CwdReadData(Path(rootDentry, rootMnt), Pos(dentry, vfsmnt, mnt), buffer, off, off, TOP);
      var i := 0;
      var stop := false;
      while i < iterations && !stop
        invariant 0 <= i <= iterations
        invariant data.Valid() && fresh(data) && data.bf == buffer && data.top == TOP && data.Root() == root
        invariant unchanged(this)
        invariant Iterate(g, root, w0, iterations)
                  == if stop then data.View() else Iterate(g, root, data.View(), iterations - i)
        invariant forall i :: TOP <= i < BUFFER_SIZE ==> buffer[i] == old(buffer[i])
        decreases iterations - i, !stop
      {
        stop := data.CwdRead(g);
        i := i + 1;
      }
      resolved := data.resolved;
      cnt := cnt + 1;
      off := data.bptr;
      if resolved || cnt == GENERIC_PATH_CALLS {
        return TAIL_CALL_PROCESS, resolved;
      }
      dentry, vfsmnt, mnt := data.dentry, data.vfsmnt, data.mnt;
      next := TAIL_CALL_PATH;
    }

    /** The whole offload: initialise, then resume until the machine leaves TAIL_CALL_PATH. */
    method Resolve(g: Graph, path: Path, root: Path, iterations: nat) returns (resolved: bool)
      requires Valid() && state == STATE_INIT && g.NamesFit()
      modifies this, buffer
      ensures Valid() && cnt == CallsFrom(g, root, Begun(g, path), iterations, 1)
      ensures var w := OneLoop(g, path, root, iterations);
              off == w.blen && buffer[off..TOP] == w.text && resolved == w.resolved
      ensures forall i :: TOP <= i < BUFFER_SIZE ==> buffer[i] == old(buffer[i])
    {
      var next := PathInit(g, path, root);
      ghost var w0 := View();
      resolved := false;
      while next == TAIL_CALL_PATH
        invariant Valid() && Root() == root && cnt <= GENERIC_PATH_CALLS
        invariant next == TAIL_CALL_PATH ==> StillWalks(g, root, w0, iterations, cnt, View())
        invariant next == TAIL_CALL_PROCESS ==>
                    exists w :: Finished(g, root, w0, iterations, cnt, w)
                      && off == w.blen && buffer[off..TOP] == w.text && resolved == w.resolved
        invariant forall i :: TOP <= i < BUFFER_SIZE ==> buffer[i] == old(buffer[i])
        decreases GENERIC_PATH_CALLS - cnt, next == TAIL_CALL_PATH
      {
        NextCall(g, root, w0, iterations, cnt, View());
        next, resolved := PathWork(g, iterations);
      }
    }
  }

  /** A resolved walk needs no further call: more steps would change nothing. */
  lemma {:induction false} ResolvedStays(g: Graph, root: Path, w: Walk, m: nat, n: nat)
    requires m <= n && !w.resolved
    requires Iterate(g, root, w, m).resolved
    ensures Iterate(g, root, w, n) == Iterate(g, root, w, m)
    decreases m
  {
    var (w', stop) := CwdStep(g, root, w);
    if !stop {
      ResolvedStays(g, root, w', m - 1, n - 1);
    }
  }

  /** One more call adds `iterations` steps; if it resolves, the remaining calls would add nothing. */
  lemma Resume(g: Graph, root: Path, w: Walk, done: nat, iterations: nat)
    requires !w.resolved && done < GENERIC_PATH_CALLS
    ensures var w' := Iterate(g, root, Iterate(g, root, w, done * iterations), iterations);
            && Iterate(g, root, w, (done + 1) * iterations) == w'
            && (w'.resolved ==> Iterate(g, root, w, GENERIC_PATH_CALLS * iterations) == w')
  {
    IterateSplits(g, root, w, done * iterations, iterations);
    assert done * iterations + iterations == (done + 1) * iterations;
    if Iterate(g, root, w, (done + 1) * iterations).resolved {
      assert (done + 1) * iterations <= GENERIC_PATH_CALLS * iterations;
      ResolvedStays(g, root, w, (done + 1) * iterations, GENERIC_PATH_CALLS * iterations);
    }
  }

  /**
   A truncated walk stays put: once some call has filled the buffer with characters still to
   come, every later call leaves buffer, offset and position as they are.
   */
  lemma TruncatedStaysPut(g: Graph, root: Path, w: Walk, m: nat, n: nat)
    requires !w.resolved && m <= n
    requires |TruePath(g, root, w.at, m)| > w.blen
    ensures Iterate(g, root, w, n) == Iterate(g, root, w, m)
    ensures !Iterate(g, root, w, n).resolved && Iterate(g, root, w, n).blen == 0
    decreases m
  {
    var (w', stop) := CwdStep(g, root, w);
    if !stop {
      TruncatedStaysPut(g, root, w', m - 1, n - 1);
    }
  }

  /** What `generic_path_offload` hands to `store_path`: the bytes, and the size TOP - off. */
  lemma OffloadMeaning(g: Graph, path: Path, root: Path, iterations: nat)
    ensures var w := OneLoop(g, path, root, iterations);
            var steps := GENERIC_PATH_CALLS * iterations;
            var full := TruePath(g, root, Start(path), steps) + Suffix(g, path);
            && w.text == Last(full, TOP)
            && w.blen == TOP - |w.text|
            && (w.resolved <==> Arrives(g, root, Start(path), steps) && |full| <= TOP)
  {
    PathMeaning(g, root, Begun(g, path), GENERIC_PATH_CALLS * iterations);
  }

  /** By the file system alone: a route that the calls can walk is stored, up to TOP bytes of its end. */
  lemma OffloadsTheRoute(g: Graph, path: Path, root: Path, iterations: nat, legs: seq<Leg>)
    requires IsRouteOf(g, path, root, legs)
    ensures var w := OneLoop(g, path, root, iterations);
            var deleted := g.dUnhashed(path.dentry) && g.dParent(path.dentry) != path.dentry;
            var full := RouteText(g, legs) + if deleted then " (deleted)" else "";
            && (w.resolved <==> RouteSteps(legs) <= GENERIC_PATH_CALLS * iterations && |full| <= TOP)
            && (RouteSteps(legs) <= GENERIC_PATH_CALLS * iterations ==> w.text == Last(full, TOP))
  {
    OffloadMeaning(g, path, root, iterations);
    RouteIsPath(g, root, legs, GENERIC_PATH_CALLS * iterations);
  }
}
