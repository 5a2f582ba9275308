/**
 Cgroup paths from container runtimes (pkg/cri/container.go): a systemd slice name spells its
 place in the hierarchy, and is expanded to the path.  None stands for an error.
 */
module SystemdSlice {
  import opened Common

  // ---------------------------------------------------------------- strings.Split and its inverse

  /** One more character: a separator starts a new part, any other joins the last one. */
  function Extend(r: seq<string>, x: char, c: char): (r': seq<string>)
    requires |r| > 0
    ensures |r'| > 0
  {
    if x == c then r + [""] else r[|r| - 1 := r[|r| - 1] + [x]]
  }

  /** The parts of the first `n` characters. */
  function SplitTo(s: string, n: nat, c: char): (r: seq<string>)
    requires n <= |s|
    ensures |r| > 0
  {
    if n == 0 then [""] else Extend(SplitTo(s, n - 1, c), s[n - 1], c)
  }

  function Split(s: string, c: char): (r: seq<string>)
    ensures |r| > 0
  {
    SplitTo(s, |s|, c)
  }

  /** The first `k` parts joined. */
  function JoinTo(parts: seq<string>, k: nat, c: char): string
    requires k <= |parts|
  {
    if k == 0 then "" else if k == 1 then parts[0] else JoinTo(parts, k - 1, c) + [c] + parts[k - 1]
  }

  function Join(parts: seq<string>, c: char): string
  {
    JoinTo(parts, |parts|, c)
  }

  lemma {:induction false} SplitToPrefix(s: string, t: string, n: nat, c: char)
    requires n <= |s| && n <= |t| && forall i :: 0 <= i < n ==> s[i] == t[i]
    ensures SplitTo(s, n, c) == SplitTo(t, n, c)
  {
    if n > 0 {
      SplitToPrefix(s, t, n - 1, c);
    }
  }

  lemma {:induction false} JoinToPrefix(p: seq<string>, q: seq<string>, k: nat, c: char)
    requires k <= |p| && k <= |q| && forall i :: 0 <= i < k ==> p[i] == q[i]
    ensures JoinTo(p, k, c) == JoinTo(q, k, c)
  {
    if k > 0 {
      JoinToPrefix(p, q, k - 1, c);
    }
  }

  lemma JoinExtend(r: seq<string>, x: char, c: char)
    requires |r| > 0
    ensures Join(Extend(r, x, c), c) == Join(r, c) + [x]
  {
    var r', k := Extend(r, x, c), |r| - 1;
    if x == c {
      JoinToPrefix(r, r', k + 1, c);
    } else {
      JoinToPrefix(r, r', k, c);
    }
  }

  lemma {:induction false} JoinSplitTo(s: string, n: nat, c: char)
    requires n <= |s|
    ensures Join(SplitTo(s, n, c), c) == s[..n]
  {
    if n > 0 {
      JoinSplitTo(s, n - 1, c);
      JoinExtend(SplitTo(s, n - 1, c), s[n - 1], c);
    }
  }

  lemma JoinSplit(s: string, c: char)
    ensures Join(Split(s, c), c) == s
  {
    JoinSplitTo(s, |s|, c);
  }

  lemma {:induction false} SplitFree(s: string, n: nat, c: char, d: char)
    requires n <= |s| && (d == c || d !in s)
    ensures forall i :: 0 <= i < |SplitTo(s, n, c)| ==> d !in SplitTo(s, n, c)[i]
  {
    if n > 0 {
      SplitFree(s, n - 1, c, d);
    }
  }

  lemma {:induction false} JoinFree(parts: seq<string>, k: nat, c: char, d: char)
    requires k <= |parts| && d != c && forall i :: 0 <= i < |parts| ==> d !in parts[i]
    ensures d !in JoinTo(parts, k, c)
  {
    if k > 1 {
      JoinFree(parts, k - 1, c, d);
    }
  }

  lemma {:induction false} SplitPlain(s: string, n: nat, c: char)
    requires n <= |s| && c !in s
    ensures SplitTo(s, n, c) == [s[..n]]
  {
    if n > 0 {
      SplitPlain(s, n - 1, c);
      assert s[..n - 1] + [s[n - 1]] == s[..n];
    }
  }

  lemma SplitWhole(s: string, c: char)
    requires c !in s
    ensures Split(s, c) == [s]
  {
    SplitPlain(s, |s|, c);
    assert s[..|s|] == s;
  }

  lemma ExtendLast(p: seq<string>, r: seq<string>, x: char, c: char)
    requires |r| > 0
    ensures Extend(p + r, x, c) == p + Extend(r, x, c)
  {
  }

  lemma {:induction false} SplitAfter(s: string, a: string, b: string, k: nat, c: char)
    requires s == a + [c] + b && k <= |b|
    ensures SplitTo(s, |a| + 1 + k, c) == Split(a, c) + SplitTo(b, k, c)
    decreases k
  {
    if k == 0 {
      SplitToPrefix(s, a, |a|, c);
    } else {
      SplitAfter(s, a, b, k - 1, c);
      assert s[|a| + k] == b[k - 1];
      ExtendLast(Split(a, c), SplitTo(b, k - 1, c), b[k - 1], c);
    }
  }

  /** Splitting around one separator. */
  lemma SplitAppend(a: string, c: char, b: string)
    ensures Split(a + [c] + b, c) == Split(a, c) + Split(b, c)
  {
    SplitAfter(a + [c] + b, a, b, |b|, c);
  }

  // ---------------------------------------------------------------- systemdExpandSlice

  const SUFFIX: string := ".slice"

  predicate HasSuffix(s: string, suffix: string)
  {
    |s| >= |suffix| && s[|s| - |suffix|..] == suffix
  }

  lemma SuffixEnds(s: string, suffix: string)
    ensures HasSuffix(s, suffix) <==> exists front :: s == front + suffix
  {
    if HasSuffix(s, suffix) {
      assert s == s[..|s| - |suffix|] + suffix;
    }
  }

  /** The name of a slice without its suffix. */
  function Stem(slice: string): string
    requires HasSuffix(slice, SUFFIX)
  {
    slice[..|slice| - |SUFFIX|]
  }

  predicate NonEmpty(parts: seq<string>)
  {
    forall i :: 0 <= i < |parts| ==> parts[i] != ""
  }

  /** The `k`-th segment: the first `k` components and the suffix. */
  function Segment(cs: seq<string>, k: nat): string
    requires k <= |cs|
  {
    JoinTo(cs, k, '-') + SUFFIX
  }

  function Segments(cs: seq<string>, k: nat): (r: seq<string>)
    requires k <= |cs|
    ensures |r| == k
    ensures forall i :: 0 <= i < k ==> r[i] == Segment(cs, i + 1)
  {
    if k == 0 then [] else Segments(cs, k - 1) + [Segment(cs, k)]
  }

  function Path(cs: seq<string>, k: nat): string
    requires k <= |cs|
  {
    if k == 0 then "" else Path(cs, k - 1) + "/" + Segment(cs, k)
  }

  predicate Accepted(slice: string)
  {
    && HasSuffix(slice, SUFFIX)
    && '/' !in slice
    && (Stem(slice) == "-" || NonEmpty(Split(Stem(slice), '-')))
  }

  function ExpandSlice(slice: string): Option<string>
  {
    if !Accepted(slice) then None
    else if Stem(slice) == "-" then Some("/")
    else
      var cs := Split(Stem(slice), '-');
      Some(Path(cs, |cs|))
  }

  /** No empty component: the stem has no dash at either end and no two in a row. */
  ghost predicate WellDashed(s: string)
  {
    && s != "" && s[0] != '-' && s[|s| - 1] != '-'
    && forall i :: 0 <= i < |s| - 1 ==> !(s[i] == '-' && s[i + 1] == '-')
  }

  lemma LastPart(s: string, n: nat, c: char)
    requires n <= |s|
    ensures SplitTo(s, n, c)[|SplitTo(s, n, c)| - 1] == "" <==> n == 0 || s[n - 1] == c
  {
  }

  /** All parts but the last one have characters in them. */
  predicate InitNonEmpty(r: seq<string>)
  {
    forall i :: 0 <= i < |r| - 1 ==> r[i] != ""
  }

  lemma {:induction false} InitParts(s: string, n: nat)
    requires n <= |s|
    ensures InitNonEmpty(SplitTo(s, n, '-')) <==>
              n == 0 || (s[0] != '-' && forall i :: 0 <= i < n - 1 ==> !(s[i] == '-' && s[i + 1] == '-'))
  {
    if n > 0 {
      InitParts(s, n - 1);
      LastPart(s, n - 1, '-');
      ExtendInit(SplitTo(s, n - 1, '-'), s[n - 1], '-');
    }
  }

  lemma ExtendInit(r: seq<string>, x: char, c: char)
    requires |r| > 0
    ensures InitNonEmpty(Extend(r, x, c)) <==> InitNonEmpty(r) && (x == c ==> r[|r| - 1] != "")
  {
    var r' := Extend(r, x, c);
    assert forall i :: 0 <= i < |r| - 1 ==> r'[i] == r[i];
    if x == c {
      assert r'[|r| - 1] == r[|r| - 1];
    }
  }

  /** Which names are accepted, without splitting them. */
  lemma AcceptedNames(slice: string)
    ensures Accepted(slice) <==>
              HasSuffix(slice, SUFFIX) && '/' !in slice && (slice == "-.slice" || WellDashed(Stem(slice)))
  {
    if HasSuffix(slice, SUFFIX) {
      var s := Stem(slice);
      assert slice == s + SUFFIX;
      InitParts(s, |s|);
      LastPart(s, |s|, '-');
      assert NonEmpty(Split(s, '-')) <==> InitNonEmpty(Split(s, '-')) && s != "" && s[|s| - 1] != '-';
      if s == "-" {
        assert slice == "-.slice";
      }
      if slice == "-.slice" {
        assert s == "-";
      }
    }
  }

  ghost predicate Slashless(cs: seq<string>)
  {
    forall i :: 0 <= i < |cs| ==> '/' !in cs[i]
  }

  lemma SegmentSlashless(cs: seq<string>, k: nat)
    requires k <= |cs| && Slashless(cs)
    ensures '/' !in Segment(cs, k)
  {
    JoinFree(cs, k, '-', '/');
  }

  lemma RootedAppend(segs: seq<string>, last: string)
    ensures [""] + segs + [last] == [""] + (segs + [last])
  {
  }

  lemma {:induction false} PathSegments(cs: seq<string>, k: nat)
    requires k <= |cs| && Slashless(cs)
    ensures Split(Path(cs, k), '/') == [""] + Segments(cs, k)
    decreases k
  {
    if k > 0 {
      PathSegments(cs, k - 1);
      SegmentSlashless(cs, k);
      SplitAppend(Path(cs, k - 1), '/', Segment(cs, k));
      SplitWhole(Segment(cs, k), '/');
      RootedAppend(Segments(cs, k - 1), Segment(cs, k));
    } else {
      assert [""] + Segments(cs, 0) == [""];
    }
  }

  lemma StemComponents(slice: string)
    requires Accepted(slice)
    ensures Slashless(Split(Stem(slice), '-'))
    ensures Segment(Split(Stem(slice), '-'), |Split(Stem(slice), '-')|) == slice
  {
    var cs := Split(Stem(slice), '-');
    SplitFree(Stem(slice), |Stem(slice)|, '-', '/');
    JoinSplit(Stem(slice), '-');
  }

  /**
   An accepted name expands to one segment for each component, the `k`-th being the first `k`
   components joined again, with the suffix; so the last segment is the name itself.
   */
  lemma ExpansionSegments(slice: string)
    requires Accepted(slice) && slice != "-.slice"
    ensures var cs := Split(Stem(slice), '-');
            var segments := Split(ExpandSlice(slice).value, '/');
            && segments == [""] + Segments(cs, |cs|)
            && segments[|segments| - 1] == slice
  {
    AcceptedNames(slice);
    var cs := Split(Stem(slice), '-');
    assert slice == Stem(slice) + SUFFIX;
    StemComponents(slice);
    PathSegments(cs, |cs|);
  }

  /** The number of dashes. */
  function Dashes(s: string): nat
  {
    if s == "" then 0 else Dashes(s[..|s| - 1]) + if s[|s| - 1] == '-' then 1 else 0
  }

  lemma {:induction false} DashesAppend(a: string, b: string)
    ensures Dashes(a + b) == Dashes(a) + Dashes(b)
    decreases |b|
  {
    if b == "" {
      assert a + b == a;
    } else {
      assert (a + b)[..|a + b| - 1] == a + b[..|b| - 1];
      DashesAppend(a, b[..|b| - 1]);
    }
  }

  lemma {:induction false} DashFree(s: string)
    requires '-' !in s
    ensures Dashes(s) == 0
  {
    if s != "" {
      DashFree(s[..|s| - 1]);
    }
  }

  /** Joining dash-free parts puts a dash between any two. */
  lemma {:induction false} JoinDashes(cs: seq<string>, k: nat)
    requires 0 < k <= |cs| && forall i :: 0 <= i < |cs| ==> '-' !in cs[i]
    ensures Dashes(JoinTo(cs, k, '-')) == k - 1
  {
    DashFree(cs[k - 1]);
    if k > 1 {
      JoinDashes(cs, k - 1);
      DashesAppend(JoinTo(cs, k - 1, '-'), ['-']);
      DashesAppend(JoinTo(cs, k - 1, '-') + ['-'], cs[k - 1]);
      assert ['-'][..0] == "";
    }
  }

  /** The first parts joined are the beginning of all parts joined, up to a dash. */
  lemma {:induction false} JoinBegins(cs: seq<string>, k: nat, n: nat)
    requires 0 < k <= n <= |cs|
    ensures JoinTo(cs, k, '-') <= JoinTo(cs, n, '-')
    ensures k < n ==> JoinTo(cs, k, '-') + ['-'] <= JoinTo(cs, n, '-')
    decreases n - k
  {
    if k < n {
      JoinBegins(cs, k, n - 1);
    }
  }

  /**
   The hierarchy that a slice name spells, without splitting it: there is one segment for each dash and
   one more, and the `k`-th is the name cut before its `k`-th dash, with the suffix.
   */
  lemma SegmentsCutTheName(slice: string, k: nat)
    requires Accepted(slice) && slice != "-.slice" && 0 < k <= Dashes(slice[..|slice| - 6]) + 1
    ensures var segments, stem := Split(ExpandSlice(slice).value, '/'), slice[..|slice| - 6];
            && |segments| == Dashes(stem) + 2 && segments[0] == ""
            && exists m :: 0 <= m <= |stem| && segments[k] == stem[..m] + ".slice" && Dashes(stem[..m]) == k - 1
                           && (m == |stem| || stem[m] == '-')
  {
    var stem := Stem(slice);
    var cs := Split(stem, '-');
    ExpansionSegments(slice);
    SplitFree(stem, |stem|, '-', '-');
    JoinSplit(stem, '-');
    JoinDashes(cs, |cs|);
    JoinDashes(cs, k);
    JoinBegins(cs, k, |cs|);
    var m := |JoinTo(cs, k, '-')|;
    assert stem[..m] == JoinTo(cs, k, '-');
    if k < |cs| {
      assert stem[m] == (JoinTo(cs, k, '-') + ['-'])[m];
    } else {
      assert m == |stem|;
    }
    var segments := Split(ExpandSlice(slice).value, '/');
    assert segments[k] == Segments(cs, |cs|)[k - 1] == Segment(cs, k);
  }

  /** The expansion undone: the last segment, or the root slice. */
  function Collapse(path: string): string
  {
    if path == "/" then "-.slice"
    else
      var segments := Split(path, '/');
      segments[|segments| - 1]
  }

  lemma CollapseExpand(slice: string)
    requires Accepted(slice)
    ensures Collapse(ExpandSlice(slice).value) == slice
  {
    assert slice == Stem(slice) + SUFFIX;
    if Stem(slice) != "-" {
      ExpansionSegments(slice);
      assert ExpandSlice(slice).value != "/" by {
        SplitAppend("", '/', "");
        assert "" + ['/'] + "" == "/";
      }
    }
  }

  /** Distinct names have distinct paths. */
  lemma ExpandInjective(a: string, b: string)
    requires Accepted(a) && Accepted(b) && ExpandSlice(a) == ExpandSlice(b)
    ensures a == b
  {
    CollapseExpand(a);
    CollapseExpand(b);
  }

  // ---------------------------------------------------------------- ParseCgroupsPath

  /** filepath.Clean on the segments of a rooted path. */
  function CleanSegments(segs: seq<string>, stack: seq<string>): seq<string>
    decreases |segs|
  {
    if segs == [] then stack
    else if segs[0] == "" || segs[0] == "." then CleanSegments(segs[1..], stack)
    else if segs[0] == ".." then CleanSegments(segs[1..], if stack == [] then [] else stack[..|stack| - 1])
    else CleanSegments(segs[1..], stack + [segs[0]])
  }

  /** filepath.Join of a rooted path and a name. */
  function JoinPath(dir: string, name: string): string
  {
    "/" + Join(CleanSegments(Split(dir + "/" + name, '/'), []), '/')
  }

  function ScopeName(scope: string, name: string): string
  {
    if HasSuffix(name, SUFFIX) then name else scope + "-" + name + ".scope"
  }

  function ParsePath(path: string): Option<string>
  {
    if '/' in path then Some(path)
    else
      var parts := Split(path, ':');
      if |parts| != 3 then None
      else
        match ExpandSlice(parts[0])
        case None => None
        case Some(dir) => Some(JoinPath(dir, ScopeName(parts[1], parts[2])))
  }

  ghost predicate Proper(segs: seq<string>)
  {
    forall i :: 0 <= i < |segs| ==> segs[i] != "" && segs[i] != "." && segs[i] != ".."
  }

  lemma {:induction false} CleanProper(segs: seq<string>, stack: seq<string>)
    requires Proper(segs)
    ensures CleanSegments(segs, stack) == stack + segs
    decreases |segs|
  {
    if segs != [] {
      CleanProper(segs[1..], stack + [segs[0]]);
      assert stack + [segs[0]] + segs[1..] == stack + segs;
    } else {
      assert stack + segs == stack;
    }
  }

  /** What a proper path is made of: cleaning leaves it as it is. */
  lemma CleanPath(segs: seq<string>)
    requires Proper(segs)
    ensures CleanSegments([""] + segs, []) == segs
  {
    assert ([""] + segs)[1..] == segs;
    CleanProper(segs, []);
    assert [] + segs == segs;
  }

  lemma JoinNoSlash(dir: string, name: string)
    requires '/' !in name
    ensures Split(dir + "/" + name, '/') == Split(dir, '/') + [name]
  {
    assert dir + "/" + name == dir + ['/'] + name;
    SplitAppend(dir, '/', name);
    SplitWhole(name, '/');
  }

  lemma {:induction false} RootedJoin(segs: seq<string>, k: nat)
    requires 0 < k <= |segs|
    ensures JoinTo([""] + segs, k + 1, '/') == "/" + JoinTo(segs, k, '/')
    decreases k
  {
    var rooted := [""] + segs;
    assert rooted[k] == segs[k - 1];
    if k == 1 {
      assert JoinTo(rooted, 1, '/') == "";
      assert "" + ['/'] + segs[0] == "/" + segs[0];
    } else {
      RootedJoin(segs, k - 1);
      Rooted(JoinTo(segs, k - 1, '/'), segs[k - 1]);
    }
  }

  lemma Rooted(a: string, b: string)
    ensures ("/" + a) + ['/'] + b == "/" + (a + ['/'] + b)
  {
  }

  lemma SegmentsProper(cs: seq<string>)
    ensures Proper(Segments(cs, |cs|))
  {
    forall i | 0 <= i < |cs|
      ensures |Segments(cs, |cs|)[i]| > 2
    {
      assert Segments(cs, |cs|)[i] == Segment(cs, i + 1);
    }
  }

  /** Cleaning does nothing to a rooted path of proper segments. */
  lemma ProperPathIsClean(path: string, segs: seq<string>)
    requires segs != [] && Proper(segs) && Split(path, '/') == [""] + segs
    ensures "/" + Join(CleanSegments(Split(path, '/'), []), '/') == path
  {
    CleanPath(segs);
    RootedJoin(segs, |segs|);
    JoinSplit(path, '/');
  }

  lemma JoinRoot(name: string)
    requires '/' !in name && |name| > 2
    ensures JoinPath("/", name) == "/" + name
  {
    JoinNoSlash("/", name);
    SplitAppend("", '/', "");
    assert "" + ['/'] + "" == "/";
    assert Split("/" + "/" + name, '/') == [""] + ([""] + [name]);
    assert ([""] + ([""] + [name]))[1..] == [""] + [name];
    CleanPath([name]);
  }

  /** Joining a name to an expanded slice only appends it: nothing is there to be cleaned. */
  lemma JoinPathAppends(slice: string, name: string)
    requires Accepted(slice) && '/' !in name && |name| > 2
    ensures JoinPath(ExpandSlice(slice).value, name)
            == if slice == "-.slice" then "/" + name else ExpandSlice(slice).value + "/" + name
  {
    assert slice == Stem(slice) + SUFFIX;
    if slice == "-.slice" {
      assert Stem(slice) == "-";
      JoinRoot(name);
    } else {
      var dir := ExpandSlice(slice).value;
      var cs := Split(Stem(slice), '-');
      var segs := Segments(cs, |cs|);
      ExpansionSegments(slice);
      SegmentsProper(cs);
      JoinNoSlash(dir, name);
      assert Split(dir + "/" + name, '/') == [""] + (segs + [name]);
      ProperPathIsClean(dir + "/" + name, segs + [name]);
    }
  }

  /**
   ParseCgroupsPath as a whole: a path is kept; "slice:prefix:name" becomes the slice's path and the
   name, which is a slice already or gets the prefix and ".scope"; all else is an error.
   */
  lemma ParseMeaning(path: string)
    ensures '/' in path ==> ParsePath(path) == Some(path)
    ensures '/' !in path ==>
              var parts := Split(path, ':');
              ParsePath(path) ==
              if |parts| != 3 || !Accepted(parts[0]) then None
              else
                var name := if HasSuffix(parts[2], ".slice") then parts[2] else parts[1] + "-" + parts[2] + ".scope";
                Some(if parts[0] == "-.slice" then "/" + name else ExpandSlice(parts[0]).value + "/" + name)
  {
    var parts := Split(path, ':');
    if '/' !in path && |parts| == 3 && Accepted(parts[0]) {
      SplitFree(path, |path|, ':', '/');
      JoinPathAppends(parts[0], ScopeName(parts[1], parts[2]));
    }
  }

  /** The slice and the name can be read back from the parsed path. */
  lemma ParseSegments(path: string)
    requires '/' !in path && ParsePath(path).Some?
    ensures var parts := Split(path, ':');
            |parts| == 3 && Accepted(parts[0]) &&
            Split(ParsePath(path).value, '/')
            == (if parts[0] == "-.slice" then [""] else Split(ExpandSlice(parts[0]).value, '/'))
               + [if HasSuffix(parts[2], ".slice") then parts[2] else parts[1] + "-" + parts[2] + ".scope"]
  {
    var parts := Split(path, ':');
    var name := ScopeName(parts[1], parts[2]);
    SplitFree(path, |path|, ':', '/');
    ParseMeaning(path);
    if parts[0] == "-.slice" {
      JoinNoSlash("", name);
      assert "" + "/" + name == "/" + name;
    } else {
      JoinNoSlash(ExpandSlice(parts[0]).value, name);
    }
  }

  // ---------------------------------------------------------------- the code's loop

  lemma Regroup(a: string, b: string, c: string, d: string)
    ensures a + "/" + (b + c + d) == a + "/" + b + c + d
  {
  }

  /** What comes before component `k` in its segment. */
  function Prefix(cs: seq<string>, k: nat): string
    requires k <= |cs|
  {
    if k == 0 then "" else JoinTo(cs, k, '-') + "-"
  }

  lemma PathGrows(cs: seq<string>, k: nat)
    requires k < |cs|
    ensures Path(cs, k + 1) == Path(cs, k) + "/" + Prefix(cs, k) + cs[k] + SUFFIX
    ensures Prefix(cs, k + 1) == Prefix(cs, k) + cs[k] + "-"
  {
    assert Prefix(cs, k) + cs[k] == JoinTo(cs, k + 1, '-');
    Regroup(Path(cs, k), Prefix(cs, k), cs[k], SUFFIX);
  }

  method SystemdExpandSlice(slice: string) returns (r: Option<string>)
    ensures r == ExpandSlice(slice)
  {
    if |slice| < |SUFFIX| || !HasSuffix(slice, SUFFIX) {
      return None;
    }
    if '/' in slice {
      return None;
    }
    var path, prefix := "", "";
    var sliceName := slice[..|slice| - |SUFFIX|];
    if sliceName == "-" {
      return Some("/");
    }
    var cs := Split(sliceName, '-');
    for k := 0 to |cs|
      invariant forall i :: 0 <= i < k ==> cs[i] != ""
      invariant path == Path(cs, k) && prefix == Prefix(cs, k)
    {
      var component := cs[k];
      if component == "" {
        return None;
      }
      PathGrows(cs, k);
      path := path + "/" + prefix + component + SUFFIX;
      prefix := prefix + component + "-";
    }
    assert NonEmpty(cs);
    return Some(path);
  }

  method ParseCgroupsPath(cgroupPath: string) returns (r: Option<string>)
    ensures r == ParsePath(cgroupPath)
  {
    if '/' in cgroupPath {
      return Some(cgroupPath);
    }
    var parts := Split(cgroupPath, ':');
    if |parts| == 3 {
      var slice := SystemdExpandSlice(parts[0]);
      if slice.None? {
        return None;
      }
      var name := parts[2];
      if !HasSuffix(name, SUFFIX) {
        name := parts[1] + "-" + name + ".scope";
      }
      return Some(JoinPath(slice.value, name));
    }
    return None;
  }
}
