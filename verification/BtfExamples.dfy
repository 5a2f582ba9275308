/**
 Inputs on which the compiler departs from C.  Each kind of type graph is described by the nodes it
 has, and one of the kind is given.
 */
module BtfExamples {
  import opened Common
  import opened BtfTypes
  import opened BtfResolve
  import opened BtfCorrectness
  import opened BtfAcceptance
  import opened BtfRoots

  // ---------------------------------------------------------------- well-formed graphs

  predicate OneNamed(b: BType)
  {
    b.Aggregate() && |b.members| == 1 && b.members[0].name != ""
  }

  /** Where every aggregate but one has a single, named member, only that one can break C's rules. */
  lemma WellFormedBut(ts: Types, several: TypeId, names: seq<string>)
    requires ts.Ranked()
    requires forall t :: ts.node(t).Aggregate() && t != several ==> OneNamed(ts.node(t))
    requires ts.node(several).Aggregate() && |names| == |ts.node(several).members|
    requires forall k, name :: 0 <= k < |names| && ts.Offer(several, k, name).Some? ==> name == names[k]
    requires forall j, k :: 0 <= j < k < |names| ==> names[j] != names[k]
    requires forall m :: m in ts.node(several).members && m.name == "" ==> ts.AnonymousOk(m.ty)
    ensures ts.WellFormed()
  {
  }

  lemma RankedBut(ts: Types, several: TypeId)
    requires forall t :: ts.node(t).Qualifier() ==> ts.rank(ts.node(t).inner) < ts.rank(t)
    requires forall t :: ts.node(t).Pointer? ==> ts.rank(ts.node(t).target) < ts.rank(t)
    requires forall t :: ts.node(t).Aggregate() && t != several ==> OneNamed(ts.node(t))
    requires ts.node(several).Aggregate()
    requires forall m :: m in ts.node(several).members && m.name == "" ==> ts.rank(m.ty) < ts.rank(several)
    ensures ts.Ranked()
  {
  }

  // ---------------------------------------------------------------- an anonymous member at offset 8

  /** struct { struct { int x; } at 8; } with x at 4 in the inner structure. */
  ghost predicate IsNested(ts: Types)
  {
    && ts.WellFormed()
    && ts.node(0) == Struct([Member("", 8, 1)]) && ts.node(1) == Struct([Member("x", 4, 2)]) && ts.node(2) == Int
  }

  function NestedNode(t: TypeId): BType
  {
    if t == 0 then Struct([Member("", 8, 1)]) else if t == 1 then Struct([Member("x", 4, 2)]) else Int
  }

  function Nested(): Types
  {
    Types(NestedNode, _ => 4, t => if t == 0 then 2 else if t == 1 then 1 else 0)
  }

  lemma NestedFinds(ts: Types, name: string)
    requires ts.Ranked() && ts.node(2) == Int
    requires ts.node(0) == Struct([Member("", 8, 1)]) && ts.node(1) == Struct([Member("x", 4, 2)])
    ensures ts.ResolveNestedTypes(1) == 1
    ensures ts.Find(1, 0, name) == if name == "x" then Some(Found(0, 4, 2)) else None
    ensures ts.Find(0, 0, name) == if name == "x" then Some(Found(8, 4, 2)) else None
  {
    assert ts.Find(1, 1, name).None? && ts.Find(0, 1, name).None?;
  }

  lemma NestedExists()
    ensures IsNested(Nested())
  {
    var ts := Nested();
    RankedBut(ts, 0);
    forall name {
      NestedFinds(ts, name);
    }
    WellFormedBut(ts, 0, ["x"]);
  }

  /** The offset of the anonymous member is overwritten by the inner one. */
  lemma AnonymousOffsetIsLost(ts: Types, w: Wording)
    requires IsNested(ts)
    ensures CDefined(ts, 0, ["x"], 0) && Compiled(ts, w, 0, ["x"]).1.Resolved?
    ensures LostBytes(ts, 0, ["x"], 0) == 8 && !Keeps(ts, 0, ["x"], 0)
  {
    var path := ["x"];
    NestedFinds(ts, "x");
    assert NextHop(ts, 0, "x") == Some(Hop(ByMember, 8, 4, 2));
    var a1 := Place(NoArgs(), 0, 8);
    assert Members(ts, w, a1, 1, 0, None, path, 0).1.Resolved?;
    assert Members(ts, w, NoArgs(), 0, 0, None, path, 0).1.Resolved?;
  }

  // ---------------------------------------------------------------- a member of a pointer to a pointer

  /** Type 0 is struct { int x; } **, type 1 struct { int x; } *, and type 4 that with a const. */
  ghost predicate IsChain(ts: Types)
  {
    && ts.WellFormed()
    && ts.node(0) == Pointer(1) && ts.node(1) == Pointer(2) && ts.node(2) == Struct([Member("x", 0, 3)])
    && ts.node(3) == Int && ts.node(4) == Const(1)
  }

  function ChainNode(t: TypeId): BType
  {
    if t == 0 then Pointer(1) else if t == 1 then Pointer(2) else if t == 2 then Struct([Member("x", 0, 3)])
    else if t == 4 then Const(1) else Int
  }

  function Chain(): Types
  {
    Types(ChainNode, _ => 8, t => if t < 3 then 3 - t else if t == 4 then 3 else 0)
  }

  lemma ChainExists()
    ensures IsChain(Chain())
  {
    var ts := Chain();
    RankedBut(ts, 2);
    WellFormedBut(ts, 2, ["x"]);
  }

  /** What "x" and "[0]" mean in such a graph, and what the compiler makes of them. */
  lemma ChainHops(ts: Types, w: Wording, args: Args, path: seq<string>, i: nat)
    requires IsChain(ts) && i < |path| <= MAX_BTF_ARG_DEPTH
    ensures ts.ResolveNestedTypes(1) == 1 && ts.ResolveNestedTypes(2) == 2
    ensures path[i] == "x" ==> NextHop(ts, 2, path[i]) == Some(Hop(ByMember, 0, 0, 3))
    ensures path[i] == "x" ==> NextHop(ts, 1, path[i]) == Some(Hop(ByMember, 0, 0, 3))
    ensures path[i] == "x" && i + 1 == |path| ==> Resolve(ts, w, args, 2, path, i).1.Resolved?
  {
    assert ParseArrayIdxStr("x").None?;
    assert ts.ResolveNestedTypes(2) == 2 && ts.ResolveNestedTypes(3) == 3;
    assert ts.Find(2, 0, "x") == Some(Found(0, 0, 3));
    assert Resolve(ts, w, args, 2, path, i) == Members(ts, w, args, 2, 0, None, path, i);
  }

  lemma ChainIndexed(ts: Types)
    requires IsChain(ts)
    ensures NextHop(ts, 1, "[0]") == Some(Hop(ByPointerIndex, 0, 0, 2))
    ensures ParseArrayIdxStr("[0]") == Some(0) && ts.size(2) * 0 == 0
  {
    BracketIsZero();
    assert ts.ResolveNestedTypes(2) == 2 && ts.size(2) * 0 == 0;
  }

  lemma DoublePointerIsAccepted(ts: Types, w: Wording)
    requires IsChain(ts)
    ensures DoublePointer(ts, 0, ["x"], 0) && Compiled(ts, w, 0, ["x"]).1.Resolved?
  {
    ChainHops(ts, w, NoArgs(), ["x"], 0);
    assert ParseArrayIdxStr("x").None?;
    assert Resolve(ts, w, NoArgs(), 1, ["x"], 0) == Resolve(ts, w, NoArgs(), 2, ["x"], 0);
  }

  // ---------------------------------------------------------------- a structure indexed through a pointer

  /** "[0].x": the structure is loaded as if it were a pointer. */
  lemma IndexedStructureIsLoaded(ts: Types, w: Wording)
    requires IsChain(ts)
    ensures CDefined(ts, 1, ["[0]", "x"], 0) && Compiled(ts, w, 1, ["[0]", "x"]).1.Resolved?
    ensures ExtraLoad(ts, NextHop(ts, 1, "[0]").value, false) && !Keeps(ts, 1, ["[0]", "x"], 0)
  {
    var path := ["[0]", "x"];
    var a1 := Place(Mark(NoArgs(), 0), 0, 0);
    ChainIndexed(ts);
    ChainHops(ts, w, a1, path, 1);
    assert CDefined(ts, 2, path, 1) && !CatchesUp(ts, 2, path, 1);
    assert Resolve(ts, w, NoArgs(), 1, path, 0) == ArrayStep(ts, w, Mark(NoArgs(), 0), 2, path, 0, 0);
  }

  /** "[0]" alone: C's value is the address of the structure, the steps load from it. */
  lemma IndexedStructureAtEndIsLoaded(ts: Types, w: Wording)
    requires IsChain(ts)
    ensures CDefined(ts, 1, ["[0]"], 0) && Compiled(ts, w, 1, ["[0]"]).1.Resolved?
    ensures ExtraLoad(ts, NextHop(ts, 1, "[0]").value, true) && !Keeps(ts, 1, ["[0]"], 0)
  {
    ChainIndexed(ts);
    ChainHops(ts, w, NoArgs(), ["[0]"], 0);
    assert Resolve(ts, w, NoArgs(), 1, ["[0]"], 0) == ArrayStep(ts, w, Mark(NoArgs(), 0), 2, ["[0]"], 0, 0);
  }

  /** A pointer behind a const is not padded for, and so not followed. */
  lemma ConstPointerIsNotFollowed(ts: Types, w: Wording)
    requires IsChain(ts)
    ensures Pad(ts, 4, ["x"]) == ["x"] && Behind(ts, 4) == 1
    ensures CDefined(ts, 1, ["x"], 0) && Compiled(ts, w, 1, ["x"]).1.Resolved?
    ensures !RootKeeps(ts, 4, ["x"])
  {
    ChainHops(ts, w, NoArgs(), ["x"], 0);
    assert ts.ResolveNestedTypes(4) == ts.ResolveNestedTypes(1);
    assert ParseArrayIdxStr("x").None?;
    assert Resolve(ts, w, NoArgs(), 1, ["x"], 0) == Resolve(ts, w, NoArgs(), 2, ["x"], 0);
  }

  // ---------------------------------------------------------------- array elements

  /**
   Type 0 is an array of four objects of 2^31 bytes, type 1 an array of four integers, and type 4
   struct { enum e x; } with x at offset 4.
   */
  ghost predicate IsTable(ts: Types)
  {
    && ts.WellFormed()
    && ts.node(0) == Array(2, 4) && ts.node(1) == Array(3, 4) && ts.node(2) == Other && ts.node(3) == Int
    && ts.node(4) == Struct([Member("x", 4, 5)]) && ts.node(5) == Enum
    && ts.size(2) == U32 / 2 && ts.size(3) == 4
  }

  function TableNode(t: TypeId): BType
  {
    if t == 0 then Array(2, 4) else if t == 1 then Array(3, 4) else if t == 2 then Other
    else if t == 4 then Struct([Member("x", 4, 5)]) else if t == 5 then Enum else Int
  }

  function Table(): Types
  {
    Types(TableNode, t => if t == 2 then U32 / 2 else 4, t => 0)
  }

  lemma TableExists()
    ensures IsTable(Table())
  {
    var ts := Table();
    RankedBut(ts, 4);
    WellFormedBut(ts, 4, ["x"]);
  }

  lemma TableHops(ts: Types)
    requires IsTable(ts)
    ensures NextHop(ts, 0, "[2]") == Some(Hop(ByArrayIndex, 0, U32, 2))
    ensures NextHop(ts, 1, "[2]") == Some(Hop(ByArrayIndex, 0, 8, 3))
    ensures ParseArrayIdxStr("[2]") == Some(2)
  {
    ParsesExactlyIndices("[2]", 2);
    assert "[2]" == "[" + Zeros(0) + Decimal(2) + "]";
    assert ts.ResolveNestedTypes(2) == 2 && ts.ResolveNestedTypes(3) == 3;
  }

  lemma TableAccepts(ts: Types, w: Wording, t: TypeId)
    requires IsTable(ts) && t in {0, 1}
    ensures Resolve(ts, w, NoArgs(), t, ["[2]"], 0).1.Resolved?
  {
    TableHops(ts);
    var v := ts.ResolveNestedTypes(ts.node(t).elem);
    assert Resolve(ts, w, NoArgs(), t, ["[2]"], 0) == ArrayStep(ts, w, NoArgs(), v, ["[2]"], 0, 2);
  }

  /** The product of size and index is 2^32, which wraps to nothing. */
  lemma IndexProductWraps(ts: Types, w: Wording)
    requires IsTable(ts)
    ensures CDefined(ts, 0, ["[2]"], 0) && Compiled(ts, w, 0, ["[2]"]).1.Resolved?
    ensures LostBytes(ts, 0, ["[2]"], 0) == U32 && !Keeps(ts, 0, ["[2]"], 0)
  {
    TableHops(ts);
    TableAccepts(ts, w, 0);
  }

  /** An integer array element is left as an address. */
  lemma ArrayElementIsNotLoaded(ts: Types, w: Wording)
    requires IsTable(ts)
    ensures CDefined(ts, 1, ["[2]"], 0) && Compiled(ts, w, 1, ["[2]"]).1.Resolved?
    ensures MissingLoad(ts, NextHop(ts, 1, "[2]").value, true) && !Keeps(ts, 1, ["[2]"], 0)
  {
    TableHops(ts);
    TableAccepts(ts, w, 1);
  }

  /** An enumeration is left as an address, too. */
  lemma EnumerationIsNotLoaded(ts: Types, w: Wording)
    requires IsTable(ts)
    ensures CDefined(ts, 4, ["x"], 0) && Compiled(ts, w, 4, ["x"]).1.Resolved?
    ensures MissingLoad(ts, NextHop(ts, 4, "x").value, true) && !Keeps(ts, 4, ["x"], 0)
  {
    assert ts.ResolveNestedTypes(5) == 5;
    assert ts.Find(4, 0, "x") == Some(Found(0, 4, 5));
    assert NextHop(ts, 4, "x") == Some(Hop(ByMember, 0, 4, 5));
    assert Members(ts, w, NoArgs(), 4, 0, None, ["x"], 0).1.Resolved?;
  }

  // ---------------------------------------------------------------- an error text that ends the search

  /** struct { struct { int b; }; struct { int c; }; struct { int b; } a; } */
  ghost predicate IsSiblings(ts: Types)
  {
    && ts.WellFormed()
    && ts.node(0) == Struct([Member("", 0, 1), Member("", 4, 2), Member("a", 8, 1)])
    && ts.node(1) == Struct([Member("b", 0, 3)]) && ts.node(2) == Struct([Member("c", 0, 3)]) && ts.node(3) == Int
  }

  function SiblingsNode(t: TypeId): BType
  {
    if t == 0 then Struct([Member("", 0, 1), Member("", 4, 2), Member("a", 8, 1)])
    else if t == 1 then Struct([Member("b", 0, 3)])
    else if t == 2 then Struct([Member("c", 0, 3)])
    else Int
  }

  function Siblings(): Types
  {
    Types(SiblingsNode, _ => 4, t => if t == 0 then 2 else if t <= 2 then 1 else 0)
  }

  lemma SiblingsOffer(ts: Types, name: string)
    requires ts.Ranked() && ts.node(0) == Struct([Member("", 0, 1), Member("", 4, 2), Member("a", 8, 1)])
    requires ts.node(1) == Struct([Member("b", 0, 3)]) && ts.node(2) == Struct([Member("c", 0, 3)])
    ensures ts.Offer(0, 0, name).Some? <==> name == "b"
    ensures ts.Offer(0, 1, name).Some? <==> name == "c"
    ensures ts.Offer(0, 2, name) == if name == "a" then Some(Found(0, 8, 1)) else None
  {
    assert ts.Find(1, 1, name).None? && ts.Find(2, 1, name).None?;
    assert ts.Find(1, 0, name) == if name == "b" then Some(Found(0, 0, 3)) else None;
    assert ts.Find(2, 0, name) == if name == "c" then Some(Found(0, 0, 3)) else None;
    assert ts.ResolveNestedTypes(1) == 1 && ts.ResolveNestedTypes(2) == 2;
  }

  lemma SiblingsRanked()
    ensures Siblings().Ranked()
  {
    RankedBut(Siblings(), 0);
  }

  lemma SiblingsNames(ts: Types, k: nat, name: string)
    requires ts.Ranked() && ts.node(0) == Struct([Member("", 0, 1), Member("", 4, 2), Member("a", 8, 1)])
    requires ts.node(1) == Struct([Member("b", 0, 3)]) && ts.node(2) == Struct([Member("c", 0, 3)])
    requires k < 3 && ts.Offer(0, k, name).Some?
    ensures name == ["b", "c", "a"][k]
  {
    SiblingsOffer(ts, name);
  }

  lemma SiblingsWellFormed(ts: Types)
    requires ts.Ranked() && ts.node(0) == Struct([Member("", 0, 1), Member("", 4, 2), Member("a", 8, 1)])
    requires ts.node(1) == Struct([Member("b", 0, 3)]) && ts.node(2) == Struct([Member("c", 0, 3)])
    requires forall t :: ts.node(t).Aggregate() && t != 0 ==> OneNamed(ts.node(t))
    ensures ts.WellFormed()
  {
    forall k, name | 0 <= k < 3 && ts.Offer(0, k, name).Some?
      ensures name == ["b", "c", "a"][k]
    {
      SiblingsNames(ts, k, name);
    }
    assert ts.AnonymousOk(1) && ts.AnonymousOk(2);
    WellFormedBut(ts, 0, ["b", "c", "a"]);
  }

  lemma SiblingsExists()
    ensures IsSiblings(Siblings())
  {
    SiblingsRanked();
    SiblingsWellFormed(Siblings());
  }

  /**
   "a.b" is a C path, but it is rejected as soon as the text of the first failure mentions "b",
   as a dump of the first structure's members does.
   */
  lemma WordingStopsSearch(ts: Types, w: Wording)
    requires IsSiblings(ts) && Contains(w(NotFound("a", 1)), "b")
    ensures CDefined(ts, 0, ["a", "b"], 0)
    ensures Compiled(ts, w, 0, ["a", "b"]).1.Failed?
    ensures !NeverGivesUp(ts, w, 0, ["a", "b"], 0)
  {
    var path := ["a", "b"];
    SiblingsHops(ts);
    FirstSiblingFails(ts, w, Place(NoArgs(), 0, 0), path);
    SecondSiblingFails(ts, w, Place(NoArgs(), 0, 0), path);
    AcceptsCPaths(ts, w, NoArgs(), 0, path, 0);
  }

  lemma SiblingsHops(ts: Types)
    requires IsSiblings(ts)
    ensures CDefined(ts, 0, ["a", "b"], 0)
  {
    var path := ["a", "b"];
    SiblingsOffer(ts, "a");
    assert ts.ResolveNestedTypes(1) == 1 && ts.Find(1, 0, "b") == Some(Found(0, 0, 3));
    assert ts.Find(0, 2, "a") == Some(Found(0, 8, 1));
    assert ts.Find(0, 1, "a") == ts.Find(0, 2, "a") && ts.Find(0, 0, "a") == ts.Find(0, 1, "a");
    assert NextHop(ts, 1, "b").Some? && CDefined(ts, 1, path, 1);
  }

  lemma FirstSiblingFails(ts: Types, w: Wording, args: Args, path: seq<string>)
    requires IsSiblings(ts) && path == ["a", "b"]
    ensures ts.ResolveNestedTypes(1) == 1
    ensures Resolve(ts, w, args, 1, path, 0) == (args, Failed(NotFound("a", 1)))
  {
    assert Members(ts, w, args, 1, 1, None, path, 0) == (args, Failed(NotFound("a", 1)));
  }

  lemma SecondSiblingFails(ts: Types, w: Wording, args: Args, path: seq<string>)
    requires IsSiblings(ts) && path == ["a", "b"]
    requires Contains(w(NotFound("a", 1)), "b")
    ensures Members(ts, w, args, 0, 1, Some(NotFound("a", 1)), path, 0).1.Failed?
  {
    var a2 := Place(args, 0, 4);
    assert Members(ts, w, a2, 2, 1, None, path, 0).1.Failed?;
    assert Resolve(ts, w, a2, 2, path, 0).1.Failed?;
  }
}
