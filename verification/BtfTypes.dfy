/**
 Type graphs and C access paths: what `a.b[3].c` means in C.

 Types refer to each other by id, so cycles through pointers are allowed.  `rank` says that
 qualifiers, pointers and anonymous members nest finitely, which every C type does: a cycle
 always passes through a named member.
 */
module BtfTypes {
  import opened Common

  type TypeId = nat

  /** `offset` is in bytes; an anonymous struct or union member has the empty name. */
  datatype Member = Member(name: string, offset: nat, ty: TypeId)

  datatype BType =
    | Struct(members: seq<Member>)
    | Union(members: seq<Member>)
    | Pointer(target: TypeId)
    | Array(elem: TypeId, nelems: nat)
    | Restrict(inner: TypeId)
    | Volatile(inner: TypeId)
    | Const(inner: TypeId)
    | Typedef(inner: TypeId)
    | Int
    | Enum
    | Float
    | Other
  {
    predicate Aggregate() { Struct? || Union? }
    predicate Qualifier() { Restrict? || Volatile? || Const? || Typedef? }
  }

  datatype Types = Types(node: TypeId -> BType, size: TypeId -> nat, rank: TypeId -> nat)
  {
    ghost predicate Ranked() {
      forall t ::
        && (node(t).Qualifier() ==> rank(node(t).inner) < rank(t))
        && (node(t).Pointer? ==> rank(node(t).target) < rank(t))
        && (node(t).Aggregate() ==>
              forall m :: m in node(t).members && m.name == "" ==> rank(m.ty) < rank(t))
    }

    /** Strips qualifiers and typedefs. */
    function ResolveNestedTypes(t: TypeId): (u: TypeId)
      requires Ranked()
      ensures !node(u).Qualifier() && rank(u) <= rank(t)
      decreases rank(t)
    {
      if node(t).Qualifier() then ResolveNestedTypes(node(t).inner) else t
    }

    /** What member `k` of aggregate `t` offers under `name`, anonymous members included. */
    function Offer(t: TypeId, k: nat, name: string): Option<Found>
      requires Ranked() && node(t).Aggregate() && k < |node(t).members|
      decreases rank(t), 0
    {
      var m := node(t).members[k];
      if m.name == "" then
        var u := ResolveNestedTypes(m.ty);
        var inner := if node(u).Aggregate() then Find(u, 0, name) else None;
        if inner.Some? then Some(inner.value.(anon := m.offset + inner.value.anon)) else None
      else if m.name == name then Some(Found(0, m.offset, m.ty))
      else None
    }

    /** C's member lookup in aggregate `t`, from member `k` on. */
    function Find(t: TypeId, k: nat, name: string): Option<Found>
      requires Ranked() && node(t).Aggregate() && k <= |node(t).members|
      decreases rank(t), 1 + |node(t).members| - k
    {
      if k == |node(t).members| then None
      else if Offer(t, k, name).Some? then Offer(t, k, name)
      else Find(t, k + 1, name)
    }

    /** A name is unique among the members of an aggregate, counting those of its anonymous members. */
    ghost predicate UniqueNames()
      requires Ranked()
    {
      forall t, name, j, k ::
        node(t).Aggregate() && 0 <= j < k < |node(t).members| && Offer(t, j, name).Some?
        ==> Offer(t, k, name).None?
    }

    /** What is anonymous is neither a pointer nor an array. */
    ghost predicate PlainAnonymous()
      requires Ranked()
    {
      forall t, k ::
        node(t).Aggregate() && 0 <= k < |node(t).members| && node(t).members[k].name == ""
        ==> AnonymousOk(node(t).members[k].ty)
    }

    /** C's own rules on types. */
    ghost predicate WellFormed() { Ranked() && UniqueNames() && PlainAnonymous() }

    /** What fits in a word is loaded at the end of a path; of anything else the address is taken. */
    predicate Scalar(t: TypeId) { node(t).Pointer? || node(t).Int? || node(t).Enum? || node(t).Float? }

    predicate AnonymousOk(t: TypeId)
      requires Ranked()
    {
      var u := ResolveNestedTypes(t);
      !node(u).Pointer? && !node(u).Array?
    }
  }

  /** Stripping goes down a chain of qualifiers and typedefs, and stops at the first type that is neither. */
  lemma {:induction false} StripsQualifiers(ts: Types, chain: seq<TypeId>)
    requires ts.Ranked() && chain != []
    requires forall i :: 0 <= i < |chain| - 1 ==>
               ts.node(chain[i]) in {Restrict(chain[i + 1]), Volatile(chain[i + 1]), Const(chain[i + 1]),
                                     Typedef(chain[i + 1])}
    requires var b := ts.node(chain[|chain| - 1]); !b.Restrict? && !b.Volatile? && !b.Const? && !b.Typedef?
    ensures ts.ResolveNestedTypes(chain[0]) == chain[|chain| - 1]
    decreases |chain|
  {
    if |chain| > 1 {
      StripsQualifiers(ts, chain[1..]);
      assert ts.node(chain[0]).inner == chain[1];
    }
  }

  /** A member found by name: the offsets of the anonymous members around it, and its own. */
  datatype Found = Found(anon: nat, offset: nat, ty: TypeId)

  // ---------------------------------------------------------------- array indices in a path

  predicate IsDigit(c: char) { '0' <= c <= '9' }

  function DigitValue(c: char): nat
    requires IsDigit(c)
  {
    c as int - '0' as int
  }

  function DigitsValue(s: string): nat
    requires forall c :: c in s ==> IsDigit(c)
  {
    if s == "" then 0 else 10 * DigitsValue(s[..|s| - 1]) + DigitValue(s[|s| - 1])
  }

  /** "[n]" with n an unsigned 32-bit number. */
  function ParseArrayIdxStr(s: string): (r: Option<nat>)
    ensures r.Some? ==> r.value < U32
  {
    if |s| >= 3 && s[0] == '[' && s[|s| - 1] == ']'
       && (forall c :: c in s[1..|s| - 1] ==> IsDigit(c))
       && DigitsValue(s[1..|s| - 1]) < U32
    then Some(DigitsValue(s[1..|s| - 1]))
    else None
  }

  function Decimal(n: nat): string
  {
    var digit := [('0' as int + n % 10) as char];
    if n < 10 then digit else Decimal(n / 10) + digit
  }

  function Zeros(k: nat): string
  {
    if k == 0 then "" else "0" + Zeros(k - 1)
  }

  predicate AllDigits(s: string) { forall c :: c in s ==> IsDigit(c) }

  lemma DigitsAppend(s: string, c: char)
    requires AllDigits(s) && IsDigit(c)
    ensures AllDigits(s + [c]) && DigitsValue(s + [c]) == 10 * DigitsValue(s) + DigitValue(c)
  {
    assert (s + [c])[..|s|] == s;
  }

  /** A number written in decimal, after any zeros, reads as that number. */
  lemma {:induction false} DecimalValue(k: nat, n: nat)
    ensures AllDigits(Zeros(k) + Decimal(n)) && DigitsValue(Zeros(k) + Decimal(n)) == n
    decreases n
  {
    ZerosValue(k);
    var digit := ('0' as int + n % 10) as char;
    if n < 10 {
      DigitsAppend(Zeros(k), digit);
    } else {
      DecimalValue(k, n / 10);
      DigitsAppend(Zeros(k) + Decimal(n / 10), digit);
      assert Zeros(k) + Decimal(n) == Zeros(k) + Decimal(n / 10) + [digit];
    }
  }

  lemma {:induction false} ZerosValue(k: nat)
    ensures AllDigits(Zeros(k)) && DigitsValue(Zeros(k)) == 0
  {
    if k > 0 {
      ZerosValue(k - 1);
      ZerosTurn(k - 1);
      DigitsAppend(Zeros(k - 1), '0');
    }
  }

  lemma {:induction false} ZerosTurn(k: nat)
    ensures Zeros(k + 1) == Zeros(k) + "0"
  {
    if k > 0 {
      ZerosTurn(k - 1);
    }
  }

  lemma DecimalAppend(v: nat, c: char)
    requires IsDigit(c)
    ensures Decimal(10 * v + DigitValue(c)) == if v == 0 then [c] else Decimal(v) + [c]
  {
    var n := 10 * v + DigitValue(c);
    assert n % 10 == DigitValue(c) && n / 10 == v;
    assert ('0' as int + n % 10) as char == c;
  }

  /** One more digit: a zero before it becomes a leading one. */
  lemma FormAppend(init: string, k: nat, v: nat, c: char)
    requires IsDigit(c) && init == Zeros(k) + Decimal(v)
    ensures init + [c] == Zeros(if v == 0 then k + 1 else k) + Decimal(10 * v + DigitValue(c))
  {
    DecimalAppend(v, c);
    if v == 0 {
      ZerosTurn(k);
      assert Decimal(0) == "0";
    }
  }

  lemma FormOne(s: string, c: char)
    requires IsDigit(c) && s == "" + [c]
    ensures s == Zeros(0) + Decimal(10 * 0 + DigitValue(c))
  {
    DecimalAppend(0, c);
  }

  /** Digits are some zeros and the decimal form of their value. */
  lemma {:induction false} DigitsForm(s: string) returns (k: nat)
    requires s != "" && AllDigits(s)
    ensures s == Zeros(k) + Decimal(DigitsValue(s))
    decreases |s|
  {
    var init, c := s[..|s| - 1], s[|s| - 1];
    assert s == init + [c];
    DigitsAppend(init, c);
    if init == "" {
      FormOne(s, c);
      k := 0;
    } else {
      k := DigitsForm(init);
      FormAppend(init, k, DigitsValue(init), c);
      k := if DigitsValue(init) == 0 then k + 1 else k;
    }
  }

  lemma BracketedParses(digits: string)
    requires digits != "" && AllDigits(digits)
    ensures ParseArrayIdxStr("[" + digits + "]")
            == if DigitsValue(digits) < U32 then Some(DigitsValue(digits)) else None
  {
    var s := "[" + digits + "]";
    assert s[1..|s| - 1] == digits;
  }

  lemma ParsesBracketed(s: string) returns (digits: string)
    requires ParseArrayIdxStr(s).Some?
    ensures digits != "" && AllDigits(digits) && s == "[" + digits + "]"
  {
    digits := s[1..|s| - 1];
  }

  lemma DecimalNonEmpty(n: nat)
    ensures Decimal(n) != ""
  {
  }

  lemma IndexParses(s: string, n: nat, k: nat)
    requires n < U32 && s == "[" + Zeros(k) + Decimal(n) + "]"
    ensures ParseArrayIdxStr(s) == Some(n)
  {
    var digits := Zeros(k) + Decimal(n);
    DecimalValue(k, n);
    DecimalNonEmpty(n);
    assert s == "[" + digits + "]";
    BracketedParses(digits);
  }

  /** An index is accepted exactly when it is a 32-bit number in brackets, leading zeros allowed. */
  lemma ParsesExactlyIndices(s: string, n: nat)
    ensures ParseArrayIdxStr(s) == Some(n)
            <==> n < U32 && exists k :: s == "[" + Zeros(k) + Decimal(n) + "]"
  {
    if ParseArrayIdxStr(s) == Some(n) {
      var digits := ParsesBracketed(s);
      BracketedParses(digits);
      var k := DigitsForm(digits);
      assert s == "[" + Zeros(k) + Decimal(n) + "]";
    }
    if k :| n < U32 && s == "[" + Zeros(k) + Decimal(n) + "]" {
      IndexParses(s, n, k);
    }
  }

  // ---------------------------------------------------------------- the C meaning of a path

  datatype How = ByMember | ByPointerIndex | ByArrayIndex

  /** What one path element does: it moves by `anon + offset` bytes to an object of type `ty`. */
  datatype Hop = Hop(how: How, anon: nat, offset: nat, ty: TypeId)

  function MemberHop(ts: Types, t: TypeId, name: string): Option<Hop>
    requires ts.Ranked() && ts.node(t).Aggregate()
  {
    match ts.Find(t, 0, name)
    case None => None
    case Some(f) => Some(Hop(ByMember, f.anon, f.offset, ts.ResolveNestedTypes(f.ty)))
  }

  /** C's reading of one path element: a member, through one pointer if need be, or an index. */
  function NextHop(ts: Types, t: TypeId, element: string): Option<Hop>
    requires ts.Ranked()
  {
    var idx := ParseArrayIdxStr(element);
    match ts.node(t)
    case Struct(_) => MemberHop(ts, t, element)
    case Union(_) => MemberHop(ts, t, element)
    case Pointer(u) =>
      var v := ts.ResolveNestedTypes(u);
      if idx.Some? then Some(Hop(ByPointerIndex, 0, ts.size(v) * idx.value, v))
      else if ts.node(v).Aggregate() then MemberHop(ts, v, element)
      else None
    case Array(e, n) =>
      var v := ts.ResolveNestedTypes(e);
      if idx.Some? && idx.value < n then Some(Hop(ByArrayIndex, 0, ts.size(v) * idx.value, v))
      else None
    case _ => None
  }

  predicate CDefined(ts: Types, t: TypeId, path: seq<string>, i: nat)
    requires ts.Ranked() && i < |path|
    decreases |path| - i
  {
    var h := NextHop(ts, t, path[i]);
    h.Some? && (i + 1 < |path| ==> CDefined(ts, h.value.ty, path, i + 1))
  }

  type Memory = int -> int

  /**
   The value of the access path.  `base` is the address of the object reached so far or, when its
   type is a pointer, the pointer's value.  What happens at the end depends on the type alone.
   */
  function CWalk(ts: Types, mem: Memory, base: int, t: TypeId, path: seq<string>, i: nat): int
    requires ts.Ranked() && i < |path| && CDefined(ts, t, path, i)
    decreases |path| - i
  {
    var h := NextHop(ts, t, path[i]).value;
    var addr := base + h.anon + h.offset;
    if i + 1 == |path| then if ts.Scalar(h.ty) then mem(addr) else addr
    else CWalk(ts, mem, if ts.node(h.ty).Pointer? then mem(addr) else addr, h.ty, path, i + 1)
  }
}
