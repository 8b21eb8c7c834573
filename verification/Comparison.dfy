/**
 Structural comparison (byterun/compare.c): the recursive meaning of comparison on
 acyclic data, with forwarding blocks skipped, and the order it defines.
 */
module Comparison {
  import opened Mlvalues

  /** An integer, a pointer to a block of the value area, or a pointer outside it. */
  datatype Value = Long(n: int) | Ref(a: nat) | Outside(addr: int)

  /** Doubles are given by their 64 bits. */
  datatype Obj =
    | Str(s: seq<byte>)
    | Dbl(d: nat)
    | Dbls(ds: seq<nat>)
    | Forward(v: Value)
    | Object(oid: int)
    | Abstract
    | Closure
    | Blk(tag: nat, fields: seq<Value>)

  type Heap = map<nat, Obj>

  const LESS := -1
  const GREATER := 1
  const UNORDERED := -0x8000_0000_0000_0000

  /** The result of `compare_val_r`; `Invalid` is raised for functional and abstract
      values. */
  datatype Result = Order(n: int) | Invalid

  function Tag(o: Obj): nat {
    match o
    case Str(_) => STRING_TAG
    case Dbl(_) => DOUBLE_TAG
    case Dbls(_) => DOUBLE_ARRAY_TAG
    case Forward(_) => FORWARD_TAG
    case Object(_) => OBJECT_TAG
    case Abstract => ABSTRACT_TAG
    case Closure => CLOSURE_TAG
    case Blk(tag, _) => tag
  }

  // ----- Acyclic heaps -----

  /** Pointers are even; those outside the value area are to no block of it. */
  ghost predicate Good(h: Heap, rank: map<nat, nat>, v: Value) {
    && (v.Ref? ==> v.a % 2 == 0 && v.a in h && v.a in rank)
    && (v.Outside? ==> v.addr % 2 == 0 && (v.addr >= 0 ==> v.addr !in h))
  }

  ghost predicate Below(h: Heap, rank: map<nat, nat>, v: Value, n: nat) {
    Good(h, rank, v) && (v.Ref? ==> rank[v.a] < n)
  }

  ghost predicate Ranked1(h: Heap, rank: map<nat, nat>, a: nat) {
    a in h ==>
      && a in rank
      && (h[a].Forward? ==> Below(h, rank, h[a].v, rank[a]))
      && (h[a].Blk? ==> AllBelow(h, rank, h[a].fields, rank[a]))
      && (h[a].Blk? ==>
          && h[a].tag < FORWARD_TAG && h[a].tag != CLOSURE_TAG && h[a].tag != OBJECT_TAG
          && h[a].tag != INFIX_TAG)
  }

  /** Pointers go to blocks of lower rank. */
  ghost predicate Ranked(h: Heap, rank: map<nat, nat>) {
    forall a {:trigger Ranked1(h, rank, a)} :: Ranked1(h, rank, a)
  }

  ghost function Rank(rank: map<nat, nat>, v: Value): nat {
    if v.Ref? && v.a in rank then rank[v.a] + 1 else 0
  }

  ghost function MaxRank(rank: map<nat, nat>, vs: seq<Value>): nat {
    if vs == [] then 0
    else if Rank(rank, vs[0]) > MaxRank(rank, vs[1..]) then Rank(rank, vs[0])
    else MaxRank(rank, vs[1..])
  }

  ghost predicate AllBelow(h: Heap, rank: map<nat, nat>, vs: seq<Value>, n: nat) {
    forall i :: 0 <= i < |vs| ==> Below(h, rank, vs[i], n)
  }

  lemma {:induction false} MaxRankBelow(h: Heap, rank: map<nat, nat>, vs: seq<Value>, n: nat)
    requires AllBelow(h, rank, vs, n)
    ensures MaxRank(rank, vs) <= n
  {
    if vs != [] {
      MaxRankBelow(h, rank, vs[1..], n);
    }
  }

  ghost predicate AllGood(h: Heap, rank: map<nat, nat>, vs: seq<Value>) {
    forall i :: 0 <= i < |vs| ==> Good(h, rank, vs[i])
  }

  // ----- Doubles -----

  /** Sign and magnitude of the bits of a double. */
  function Magnitude(d: nat): nat { d % 0x8000_0000_0000_0000 }

  predicate IsNan(d: nat) { Magnitude(d) > 0x7FF0_0000_0000_0000 }

  /** Doubles other than NaN are ordered by this number; both zeros have 0. */
  function Key(d: nat): int {
    if d / 0x8000_0000_0000_0000 % 2 == 0 then Magnitude(d) else 0 - Magnitude(d)
  }

  predicate DoubleLess(d1: nat, d2: nat) { !IsNan(d1) && !IsNan(d2) && Key(d1) < Key(d2) }

  /** `d1 == d2` as C evaluates it. */
  predicate DoubleEq(d1: nat, d2: nat) { !IsNan(d1) && !IsNan(d2) && Key(d1) == Key(d2) }

  function CompareDoubles(d1: nat, d2: nat, total: bool): int {
    if DoubleLess(d1, d2) then LESS
    else if DoubleLess(d2, d1) then GREATER
    else if !DoubleEq(d1, d2) then
      if !total then UNORDERED
      else if DoubleEq(d1, d1) then GREATER
      else if DoubleEq(d2, d2) then LESS
      else 0
    else 0
  }

  function CompareDoubleArrays(a: seq<nat>, b: seq<nat>, total: bool): int
    requires |a| == |b|
  {
    if a == [] then 0
    else
      var c := CompareDoubles(a[0], b[0], total);
      if c != 0 then c else CompareDoubleArrays(a[1..], b[1..], total)
  }

  // ----- Strings -----

  /** `memcmp` on the common length, then the lengths. */
  function CompareStrings(a: seq<byte>, b: seq<byte>): int
    decreases |a|
  {
    if a == [] || b == [] then |a| - |b|
    else if a[0] < b[0] then LESS
    else if a[0] > b[0] then GREATER
    else CompareStrings(a[1..], b[1..])
  }

  // ----- Values -----

  /** The recursive meaning of `compare_val_r`. */
  ghost function Compare(h: Heap, rank: map<nat, nat>, v1: Value, v2: Value, total: bool): Result
    requires Ranked(h, rank) && Good(h, rank, v1) && Good(h, rank, v2)
    decreases Rank(rank, v1) + Rank(rank, v2), 0, 0
  {
    if v1 == v2 && total then Order(0)
    else if v1.Long? && v2.Long? then Order(v1.n - v2.n)
    else if v1.Long? then
      if v2.Ref? && h[v2.a].Forward? then
        assert Ranked1(h, rank, v2.a);
        Compare(h, rank, v1, h[v2.a].v, total)
      else Order(LESS)
    else if v2.Long? then
      if v1.Ref? && h[v1.a].Forward? then
        assert Ranked1(h, rank, v1.a);
        Compare(h, rank, h[v1.a].v, v2, total)
      else Order(GREATER)
    else if v1.Outside? || v2.Outside? then
      if v1 == v2 then Order(0) else Order(Address(v1) / 2 - Address(v2) / 2)
    else
      var o1, o2 := h[v1.a], h[v2.a];
      assert Ranked1(h, rank, v1.a) && Ranked1(h, rank, v2.a);
      if o1.Forward? then Compare(h, rank, o1.v, v2, total)
      else if o2.Forward? then Compare(h, rank, v1, o2.v, total)
      else if Tag(o1) != Tag(o2) then Order(Tag(o1) - Tag(o2))
      else if o1.Blk? && o2.Blk? then
        if |o1.fields| != |o2.fields| then Order(|o1.fields| - |o2.fields|)
        else
          MaxRankBelow(h, rank, o1.fields, rank[v1.a]);
          MaxRankBelow(h, rank, o2.fields, rank[v2.a]);
          CompareAll(h, rank, o1.fields, o2.fields, total)
      else CompareData(v1, v2, o1, o2, total)
  }

  function Address(v: Value): int {
    match v
    case Outside(addr) => addr
    case Ref(a) => a
    case Long(n) => 2 * n + 1
  }

  /** Blocks without fields to scan, of the same tag. */
  function CompareData(v1: Value, v2: Value, o1: Obj, o2: Obj, total: bool): Result {
    match (o1, o2)
    case (Str(a), Str(b)) => if v1 == v2 then Order(0) else Order(CompareStrings(a, b))
    case (Dbl(a), Dbl(b)) => Order(CompareDoubles(a, b, total))
    case (Dbls(a), Dbls(b)) => if |a| != |b| then Order(|a| - |b|) else Order(CompareDoubleArrays(a, b, total))
    case (Object(a), Object(b)) => Order(a - b)
    case _ => Invalid
  }

  /** Lexicographic comparison of two lists of values of the same length. */
  ghost function CompareAll(h: Heap, rank: map<nat, nat>, f1: seq<Value>, f2: seq<Value>, total: bool): Result
    requires Ranked(h, rank) && |f1| == |f2| && AllGood(h, rank, f1) && AllGood(h, rank, f2)
    decreases MaxRank(rank, f1) + MaxRank(rank, f2), 1, |f1|
  {
    if f1 == [] then Order(0)
    else Then(Compare(h, rank, f1[0], f2[0], total), CompareAll(h, rank, f1[1..], f2[1..], total))
  }

  /** The first result that is not equality. */
  function Then(r1: Result, r2: Result): Result {
    if r1 == Order(0) then r2 else r1
  }

  lemma {:induction false} CompareConcat(h: Heap, rank: map<nat, nat>, f1: seq<Value>, g1: seq<Value>, f2: seq<Value>,
                                         g2: seq<Value>, total: bool)
    requires Ranked(h, rank) && |f1| == |f2| && |g1| == |g2|
    requires AllGood(h, rank, f1) && AllGood(h, rank, f2) && AllGood(h, rank, g1) && AllGood(h, rank, g2)
    ensures AllGood(h, rank, f1 + g1) && AllGood(h, rank, f2 + g2)
    ensures CompareAll(h, rank, f1 + g1, f2 + g2, total) ==
            Then(CompareAll(h, rank, f1, f2, total), CompareAll(h, rank, g1, g2, total))
    decreases |f1|
  {
    if f1 == [] {
      assert f1 + g1 == g1 && f2 + g2 == g2;
    } else {
      assert (f1 + g1)[1..] == f1[1..] + g1 && (f2 + g2)[1..] == f2[1..] + g2;
      CompareConcat(h, rank, f1[1..], g1, f2[1..], g2, total);
    }
  }

  /** The number of steps that comparing against `v` may take. */
  ghost function Size(h: Heap, rank: map<nat, nat>, v: Value): nat
    requires Ranked(h, rank) && Good(h, rank, v)
    decreases Rank(rank, v), 0, 0
  {
    if !v.Ref? then 1
    else
      assert Ranked1(h, rank, v.a);
      match h[v.a]
      case Forward(w) => 1 + Size(h, rank, w)
      case Blk(_, fields) =>
        MaxRankBelow(h, rank, fields, rank[v.a]);
        1 + Sizes(h, rank, fields)
      case _ => 1
  }

  ghost function Sizes(h: Heap, rank: map<nat, nat>, vs: seq<Value>): nat
    requires Ranked(h, rank) && AllGood(h, rank, vs)
    decreases MaxRank(rank, vs), 1, |vs|
  {
    if vs == [] then 0 else Size(h, rank, vs[0]) + Sizes(h, rank, vs[1..])
  }

  lemma {:induction false} SizesConcat(h: Heap, rank: map<nat, nat>, f: seq<Value>, g: seq<Value>)
    requires Ranked(h, rank) && AllGood(h, rank, f) && AllGood(h, rank, g)
    ensures AllGood(h, rank, f + g) && Sizes(h, rank, f + g) == Sizes(h, rank, f) + Sizes(h, rank, g)
    decreases |f|
  {
    if f == [] {
      assert f + g == g;
    } else {
      assert (f + g)[1..] == f[1..] + g;
      SizesConcat(h, rank, f[1..], g);
    }
  }

  /** How deep the blocks of a value are nested. */
  ghost function Height(h: Heap, rank: map<nat, nat>, v: Value): nat
    requires Ranked(h, rank) && Good(h, rank, v)
    decreases Rank(rank, v), 0, 0
  {
    if !v.Ref? then 0
    else
      assert Ranked1(h, rank, v.a);
      match h[v.a]
      case Forward(w) => Height(h, rank, w)
      case Blk(_, fields) =>
        MaxRankBelow(h, rank, fields, rank[v.a]);
        1 + Heights(h, rank, fields)
      case _ => 0
  }

  ghost function Heights(h: Heap, rank: map<nat, nat>, vs: seq<Value>): nat
    requires Ranked(h, rank) && AllGood(h, rank, vs)
    decreases MaxRank(rank, vs), 1, |vs|
  {
    if vs == [] then 0
    else if Height(h, rank, vs[0]) > Heights(h, rank, vs[1..]) then Height(h, rank, vs[0])
    else Heights(h, rank, vs[1..])
  }

  lemma {:induction false} HeightsMax(h: Heap, rank: map<nat, nat>, vs: seq<Value>, i: nat)
    requires Ranked(h, rank) && AllGood(h, rank, vs) && i < |vs|
    ensures Height(h, rank, vs[i]) <= Heights(h, rank, vs)
    decreases |vs|
  {
    if i > 0 {
      HeightsMax(h, rank, vs[1..], i - 1);
    }
  }
}
