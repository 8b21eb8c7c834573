/**
 What structural comparison means: data without functional parts is compared as
 the trees it stands for, and total comparison is a total order on trees, with NaN
 below all other floats and equal to itself.
 */
module CompareOrder {
  import opened Mlvalues
  import opened Comparison

  datatype Tree =
    | TLong(n: int)
    | TStr(s: seq<byte>)
    | TDbl(d: nat)
    | TDbls(ds: seq<nat>)
    | TObj(oid: int)
    | TBlk(tag: nat, kids: seq<Tree>)

  // ----- The order on doubles -----

  /** NaN is below all numbers. */
  function TotalKey(d: nat): int {
    if IsNan(d) then -0x8000_0000_0000_0001 else Key(d)
  }

  lemma DoubleOrder(d1: nat, d2: nat)
    ensures CompareDoubles(d1, d2, true) ==
            (if TotalKey(d1) < TotalKey(d2) then LESS else if TotalKey(d1) > TotalKey(d2) then GREATER else 0)
    ensures !IsNan(d1) && !IsNan(d2) ==> CompareDoubles(d1, d2, false) == CompareDoubles(d1, d2, true)
    ensures IsNan(d1) || IsNan(d2) ==> CompareDoubles(d1, d2, false) == UNORDERED
  {
  }

  /** The sign of a comparison of three. */
  predicate Chains(x: int, y: int, z: int) {
    (x <= 0 && y <= 0 ==> z <= 0) && (x <= 0 && y <= 0 && (x < 0 || y < 0) ==> z < 0)
  }

  lemma {:induction false} DoubleArrayOrder(a: seq<nat>, b: seq<nat>, c: seq<nat>)
    requires |a| == |b| == |c|
    ensures CompareDoubleArrays(a, b, true) == -CompareDoubleArrays(b, a, true)
    ensures CompareDoubleArrays(a, a, true) == 0
    ensures Chains(CompareDoubleArrays(a, b, true), CompareDoubleArrays(b, c, true), CompareDoubleArrays(a, c, true))
    ensures CompareDoubleArrays(a, b, true) in {LESS, 0, GREATER}
  {
    if a != [] {
      DoubleOrder(a[0], b[0]);
      DoubleOrder(b[0], a[0]);
      DoubleOrder(a[0], a[0]);
      DoubleOrder(b[0], c[0]);
      DoubleOrder(a[0], c[0]);
      DoubleArrayOrder(a[1..], b[1..], c[1..]);
    }
  }

  // ----- The order on strings -----

  lemma {:induction false} StringAntisymmetric(a: seq<byte>, b: seq<byte>)
    ensures CompareStrings(a, b) == -CompareStrings(b, a)
    ensures CompareStrings(a, b) == 0 <==> a == b
    decreases |a|
  {
    if a != [] && b != [] {
      StringAntisymmetric(a[1..], b[1..]);
      assert a == [a[0]] + a[1..] && b == [b[0]] + b[1..];
    }
  }

  lemma {:induction false} StringTransitive(a: seq<byte>, b: seq<byte>, c: seq<byte>)
    ensures Chains(CompareStrings(a, b), CompareStrings(b, c), CompareStrings(a, c))
    decreases |a|
  {
    if a != [] && b != [] && c != [] {
      StringTransitive(a[1..], b[1..], c[1..]);
    }
  }

  // ----- The order on trees -----

  function TreeTag(t: Tree): nat
    requires !t.TLong?
  {
    match t
    case TStr(_) => STRING_TAG
    case TDbl(_) => DOUBLE_TAG
    case TDbls(_) => DOUBLE_ARRAY_TAG
    case TObj(_) => OBJECT_TAG
    case TBlk(tag, _) => tag
  }

  /** The tags of blocks with fields are none of the special ones. */
  ghost predicate TreeOk(t: Tree) {
    t.TBlk? ==> t.tag < FORWARD_TAG && t.tag != OBJECT_TAG && forall i :: 0 <= i < |t.kids| ==> TreeOk(t.kids[i])
  }

  function CompareTrees(a: Tree, b: Tree, total: bool): int
    decreases a, 1
  {
    if a.TLong? && b.TLong? then a.n - b.n
    else if a.TLong? then LESS
    else if b.TLong? then GREATER
    else if TreeTag(a) != TreeTag(b) then TreeTag(a) - TreeTag(b)
    else
      match (a, b)
      case (TStr(s), TStr(t)) => CompareStrings(s, t)
      case (TDbl(d), TDbl(e)) => CompareDoubles(d, e, total)
      case (TDbls(d), TDbls(e)) => if |d| != |e| then |d| - |e| else CompareDoubleArrays(d, e, total)
      case (TObj(i), TObj(j)) => i - j
      case (TBlk(_, k), TBlk(_, l)) => if |k| != |l| then |k| - |l| else CompareKids(k, l, total)
      case _ => 0
  }

  function CompareKids(a: seq<Tree>, b: seq<Tree>, total: bool): int
    requires |a| == |b|
    decreases a, 0
  {
    if a == [] then 0
    else
      var c := CompareTrees(a[0], b[0], total);
      if c != 0 then c else CompareKids(a[1..], b[1..], total)
  }

  ghost predicate KidsOk(k: seq<Tree>) {
    forall i :: 0 <= i < |k| ==> TreeOk(k[i])
  }

  /** Comparison the other way round gives the opposite. */
  lemma {:induction false} Antisymmetric(a: Tree, b: Tree)
    requires TreeOk(a) && TreeOk(b)
    ensures CompareTrees(a, b, true) == -CompareTrees(b, a, true)
    decreases a, 1
  {
    match (a, b)
    case (TStr(s), TStr(t)) => StringAntisymmetric(s, t);
    case (TDbl(d), TDbl(e)) =>
      DoubleOrder(d, e);
      DoubleOrder(e, d);
    case (TDbls(d), TDbls(e)) =>
      if |d| == |e| {
        DoubleArrayOrder(d, e, e);
      }
    case (TBlk(_, k), TBlk(_, l)) =>
      if |k| == |l| {
        KidsAntisymmetric(k, l);
      }
    case _ =>
  }

  lemma {:induction false} KidsAntisymmetric(a: seq<Tree>, b: seq<Tree>)
    requires |a| == |b| && KidsOk(a) && KidsOk(b)
    ensures CompareKids(a, b, true) == -CompareKids(b, a, true)
    decreases a, 0
  {
    if a != [] {
      Antisymmetric(a[0], b[0]);
      KidsAntisymmetric(a[1..], b[1..]);
    }
  }

  lemma Reflexive(a: Tree)
    requires TreeOk(a)
    ensures CompareTrees(a, a, true) == 0
  {
    Antisymmetric(a, a);
  }

  lemma {:induction false} Transitive(a: Tree, b: Tree, c: Tree)
    requires TreeOk(a) && TreeOk(b) && TreeOk(c)
    ensures Chains(CompareTrees(a, b, true), CompareTrees(b, c, true), CompareTrees(a, c, true))
    decreases a, 1
  {
    if !a.TLong? && !b.TLong? && !c.TLong? && TreeTag(a) == TreeTag(b) == TreeTag(c) {
      match a
      case TStr(s) => StringTransitive(s, b.s, c.s);
      case TDbl(d) =>
        DoubleOrder(d, b.d);
        DoubleOrder(b.d, c.d);
        DoubleOrder(d, c.d);
      case TDbls(d) =>
        if |d| == |b.ds| == |c.ds| {
          DoubleArrayOrder(d, b.ds, c.ds);
        }
      case TObj(_) =>
      case TBlk(_, k) =>
        if |k| == |b.kids| == |c.kids| {
          KidsTransitive(k, b.kids, c.kids);
        }
    }
  }

  lemma {:induction false} KidsTransitive(a: seq<Tree>, b: seq<Tree>, c: seq<Tree>)
    requires |a| == |b| == |c| && KidsOk(a) && KidsOk(b) && KidsOk(c)
    ensures Chains(CompareKids(a, b, true), CompareKids(b, c, true), CompareKids(a, c, true))
    decreases a, 0
  {
    if a != [] {
      Transitive(a[0], b[0], c[0]);
      KidsTransitive(a[1..], b[1..], c[1..]);
    }
  }

  // ----- What comparison 0 means -----

  /** The same tree, but for the bits of NaNs and the sign of zeros. */
  predicate Same(a: Tree, b: Tree)
    decreases a
  {
    match (a, b)
    case (TLong(m), TLong(n)) => m == n
    case (TStr(s), TStr(t)) => s == t
    case (TDbl(d), TDbl(e)) => TotalKey(d) == TotalKey(e)
    case (TDbls(d), TDbls(e)) => |d| == |e| && forall i :: 0 <= i < |d| ==> TotalKey(d[i]) == TotalKey(e[i])
    case (TObj(i), TObj(j)) => i == j
    case (TBlk(s, k), TBlk(t, l)) => s == t && |k| == |l| && forall i :: 0 <= i < |k| ==> Same(k[i], l[i])
    case _ => false
  }

  lemma {:induction false} DoubleArraysSame(a: seq<nat>, b: seq<nat>)
    requires |a| == |b|
    ensures CompareDoubleArrays(a, b, true) == 0 <==> forall i :: 0 <= i < |a| ==> TotalKey(a[i]) == TotalKey(b[i])
  {
    if a != [] {
      DoubleOrder(a[0], b[0]);
      DoubleArraysSame(a[1..], b[1..]);
      if CompareDoubleArrays(a, b, true) == 0 {
        forall i | 0 <= i < |a| ensures TotalKey(a[i]) == TotalKey(b[i]) {
          assert i > 0 ==> a[i] == a[1..][i - 1] && b[i] == b[1..][i - 1];
        }
      }
    }
  }

  lemma {:induction false} ZeroIsSame(a: Tree, b: Tree)
    requires TreeOk(a) && TreeOk(b)
    ensures CompareTrees(a, b, true) == 0 <==> Same(a, b)
    decreases a, 1
  {
    match (a, b)
    case (TStr(s), TStr(t)) => StringAntisymmetric(s, t);
    case (TDbl(d), TDbl(e)) => DoubleOrder(d, e);
    case (TDbls(d), TDbls(e)) =>
      if |d| == |e| {
        DoubleArraysSame(d, e);
      }
    case (TBlk(_, k), TBlk(_, l)) =>
      if |k| == |l| {
        KidsSame(k, l);
      }
    case _ =>
  }

  lemma {:induction false} KidsSame(a: seq<Tree>, b: seq<Tree>)
    requires |a| == |b| && KidsOk(a) && KidsOk(b)
    ensures CompareKids(a, b, true) == 0 <==> forall i :: 0 <= i < |a| ==> Same(a[i], b[i])
    decreases a, 0
  {
    if a != [] {
      ZeroIsSame(a[0], b[0]);
      KidsSame(a[1..], b[1..]);
      if CompareKids(a, b, true) == 0 {
        forall i | 0 <= i < |a| ensures Same(a[i], b[i]) {
          assert i > 0 ==> a[i] == a[1..][i - 1] && b[i] == b[1..][i - 1];
        }
      }
    }
  }

  // ----- Comparison that keeps NaN apart -----

  ghost predicate NoNan(t: Tree) {
    match t
    case TDbl(d) => !IsNan(d)
    case TDbls(ds) => forall i :: 0 <= i < |ds| ==> !IsNan(ds[i])
    case TBlk(_, kids) => forall i :: 0 <= i < |kids| ==> NoNan(kids[i])
    case _ => true
  }

  lemma {:induction false} PartialDoubles(a: seq<nat>, b: seq<nat>)
    requires |a| == |b|
    ensures CompareDoubleArrays(a, b, false) in {UNORDERED, CompareDoubleArrays(a, b, true)}
    ensures (forall i :: 0 <= i < |a| ==> !IsNan(a[i]) && !IsNan(b[i])) ==>
            CompareDoubleArrays(a, b, false) == CompareDoubleArrays(a, b, true)
    ensures CompareDoubleArrays(a, b, false) == 0 ==> forall i :: 0 <= i < |a| ==> !IsNan(a[i])
  {
    if a != [] {
      DoubleOrder(a[0], b[0]);
      PartialDoubles(a[1..], b[1..]);
      if CompareDoubleArrays(a, b, false) == 0 {
        forall i | 0 <= i < |a| ensures !IsNan(a[i]) {
          assert i > 0 ==> a[i] == a[1..][i - 1];
        }
      }
    }
  }

  /** Without `total`, the result is the same or unordered, and it is unordered only
      where there is a NaN. */
  lemma {:induction false} Partial(a: Tree, b: Tree)
    requires TreeOk(a) && TreeOk(b)
    ensures CompareTrees(a, b, false) in {UNORDERED, CompareTrees(a, b, true)}
    ensures NoNan(a) && NoNan(b) ==> CompareTrees(a, b, false) == CompareTrees(a, b, true)
    ensures CompareTrees(a, b, false) == 0 ==> NoNan(a)
    decreases a, 1
  {
    match (a, b)
    case (TDbl(d), TDbl(e)) => DoubleOrder(d, e);
    case (TDbls(d), TDbls(e)) =>
      if |d| == |e| {
        PartialDoubles(d, e);
      }
    case (TBlk(_, k), TBlk(_, l)) =>
      if |k| == |l| {
        KidsPartial(k, l);
      }
    case _ =>
  }

  lemma {:induction false} KidsPartial(a: seq<Tree>, b: seq<Tree>)
    requires |a| == |b| && KidsOk(a) && KidsOk(b)
    ensures CompareKids(a, b, false) in {UNORDERED, CompareKids(a, b, true)}
    ensures (forall i :: 0 <= i < |a| ==> NoNan(a[i]) && NoNan(b[i])) ==>
            CompareKids(a, b, false) == CompareKids(a, b, true)
    ensures CompareKids(a, b, false) == 0 ==> forall i :: 0 <= i < |a| ==> NoNan(a[i])
    decreases a, 0
  {
    if a != [] {
      Partial(a[0], b[0]);
      KidsPartial(a[1..], b[1..]);
      if CompareKids(a, b, false) == 0 {
        forall i | 0 <= i < |a| ensures NoNan(a[i]) {
          assert i > 0 ==> a[i] == a[1..][i - 1];
        }
      }
    }
  }

  lemma {:induction false} SameNan(a: Tree, b: Tree)
    requires Same(a, b) && NoNan(a)
    ensures NoNan(b)
    decreases a
  {
    match (a, b)
    case (TBlk(_, k), TBlk(_, l)) =>
      forall i | 0 <= i < |l| ensures NoNan(l[i]) {
        SameNan(k[i], l[i]);
      }
    case (TDbls(d), TDbls(e)) =>
      forall i | 0 <= i < |e| ensures !IsNan(e[i]) {
        assert TotalKey(d[i]) == TotalKey(e[i]);
      }
    case _ =>
  }

  /** The polymorphic equality of the language: the same data, without a NaN. */
  lemma EqualMeans(a: Tree, b: Tree)
    requires TreeOk(a) && TreeOk(b)
    ensures CompareTrees(a, b, false) == 0 <==> Same(a, b) && NoNan(a)
  {
    Partial(a, b);
    ZeroIsSame(a, b);
    if Same(a, b) && NoNan(a) {
      SameNan(a, b);
    }
  }

  // ----- Results fit in a word and are not taken for `UNORDERED` -----

  const INT_LIMIT := 0x4000_0000_0000_0000
  const SIZE_LIMIT := 0x40_0000_0000_0000

  /** The data of a 64-bit machine. */
  ghost predicate InRange(t: Tree) {
    match t
    case TLong(n) => -INT_LIMIT <= n < INT_LIMIT
    case TStr(s) => |s| < 8 * SIZE_LIMIT
    case TDbl(_) => true
    case TDbls(ds) => |ds| < SIZE_LIMIT
    case TObj(oid) => -INT_LIMIT <= oid < INT_LIMIT
    case TBlk(tag, kids) => |kids| < SIZE_LIMIT && forall i :: 0 <= i < |kids| ==> InRange(kids[i])
  }

  predicate Fits(n: int) { UNORDERED < n < -UNORDERED }

  lemma {:induction false} StringFits(a: seq<byte>, b: seq<byte>)
    requires |a| < 8 * SIZE_LIMIT && |b| < 8 * SIZE_LIMIT
    ensures Fits(CompareStrings(a, b))
    decreases |a|
  {
    if a != [] && b != [] {
      StringFits(a[1..], b[1..]);
    }
  }

  /** No difference overflows, and none is the code for unordered. */
  lemma {:induction false} NeverUnordered(a: Tree, b: Tree)
    requires TreeOk(a) && TreeOk(b) && InRange(a) && InRange(b)
    ensures Fits(CompareTrees(a, b, true))
    decreases a, 1
  {
    match (a, b)
    case (TStr(s), TStr(t)) => StringFits(s, t);
    case (TDbls(d), TDbls(e)) =>
      if |d| == |e| {
        DoubleArrayOrder(d, e, e);
      }
    case (TBlk(_, k), TBlk(_, l)) =>
      if |k| == |l| {
        KidsNeverUnordered(k, l);
      }
    case _ =>
  }

  lemma {:induction false} KidsNeverUnordered(a: seq<Tree>, b: seq<Tree>)
    requires |a| == |b| && KidsOk(a) && KidsOk(b)
    requires forall i :: 0 <= i < |a| ==> InRange(a[i]) && InRange(b[i])
    ensures Fits(CompareKids(a, b, true))
    decreases a, 0
  {
    if a != [] {
      NeverUnordered(a[0], b[0]);
      KidsNeverUnordered(a[1..], b[1..]);
    }
  }

  // ----- The relational operators -----

  datatype Operator = Eq | Ne | Lt | Le | Gt | Ge

  /** What the operator makes of the result of comparison. */
  predicate Holds(op: Operator, n: int) {
    match op
    case Eq => n == 0
    case Ne => n != 0
    case Lt => n < 0 && n != UNORDERED
    case Le => n <= 0 && n != UNORDERED
    case Gt => n > 0
    case Ge => n >= 0
  }

  function Mirror(op: Operator): Operator {
    match op
    case Lt => Gt
    case Le => Ge
    case Gt => Lt
    case Ge => Le
    case _ => op
  }

  lemma {:induction false} MirrorDoubles(a: seq<nat>, b: seq<nat>)
    requires |a| == |b|
    ensures CompareDoubleArrays(b, a, false) == Mirrored(CompareDoubleArrays(a, b, false))
    ensures CompareDoubleArrays(a, b, false) in {LESS, 0, GREATER, UNORDERED}
  {
    if a != [] {
      MirrorDoubles(a[1..], b[1..]);
    }
  }

  function Mirrored(n: int): int {
    if n == UNORDERED then UNORDERED else -n
  }

  lemma {:induction false} MirrorTrees(a: Tree, b: Tree)
    requires TreeOk(a) && TreeOk(b) && InRange(a) && InRange(b)
    ensures CompareTrees(b, a, false) == Mirrored(CompareTrees(a, b, false))
    decreases a, 1
  {
    NeverUnordered(a, b);
    match (a, b)
    case (TStr(s), TStr(t)) => StringAntisymmetric(s, t);
    case (TDbls(d), TDbls(e)) =>
      if |d| == |e| {
        MirrorDoubles(d, e);
      }
    case (TBlk(_, k), TBlk(_, l)) =>
      if |k| == |l| {
        MirrorKids(k, l);
      }
    case _ =>
  }

  lemma {:induction false} MirrorKids(a: seq<Tree>, b: seq<Tree>)
    requires |a| == |b| && KidsOk(a) && KidsOk(b)
    requires forall i :: 0 <= i < |a| ==> InRange(a[i]) && InRange(b[i])
    ensures CompareKids(b, a, false) == Mirrored(CompareKids(a, b, false))
    decreases a, 0
  {
    if a != [] {
      MirrorTrees(a[0], b[0]);
      MirrorKids(a[1..], b[1..]);
    }
  }

  /** What the operators say of data: `x op y` is `y mirror(op) x`; equality is sameness
      without NaN; where two data are ordered the operators agree with `compare`, and
      where they are not only `<>` holds. */
  lemma Operators(a: Tree, b: Tree, op: Operator)
    requires TreeOk(a) && TreeOk(b) && InRange(a) && InRange(b)
    ensures Holds(op, CompareTrees(a, b, false)) <==> Holds(Mirror(op), CompareTrees(b, a, false))
    ensures Holds(Eq, CompareTrees(a, b, false)) <==> Same(a, b) && NoNan(a)
    ensures CompareTrees(a, b, false) != UNORDERED ==>
            (Holds(op, CompareTrees(a, b, false)) <==> Holds(op, CompareTrees(a, b, true)))
    ensures CompareTrees(a, b, false) == UNORDERED ==> (Holds(op, CompareTrees(a, b, false)) <==> op == Ne)
    ensures NoNan(a) && NoNan(b) ==> CompareTrees(a, b, false) != UNORDERED
  {
    MirrorTrees(a, b);
    EqualMeans(a, b);
    Partial(a, b);
    NeverUnordered(a, b);
  }

  // ----- Data in the heap -----

  /** The data under `v` has no functional or abstract part and stays in the value
      area. */
  ghost predicate Data(h: Heap, rank: map<nat, nat>, v: Value)
    requires Ranked(h, rank) && Good(h, rank, v)
    decreases Rank(rank, v), 0, 0
  {
    match v
    case Long(_) => true
    case Outside(_) => false
    case Ref(a) =>
      assert Ranked1(h, rank, a);
      match h[a]
      case Forward(w) => Data(h, rank, w)
      case Blk(_, fields) =>
        MaxRankBelow(h, rank, fields, rank[a]);
        AllData(h, rank, fields)
      case Abstract => false
      case Closure => false
      case _ => true
  }

  ghost predicate AllData(h: Heap, rank: map<nat, nat>, vs: seq<Value>)
    requires Ranked(h, rank) && AllGood(h, rank, vs)
    decreases MaxRank(rank, vs), 1, |vs|
  {
    vs != [] ==> Data(h, rank, vs[0]) && AllData(h, rank, vs[1..])
  }

  /** The tree that `v` stands for: forwarding blocks are skipped and sharing is
      forgotten. */
  ghost function Unfold(h: Heap, rank: map<nat, nat>, v: Value): (t: Tree)
    requires Ranked(h, rank) && Good(h, rank, v) && Data(h, rank, v)
    ensures TreeOk(t)
    decreases Rank(rank, v), 0, 0
  {
    match v
    case Long(n) => TLong(n)
    case Ref(a) =>
      assert Ranked1(h, rank, a);
      match h[a]
      case Str(s) => TStr(s)
      case Dbl(d) => TDbl(d)
      case Dbls(ds) => TDbls(ds)
      case Object(oid) => TObj(oid)
      case Forward(w) => Unfold(h, rank, w)
      case Blk(tag, fields) =>
        MaxRankBelow(h, rank, fields, rank[a]);
        TBlk(tag, UnfoldAll(h, rank, fields))
  }

  ghost function UnfoldAll(h: Heap, rank: map<nat, nat>, vs: seq<Value>): (ts: seq<Tree>)
    requires Ranked(h, rank) && AllGood(h, rank, vs) && AllData(h, rank, vs)
    ensures |ts| == |vs| && KidsOk(ts)
    decreases MaxRank(rank, vs), 1, |vs|
  {
    if vs == [] then [] else [Unfold(h, rank, vs[0])] + UnfoldAll(h, rank, vs[1..])
  }

  /** Comparison of data is comparison of the trees. */
  lemma {:induction false} CompareIsTree(h: Heap, rank: map<nat, nat>, v1: Value, v2: Value, total: bool)
    requires Ranked(h, rank) && Good(h, rank, v1) && Good(h, rank, v2) && Data(h, rank, v1) && Data(h, rank, v2)
    ensures Compare(h, rank, v1, v2, total) == Order(CompareTrees(Unfold(h, rank, v1), Unfold(h, rank, v2), total))
    decreases Rank(rank, v1) + Rank(rank, v2), 0, 1
  {
    Reflexive(Unfold(h, rank, v1));
    if v1.Ref? && h[v1.a].Forward? {
      assert Ranked1(h, rank, v1.a);
      if !(v1 == v2 && total) {
        CompareIsTree(h, rank, h[v1.a].v, v2, total);
      }
    } else if v2.Ref? && h[v2.a].Forward? {
      assert Ranked1(h, rank, v2.a);
      CompareIsTree(h, rank, v1, h[v2.a].v, total);
    } else if v1.Ref? && v2.Ref? {
      assert Ranked1(h, rank, v1.a) && Ranked1(h, rank, v2.a);
      BlocksCompare(h, rank, v1, v2, total);
    }
  }

  lemma {:induction false} BlocksCompare(h: Heap, rank: map<nat, nat>, v1: Value, v2: Value, total: bool)
    requires Ranked(h, rank) && Good(h, rank, v1) && Good(h, rank, v2) && Data(h, rank, v1) && Data(h, rank, v2)
    requires v1.Ref? && v2.Ref? && !h[v1.a].Forward? && !h[v2.a].Forward?
    ensures Compare(h, rank, v1, v2, total) == Order(CompareTrees(Unfold(h, rank, v1), Unfold(h, rank, v2), total))
    decreases Rank(rank, v1) + Rank(rank, v2), 0, 0
  {
    assert Ranked1(h, rank, v1.a) && Ranked1(h, rank, v2.a);
    Reflexive(Unfold(h, rank, v1));
    var o1, o2 := h[v1.a], h[v2.a];
    if o1.Blk? && o2.Blk? && o1.tag == o2.tag && |o1.fields| == |o2.fields| {
      MaxRankBelow(h, rank, o1.fields, rank[v1.a]);
      MaxRankBelow(h, rank, o2.fields, rank[v2.a]);
      CompareAllIsTree(h, rank, o1.fields, o2.fields, total);
    } else if o1.Str? && o2.Str? {
      StringAntisymmetric(o1.s, o2.s);
    }
  }

  lemma {:induction false} CompareAllIsTree(h: Heap, rank: map<nat, nat>, f1: seq<Value>, f2: seq<Value>, total: bool)
    requires Ranked(h, rank) && |f1| == |f2| && AllGood(h, rank, f1) && AllGood(h, rank, f2) && AllData(h, rank, f1)
             && AllData(h, rank, f2)
    ensures CompareAll(h, rank, f1, f2, total) ==
            Order(CompareKids(UnfoldAll(h, rank, f1), UnfoldAll(h, rank, f2), total))
    decreases MaxRank(rank, f1) + MaxRank(rank, f2), 1, |f1|
  {
    if f1 != [] {
      CompareIsTree(h, rank, f1[0], f2[0], total);
      CompareAllIsTree(h, rank, f1[1..], f2[1..], total);
    }
  }

  /** `compare` is a total order on data: whatever the heaps, addresses and sharing,
      it is reflexive, antisymmetric and transitive, and it says equal exactly for
      the same data. */
  lemma TotalOrder(h: Heap, rank: map<nat, nat>, x: Value, y: Value, z: Value)
    requires Ranked(h, rank) && Good(h, rank, x) && Good(h, rank, y) && Good(h, rank, z)
    requires Data(h, rank, x) && Data(h, rank, y) && Data(h, rank, z)
    ensures var xy, yx := Compare(h, rank, x, y, true), Compare(h, rank, y, x, true);
            var yz, xz := Compare(h, rank, y, z, true), Compare(h, rank, x, z, true);
            && xy.Order? && yx.Order? && yz.Order? && xz.Order?
            && xy.n == -yx.n
            && Chains(xy.n, yz.n, xz.n)
            && (xy.n == 0 <==> Same(Unfold(h, rank, x), Unfold(h, rank, y)))
    ensures Compare(h, rank, x, x, true) == Order(0)
  {
    CompareIsTree(h, rank, x, y, true);
    CompareIsTree(h, rank, y, x, true);
    CompareIsTree(h, rank, y, z, true);
    CompareIsTree(h, rank, x, z, true);
    var a, b, c := Unfold(h, rank, x), Unfold(h, rank, y), Unfold(h, rank, z);
    Antisymmetric(a, b);
    Transitive(a, b, c);
    ZeroIsSame(a, b);
  }
}
