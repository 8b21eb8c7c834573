/**
 The generic hash function (byterun/hash.c): a breadth-first traversal through a
 bounded queue that mixes what it meets into a 32-bit hash. The hash of data depends
 only on the tree that the data stands for, and not on the bits that comparison does
 not see, so that data that compares equal has equal hashes.
 */
module Hashing {
  import opened Mlvalues
  import opened Comparison
  import opened CompareOrder

  const HASH_QUEUE_SIZE := 256

  // ----- What is mixed into the hash -----

  /** A word, a native integer, or the length of a string. */
  datatype Event = Word(n: nat) | Native(d: int) | Length(len: nat)

  /** The two halves of a double that are hashed: all NaNs give the same, and so do the
      two zeros. */
  function Halves(d: nat): (nat, nat) {
    var h, l := d / 0x1_0000_0000 % 0x1_0000_0000, d % 0x1_0000_0000;
    if h / 0x10_0000 % 0x800 == 0x7FF && (l != 0 || h % 0x10_0000 != 0) then (0x7FF0_0000, 1)
    else if h == 0x8000_0000 && l == 0 then (0, l)
    else (h, l)
  }

  function DoubleEvents(d: nat): seq<Event> {
    var (h, l) := Halves(d);
    [Word(l), Word(h)]
  }

  /** The bits below the sign, by halves. */
  lemma LowBits(m: nat, high: nat, l: nat)
    requires l < 0x1_0000_0000 && m == high * 0x1_0000_0000 + l
    ensures m % 0x1_0000_0000 == l && m / 0x1_0000_0000 == high
  {
  }

  lemma SignBit(d: nat)
    ensures var high, m := d / 0x1_0000_0000, Magnitude(d);
            && d % 0x1_0000_0000 == m % 0x1_0000_0000
            && high % 0x8000_0000 == m / 0x1_0000_0000
            && high / 0x8000_0000 == d / 0x8000_0000_0000_0000
  {
    var q, m := d / 0x8000_0000_0000_0000, Magnitude(d);
    assert d == q * 0x8000_0000_0000_0000 + m;
    var high, l := m / 0x1_0000_0000, m % 0x1_0000_0000;
    LowBits(d, q * 0x8000_0000 + high, l);
  }

  /** The parts of the bits of a double. */
  lemma Bits(d: nat)
    ensures var h, l, m := d / 0x1_0000_0000 % 0x1_0000_0000, d % 0x1_0000_0000, Magnitude(d);
            && m == h % 0x8000_0000 * 0x1_0000_0000 + l
            && h == d / 0x8000_0000_0000_0000 % 2 * 0x8000_0000 + h % 0x8000_0000
            && (IsNan(d) <==> h / 0x10_0000 % 0x800 == 0x7FF && (l != 0 || h % 0x10_0000 != 0))
  {
    SignBit(d);
    HighBits(d / 0x1_0000_0000);
    ExponentBits(d / 0x1_0000_0000 % 0x1_0000_0000);
  }

  lemma HighBits(high: nat)
    ensures var h := high % 0x1_0000_0000;
            && h == high / 0x8000_0000 % 2 * 0x8000_0000 + high % 0x8000_0000
            && h % 0x8000_0000 == high % 0x8000_0000
  {
    var q := high / 0x8000_0000;
    assert q == q / 2 * 2 + q % 2;
    LowBits(high, q / 2, q % 2 * 0x8000_0000 + high % 0x8000_0000);
  }

  /** The exponent is all ones. */
  lemma ExponentBits(h: nat)
    requires h < 0x1_0000_0000
    ensures h / 0x10_0000 % 0x800 == 0x7FF <==> h % 0x8000_0000 >= 0x7FF0_0000
    ensures h % 0x8000_0000 >= 0x7FF0_0000 ==> (h % 0x10_0000 != 0 <==> h % 0x8000_0000 > 0x7FF0_0000)
  {
  }

  /** Exactly the doubles that compare equal are hashed alike. */
  lemma HalvesAgree(d: nat, e: nat)
    ensures TotalKey(d) == TotalKey(e) <==> Halves(d) == Halves(e)
  {
    Bits(d);
    Bits(e);
  }

  /** The floats of an array; the last one may be one more than `num` allows. */
  function ArrayEvents(ds: seq<nat>, num: int): seq<Event>
    decreases |ds|
  {
    if ds == [] then []
    else if num - 1 < 0 then DoubleEvents(ds[0])
    else DoubleEvents(ds[0]) + ArrayEvents(ds[1..], num - 1)
  }

  /** The number of values still to be mixed after an array of floats. */
  function ArrayNum(ds: seq<nat>, num: int): int
    decreases |ds|
  {
    if ds == [] then num
    else if num - 1 < 0 then num - 1
    else ArrayNum(ds[1..], num - 1)
  }

  /** The number that up to four bytes stand for, least significant first. */
  function LittleEndian(s: seq<byte>): nat {
    if s == [] then 0 else s[0] + 256 * LittleEndian(s[1..])
  }

  /** The bytes of a string, by words of four and then the one to three that are left. */
  function ByteEvents(s: seq<byte>): seq<Event> {
    if s == [] then []
    else if |s| < 4 then [Word(LittleEndian(s))]
    else [Word(LittleEndian(s[..4]))] + ByteEvents(s[4..])
  }

  function StringEvents(s: seq<byte>): seq<Event> { ByteEvents(s) + [Length(|s|)] }

  // ----- The traversal of a tree -----

  /** What a value other than a block with fields adds to the hash. */
  function LeafEvents(t: Tree, num: int): seq<Event>
    requires !t.TBlk?
  {
    match t
    case TLong(n) => [Native(2 * n + 1)]
    case TStr(s) => StringEvents(s)
    case TDbl(d) => DoubleEvents(d)
    case TDbls(ds) => ArrayEvents(ds, num)
    case TObj(oid) => [Native(oid)]
  }

  function LeafNum(t: Tree, num: int): int
    requires !t.TBlk?
  {
    if t.TDbls? then ArrayNum(t.ds, num) else num - 1
  }

  function HeaderEvent(tag: nat, size: nat): Event { Word((size * 1024 + tag) % 0x1_0000_0000) }

  /** How many of `n` fields go into the queue. */
  function Room(sz: int, wr: nat, n: nat): nat {
    if wr >= sz then 0 else if n <= sz - wr then n else sz - wr
  }

  /** The queue holds what is to be looked at, `wr` values have been put in it so far, and
      `num` values are still to be mixed. */
  function Visit(queue: seq<Tree>, wr: nat, sz: int, num: int): seq<Event>
    decreases |queue| + (if wr >= sz then 0 else sz - wr)
  {
    if queue == [] || num <= 0 then []
    else if queue[0].TBlk? then
      var kids := queue[0].kids;
      var n := Room(sz, wr, |kids|);
      [HeaderEvent(queue[0].tag, |kids|)] + Visit(queue[1..] + kids[..n], wr + n, sz, num)
    else LeafEvents(queue[0], num) + Visit(queue[1..], wr, sz, LeafNum(queue[0], num))
  }

  function QueueSize(limit: int): int {
    if limit < 0 || limit > HASH_QUEUE_SIZE then HASH_QUEUE_SIZE else limit
  }

  function TreeEvents(t: Tree, count: int, limit: int): seq<Event> { Visit([t], 1, QueueSize(limit), count) }

  // ----- Mixing -----

  const TWO32 := 0x1_0000_0000

  /** Bitwise exclusive or. */
  function Xor(a: nat, b: nat): nat {
    if a == 0 && b == 0 then 0 else (a + b) % 2 + 2 * Xor(a / 2, b / 2)
  }

  lemma {:induction false} XorCancels(a: nat, b: nat)
    ensures Xor(a, a) == 0 && Xor(0, b) == b
  {
    if a > 0 {
      XorCancels(a / 2, 0);
    }
    if b > 0 {
      XorCancels(0, b / 2);
    }
  }

  /** `ROTL32`. */
  function Rotl(x: nat, n: nat): nat
    requires n in {13, 15}
  {
    if n == 13 then x * 0x2000 % TWO32 + x / 0x8_0000 else x * 0x8000 % TWO32 + x / 0x2_0000
  }

  /** `MIX`, on 32 bits. */
  function Mix(h: nat, d: nat): nat {
    (Rotl(Xor(h, Rotl(d * 0xcc9e_2d51 % TWO32, 15) * 0x1b87_3593 % TWO32), 13) * 5 + 0xe654_6b64) % TWO32
  }

  /** `FINAL_MIX`. */
  function FinalMix(h: nat): nat {
    var h1 := Xor(h, h / 0x1_0000) * 0x85eb_ca6b % TWO32;
    var h2 := Xor(h1, h1 / 0x2000) * 0xc2b2_ae35 % TWO32;
    Xor(h2, h2 / 0x1_0000)
  }

  /** The 32 bits that stand for a 64-bit integer: the high half, the sign and the low
      half, combined. */
  function FoldInt(d: int): nat {
    Xor(Xor(d / TWO32 % TWO32, if d < 0 then TWO32 - 1 else 0), d % TWO32)
  }

  /** Integers that fit in 32 bits are hashed as on a 32-bit machine. */
  lemma FoldSmall(d: int)
    requires -0x8000_0000 <= d < 0x8000_0000
    ensures FoldInt(d) == d % TWO32
  {
    var high, sign: nat := d / TWO32 % TWO32, if d < 0 then TWO32 - 1 else 0;
    assert high == sign;
    XorCancels(sign, d % TWO32);
  }

  function MixEvent(h: nat, e: Event): nat {
    match e
    case Word(n) => Mix(h, n % TWO32)
    case Native(d) => Mix(h, FoldInt(d))
    case Length(n) => Xor(h, n % TWO32)
  }

  function MixEvents(h: nat, es: seq<Event>): nat {
    if es == [] then h else MixEvent(MixEvents(h, es[..|es| - 1]), es[|es| - 1])
  }

  /** The hash of a tree. */
  function HashTree(t: Tree, count: int, limit: int, seed: int): nat {
    FinalMix(MixEvents(seed % TWO32, TreeEvents(t, count, limit))) % 0x4000_0000
  }

  // ----- Trees that comparison does not tell apart have the same hash -----

  lemma {:induction false} ArraySame(a: seq<nat>, b: seq<nat>, num: int)
    requires |a| == |b| && forall i :: 0 <= i < |a| ==> TotalKey(a[i]) == TotalKey(b[i])
    ensures ArrayEvents(a, num) == ArrayEvents(b, num) && ArrayNum(a, num) == ArrayNum(b, num)
    decreases |a|
  {
    if a != [] {
      HalvesAgree(a[0], b[0]);
      ArraySame(a[1..], b[1..], num - 1);
    }
  }

  lemma LeafSame(a: Tree, b: Tree, num: int)
    requires Same(a, b) && !a.TBlk?
    ensures !b.TBlk? && LeafEvents(a, num) == LeafEvents(b, num) && LeafNum(a, num) == LeafNum(b, num)
  {
    match (a, b)
    case (TDbl(d), TDbl(e)) => HalvesAgree(d, e);
    case (TDbls(d), TDbls(e)) => ArraySame(d, e, num);
    case _ =>
  }

  ghost predicate SameAll(a: seq<Tree>, b: seq<Tree>) {
    |a| == |b| && forall i :: 0 <= i < |a| ==> Same(a[i], b[i])
  }

  lemma SameQueues(a: seq<Tree>, b: seq<Tree>, k: seq<Tree>, l: seq<Tree>, n: nat)
    requires SameAll(a, b) && a != [] && SameAll(k, l) && n <= |k|
    ensures SameAll(a[1..], b[1..]) && SameAll(a[1..] + k[..n], b[1..] + l[..n])
  {
  }

  lemma {:induction false} VisitSame(a: seq<Tree>, b: seq<Tree>, wr: nat, sz: int, num: int)
    requires SameAll(a, b)
    ensures Visit(a, wr, sz, num) == Visit(b, wr, sz, num)
    decreases |a| + (if wr >= sz then 0 else sz - wr)
  {
    if a != [] && num > 0 {
      assert Same(a[0], b[0]);
      if a[0].TBlk? {
        var n := Room(sz, wr, |a[0].kids|);
        SameQueues(a, b, a[0].kids, b[0].kids, n);
        VisitSame(a[1..] + a[0].kids[..n], b[1..] + b[0].kids[..n], wr + n, sz, num);
      } else {
        LeafSame(a[0], b[0], num);
        SameQueues(a, b, [], [], 0);
        VisitSame(a[1..], b[1..], wr, sz, LeafNum(a[0], num));
      }
    }
  }

  /** Data that compares equal, in the total order or by the equality of the language,
      has equal hashes, however much of it is looked at. */
  lemma EqualHashes(h: Heap, rank: map<nat, nat>, x: Value, y: Value, total: bool, count: int, limit: int, seed: int)
    requires Ranked(h, rank) && Good(h, rank, x) && Good(h, rank, y) && Data(h, rank, x) && Data(h, rank, y)
    requires Compare(h, rank, x, y, total) == Order(0)
    ensures HashTree(Unfold(h, rank, x), count, limit, seed) == HashTree(Unfold(h, rank, y), count, limit, seed)
  {
    var a, b := Unfold(h, rank, x), Unfold(h, rank, y);
    CompareIsTree(h, rank, x, y, total);
    ZeroIsSame(a, b);
    EqualMeans(a, b);
    VisitSame([a], [b], 1, QueueSize(limit), count);
  }
}
