/**
 The lists of global roots (byterun/globroots.c): skip lists of root addresses. Each
 level is a sorted sublist of the level below, and the lowest one holds the set. A node
 is named by the root that it holds.
 */
module SkipList {
  const NUM_LEVELS := 17

  /** The list head, which comes before all nodes. */
  const HEAD := -1

  datatype Link = Nil | To(r: nat)

  /** The forward pointers: of a node, or of the head, at a level. */
  type Links = map<(int, nat), Link>

  // ----- One level -----

  function LinkAt(list: seq<nat>, k: nat): Link {
    if k < |list| then To(list[k]) else Nil
  }

  /** What comes before position `k`. */
  function Before(list: seq<nat>, k: nat): int
    requires k <= |list|
  {
    if k == 0 then HEAD else list[k - 1]
  }

  ghost predicate Linked(fw: Links, i: nat, list: seq<nat>, k: nat) {
    k <= |list| ==> (Before(list, k), i) in fw && fw[(Before(list, k), i)] == LinkAt(list, k)
  }

  /** The forward pointers at level `i` chain the nodes of `list`. */
  ghost predicate Chain(fw: Links, i: nat, list: seq<nat>) {
    forall k: nat {:trigger Linked(fw, i, list, k)} :: Linked(fw, i, list, k)
  }

  ghost predicate Sorted(list: seq<nat>) {
    forall j, k :: 0 <= j < k < |list| ==> list[j] < list[k]
  }

  /** The nodes before position `k` are less than `r`, and the others are not. */
  ghost predicate IsCut(list: seq<nat>, r: nat, k: nat) {
    && k <= |list|
    && (forall j :: 0 <= j < k ==> list[j] < r)
    && (forall j :: k <= j < |list| ==> list[j] >= r)
  }

  lemma CutFinds(list: seq<nat>, r: nat, k: nat)
    requires Sorted(list) && IsCut(list, r, k)
    ensures r in list <==> LinkAt(list, k) == To(r)
  {
  }

  function Inserted(list: seq<nat>, k: nat, r: nat): seq<nat>
    requires k <= |list|
  {
    list[..k] + [r] + list[k..]
  }

  function Removed(list: seq<nat>, k: nat): seq<nat>
    requires k < |list|
  {
    list[..k] + list[k + 1..]
  }

  /** Only pointers at level `i` are different. */
  ghost predicate SameBut(fw: Links, fw': Links, i: nat) {
    forall e, j | (e, j) in fw && j != i :: (e, j) in fw' && fw'[(e, j)] == fw[(e, j)]
  }

  lemma OtherLevels(fw: Links, fw': Links, i: nat, j: nat, list: seq<nat>)
    requires SameBut(fw, fw', i) && j != i && Chain(fw, j, list)
    ensures Chain(fw', j, list) == true
  {
    forall k: nat ensures Linked(fw', j, list, k) {
      assert Linked(fw, j, list, k);
    }
  }

  /** A node is linked in after the node before position `k`. */
  function LinkIn(fw: Links, i: nat, e: int, r: nat): Links
    requires (e, i) in fw
  {
    fw[(r as int, i) := fw[(e, i)]][(e, i) := To(r)]
  }

  lemma ChainInsert(fw: Links, i: nat, list: seq<nat>, k: nat, r: nat)
    requires Chain(fw, i, list) && Sorted(list) && IsCut(list, r, k) && r !in list
    ensures (Before(list, k), i) in fw
    ensures var fw' := LinkIn(fw, i, Before(list, k), r);
            Chain(fw', i, Inserted(list, k, r)) == true && SameBut(fw, fw', i)
    ensures Sorted(Inserted(list, k, r))
  {
    assert Linked(fw, i, list, k);
    var fw', list' := LinkIn(fw, i, Before(list, k), r), Inserted(list, k, r);
    forall j: nat ensures Linked(fw', i, list', j) {
      assert Linked(fw, i, list, j);
      assert j > 0 ==> Linked(fw, i, list, j - 1);
      assert j <= |list'| ==> Before(list', j) == if j <= k then Before(list, j) else if j == k + 1 then r
             else Before(list, j - 1);
    }
  }

  /** A node is linked out. */
  function LinkOut(fw: Links, i: nat, e: int, r: nat): Links
    requires (r as int, i) in fw
  {
    fw[(e, i) := fw[(r as int, i)]]
  }

  lemma ChainRemove(fw: Links, i: nat, list: seq<nat>, k: nat, r: nat)
    requires Chain(fw, i, list) && Sorted(list) && IsCut(list, r, k) && k < |list| && list[k] == r
    ensures (r as int, i) in fw
    ensures var fw' := LinkOut(fw, i, Before(list, k), r);
            Chain(fw', i, Removed(list, k)) == true && SameBut(fw, fw', i)
    ensures Sorted(Removed(list, k)) && r !in Removed(list, k)
  {
    assert Linked(fw, i, list, k) && Linked(fw, i, list, k + 1);
    var fw', list' := LinkOut(fw, i, Before(list, k), r), Removed(list, k);
    forall j: nat ensures Linked(fw', i, list', j) {
      assert Linked(fw, i, list, j) && Linked(fw, i, list, j + 1);
      assert j <= |list'| ==> Before(list', j) == if j <= k then Before(list, j) else Before(list, j + 1);
    }
  }

  // ----- All levels -----

  ghost predicate LevelOk(fw: Links, lists: seq<seq<nat>>, i: nat) {
    i < |lists| ==> Chain(fw, i, lists[i]) && Sorted(lists[i])
  }

  ghost predicate AllLevels(fw: Links, lists: seq<seq<nat>>) {
    forall i: nat {:trigger LevelOk(fw, lists, i)} :: LevelOk(fw, lists, i)
  }

  ghost predicate Subset(lists: seq<seq<nat>>, i: nat) {
    i + 1 < |lists| ==> forall r :: r in lists[i + 1] ==> r in lists[i]
  }

  ghost predicate ListsOk(fw: Links, lists: seq<seq<nat>>, level: nat) {
    && |lists| == NUM_LEVELS && level < NUM_LEVELS
    && AllLevels(fw, lists)
    && (forall i: nat {:trigger Subset(lists, i)} :: Subset(lists, i))
    && (forall i :: level < i < NUM_LEVELS ==> lists[i] == [])
  }

  /** The level of a list is that of its highest node. */
  ghost predicate TightLevel(lists: seq<seq<nat>>, level: nat) {
    level < |lists| && (level > 0 ==> lists[level] != [])
  }

  ghost function Members(list: seq<nat>): set<nat> { set r | r in list }

  /** All nodes of a level are on the lowest one. */
  lemma {:induction false} OnLowest(lists: seq<seq<nat>>, i: nat, r: nat)
    requires (forall j: nat {:trigger Subset(lists, j)} :: Subset(lists, j)) && i < |lists| && r in lists[i]
    ensures r in lists[0]
  {
    if i > 0 {
      assert Subset(lists, i - 1);
      OnLowest(lists, i - 1, r);
    }
  }

  // ----- Random levels -----

  function Pow4(n: nat): (p: nat)
    ensures p > 0
  {
    if n == 0 then 1 else 4 * Pow4(n - 1)
  }

  lemma {:induction false} Pow4Sum(m: nat, n: nat)
    ensures Pow4(m + n) == Pow4(m) * Pow4(n)
  {
    if m > 0 {
      Pow4Sum(m - 1, n);
    }
  }

  lemma ModuloFactor(q: nat, x: nat, y: nat)
    requires x > 0 && y > 0
    ensures x * y > 0 && x * q % (x * y) == x * (q % y)
  {
    var d, m := q / y, q % y;
    assert q == d * y + m;
    assert x * q == d * (x * y) + x * m;
    assert x * m < x * y;
    Remainder(x * q, x * y, d, x * m);
  }

  lemma AtLeastOnce(x: int, p: nat)
    ensures x >= 1 ==> x * p >= p
    ensures x <= -1 ==> x * p + p <= 0
  {
  }

  lemma Remainder(n: nat, p: nat, d: nat, m: nat)
    requires m < p && n == d * p + m
    ensures n % p == m
  {
    var d', m' := n / p, n % p;
    assert n == d' * p + m';
    assert (d - d') * p == d * p - d' * p;
    AtLeastOnce(d - d', p);
  }

  const TWO32 := 0x1_0000_0000

  /** The 32-bit word `r` without its first `j` pairs of bits. */
  function Shifted(r: nat, j: nat): nat {
    if j == 0 then r else Shifted(r, j - 1) * 4 % TWO32
  }

  /** Pair `j` of the bits of `r`, from the top, is a pair of ones. */
  predicate OnesAt(r: nat, j: nat) { Shifted(r, j) >= 0xC000_0000 }

  /** `random_level_r`: the new seed, and the number of pairs of ones that it starts with,
      which is below `NUM_LEVELS` for every seed. */
  method RandomLevel(seed: nat) returns (level: nat, seed': nat)
    ensures level < NUM_LEVELS && seed' == (seed * 69069 + 25173) % TWO32
    ensures (forall j: nat :: j < level ==> OnesAt(seed', j)) && !OnesAt(seed', level)
  {
    seed' := (seed * 69069 + 25173) % TWO32;
    level := 0;
    var r := seed';
    ghost var q := r;
    while r >= 0xC000_0000
      invariant level <= 16 && r < TWO32 && r == Pow4(level) * q
      invariant r == Shifted(seed', level) && forall j: nat :: j < level ==> OnesAt(seed', j)
      decreases 16 - level
    {
      StillBelow(level, q);
      ghost var q' := ShiftedBy(level, q);
      level := level + 1;
      r := r * 4 % TWO32;
      q := q';
    }
  }

  lemma StillBelow(level: nat, q: nat)
    requires level <= 16 && 0xC000_0000 <= Pow4(level) * q < TWO32
    ensures level < 16
  {
    FourTo16();
    AtLeastOnce(q, Pow4(level));
  }

  lemma FourTo16()
    ensures Pow4(16) == TWO32
  {
    assert Pow4(4) == 256;
    Pow4Sum(4, 4);
    Pow4Sum(8, 8);
  }

  lemma Regroup(x: nat, q: nat)
    ensures x * q * 4 == 4 * x * q
  {
  }

  /** A number with `level` pairs of zeros at its end has one more once it is shifted. */
  lemma ShiftedBy(level: nat, q: nat) returns (q': nat)
    requires level < 16
    ensures Pow4(level) * q * 4 % TWO32 == Pow4(level + 1) * q'
  {
    FourTo16();
    var x, y := Pow4(level + 1), Pow4(15 - level);
    Pow4Sum(level + 1, 15 - level);
    ModuloFactor(q, x, y);
    q' := q % y;
    Regroup(Pow4(level), q);
  }
}
