/**
 Where the table of the first-fit policy goes wrong: two lists on which an exact table
 stops being exact, so that a later allocation is not by first fit, and one on which the
 buffer for new entries overflows. All start with an empty table.
 */
module FreeListExamples {
  import opened FreeListIndex
  import opened FreeListPick

  /** The positions from `p` up to `q`. */
  function Range(p: nat, q: nat): (r: seq<nat>)
    requires p <= q
    ensures |r| == q - p && forall k :: 0 <= k < q - p ==> r[k] == p + k
  {
    seq(q - p, k requires 0 <= k < q - p => p + k)
  }

  /** A stretch of growing sizes: all its positions become entries. */
  lemma {:induction false} ExtendGrowing(z: seq<nat>, rec: seq<nat>, p: nat, q: nat, w: nat)
    requires p <= q <= |z| && |rec| + (q - p) <= FLP_MAX && (p < q ==> z[p] > Top(z, rec, |rec|))
    requires forall j :: p < j < q ==> z[j] > z[j - 1]
    requires forall j :: p <= j < q ==> z[j] < w
    ensures Extend(z, rec, p, w) == Extend(z, rec + Range(p, q), q, w)
    decreases q - p
  {
    if p == q {
      assert rec + Range(p, q) == rec;
    } else {
      ExtendGrowing(z, rec + [p], p + 1, q, w);
      assert rec + [p] + Range(p + 1, q) == rec + Range(p, q);
    }
  }

  lemma {:induction false} CollectGrowing(z: seq<nat>, rec: seq<nat>, p: nat, q: nat, limit: nat)
    requires p <= q <= |z| && (p < q ==> z[p] > Top(z, rec, |rec|))
    requires forall j :: p < j < q ==> z[j] > z[j - 1]
    requires forall j :: p <= j < q ==> z[j] < limit
    ensures Collect(z, rec, p, q, limit) == rec + Range(p, q)
    decreases q - p
  {
    if p == q {
      assert rec + Range(p, q) == rec;
    } else {
      CollectGrowing(z, rec + [p], p + 1, q, limit);
      assert rec + [p] + Range(p + 1, q) == rec + Range(p, q);
    }
  }

  lemma {:induction false} ExtendFlat(z: seq<nat>, rec: seq<nat>, p: nat, q: nat, w: nat)
    requires p <= q <= |z| && |rec| < FLP_MAX && forall j :: p <= j < q ==> z[j] <= Top(z, rec, |rec|)
    ensures Extend(z, rec, p, w) == Extend(z, rec, q, w)
    decreases q - p
  {
    if p < q {
      ExtendFlat(z, rec, p + 1, q, w);
    }
  }

  lemma NoEntry(z: seq<nat>, rec: seq<nat>, w: nat)
    requires TableSmall(z, rec, w)
    ensures FindEntry(z, rec, w, 0) == |rec|
  {
    FindEntryIs(z, rec, w, 0);
  }

  lemma RangeEntries(p: nat, q: nat)
    requires p <= q
    ensures Entries(Range(p, q), q)
  {
    forall i: nat, j: nat ensures InOrder(Range(p, q), i, j) {
    }
  }

  // ----- The table overflows -----

  /** Free blocks of 30, 10, 20, 40, 41, ..., 1038 words. */
  ghost predicate Crowded(z: seq<nat>) {
    |z| == 1002 && z[0] == 30 && z[1] == 10 && z[2] == 20 && forall j :: 3 <= j < 1002 ==> z[j] == 37 + j
  }

  /** The entry of the block of 30 words and those of the blocks from 40 words on. */
  ghost predicate CrowdedTable(rec: seq<nat>) {
    rec == [0] + Range(3, 1002)
  }

  /** A request that cannot be met fills the table. */
  lemma CrowdedFills(z: seq<nat>, rec: seq<nat>)
    requires Crowded(z) && CrowdedTable(rec)
    ensures Ready(z, [], -1, 2000) && Allocate(z, [], -1, 2000) == Fail(rec, 1001)
  {
    RangeEntries(0, 0);
    NoEntry(z, [], 2000);
    assert [] + [0] == [0];
    assert Extend(z, [], 0, 2000) == Extend(z, [0], 1, 2000);
    ExtendFlat(z, [0], 1, 3, 2000);
    ExtendGrowing(z, [0], 3, 1002, 2000);
  }

  /** The full table is exact. */
  lemma CrowdedExact(z: seq<nat>, rec: seq<nat>)
    requires Crowded(z) && CrowdedTable(rec)
    ensures TableOk(z, rec, 1001) && Exact(z, rec, 1001)
  {
    CrowdedFills(z, rec);
    AllocateKeeps(z, [], -1, 2000);
    assert Records(z, []);
    AllocateExact(z, [], -1, 2000);
  }

  lemma TwoRecords(z: seq<nat>)
    requires |z| >= 2 && 0 < z[0] < z[1] < 30
    ensures Collect(z, [], 0, 2, 30) == Range(0, 2)
  {
    CollectGrowing(z, [], 0, 2, 30);
    assert [] + Range(0, 2) == Range(0, 2);
  }

  /** When the 30 words are taken, the blocks of 10 and 20 words become entries. */
  lemma CrowdedEntries(z: seq<nat>, rec: seq<nat>)
    requires Crowded(z) && CrowdedTable(rec)
    ensures CanTake(z, rec, 30, 0) && NewEntries(z, rec, 30, 0) == Range(0, 2) && Taken(z, 0, 30) == z[1..]
  {
    CrowdedExact(z, rec);
    var z1 := z[1..];
    assert Taken(z, 0, 30) == z1;
    TwoRecords(z1);
    assert rec[..0] == [] && rec[0] == 0 && rec[1] == 3 && Moved(0, true, 3) == 2;
  }

  lemma CrowdedSpliced(z: seq<nat>, rec: seq<nat>)
    requires Crowded(z) && CrowdedTable(rec)
    ensures CanTake(z, rec, 30, 0) && Spliced(z, rec, 30, 0) == Range(0, 1001)
  {
    CrowdedEntries(z, rec);
    TakeWhere(z, rec, 30, 0);
    var later := rec[1..];
    assert MovedAll(later, 0, true) == Range(2, 1001);
    assert Range(0, 2) + Range(2, 1001) == Range(0, 1001);
  }

  /** There is no room for all entries, and `beyond` skips the block of 1037 words. */
  lemma CrowdedTaken(z: seq<nat>, rec: seq<nat>)
    requires Crowded(z) && CrowdedTable(rec)
    ensures Ready(z, rec, 1001, 30) && Allocate(z, rec, 1001, 30) == Pick(0, Range(0, 999), 999)
  {
    CrowdedExact(z, rec);
    CrowdedEntries(z, rec);
    CrowdedSpliced(z, rec);
    assert FindEntry(z, rec, 30, 0) == 0;
    assert Range(0, 1001)[..999] == Range(0, 999);
  }

  /** A request for 1037 words takes the block of 1038 words. */
  lemma CrowdedWrong(z: seq<nat>, rec: seq<nat>)
    requires |z| == 1001 && z[998] == 1036 && z[999] == 1037 && z[1000] == 1038 && rec == Range(0, 999)
    requires forall j :: 0 <= j < 999 ==> z[j] < 1037
    ensures !Exact(z, rec, 999) && Ready(z, rec, 999, 1037)
    ensures Allocate(z, rec, 999, 1037).Pick? && Allocate(z, rec, 999, 1037).c == 1000
    ensures !FirstFit(z, 1037, 1000) && FirstFit(z, 1037, 999)
  {
    RangeEntries(0, 999);
    NoEntry(z, rec, 1037);
    ExtendIs(z, rec, 1000, 1037);
    assert Extend(z, rec, 1000, 1037) == Found(rec + [1000]);
  }

  /** From an empty table on, a request that fails, one for 30 and one for 1037 words lead to a
      block that is not the first that is large enough: the table is full and exact at first,
      but has no room for the entries that take the place of the block of 30 words. */
  lemma OverflowExample() returns (z: seq<nat>, full: seq<nat>, z1: seq<nat>, rec1: seq<nat>)
    ensures Crowded(z) && z1 == z[1..]
    ensures Ready(z, [], -1, 2000) && Allocate(z, [], -1, 2000) == Fail(full, 1001) && Exact(z, full, 1001)
    ensures Ready(z, full, 1001, 30) && Allocate(z, full, 1001, 30) == Pick(0, rec1, 999) && Taken(z, 0, 30) == z1
    ensures !Exact(z1, rec1, 999) && Ready(z1, rec1, 999, 1037)
    ensures Allocate(z1, rec1, 999, 1037).Pick? && Allocate(z1, rec1, 999, 1037).c == 1000
    ensures !FirstFit(z1, 1037, 1000) && FirstFit(z1, 1037, 999)
  {
    z, full := [30, 10, 20] + seq(999, k requires 0 <= k < 999 => 40 + k), [0] + Range(3, 1002);
    z1, rec1 := z[1..], Range(0, 999);
    CrowdedFills(z, full);
    CrowdedExact(z, full);
    CrowdedEntries(z, full);
    CrowdedTaken(z, full);
    CrowdedWrong(z1, rec1);
  }

  // ----- `beyond` is out of date -----

  /** Free blocks of 30, 31, ..., 1029 and then of 5, 1031, 3 and `last` words. */
  ghost predicate Trailing(z: seq<nat>, last: nat) {
    && |z| == 1004 && (forall j :: 0 <= j < 1000 ==> z[j] == 30 + j)
    && z[1000] == 5 && z[1001] == 1031 && z[1002] == 3 && z[1003] == last
  }

  /** A request for 1039 words fills the table and searches on behind it: `beyond` is at the block
      of 3 words then, behind one of 1031 words. */
  lemma TrailingSearch(z: seq<nat>, rec: seq<nat>)
    requires Trailing(z, 1079) && rec == Range(0, 1000)
    ensures Ready(z, [], -1, 1039) && Allocate(z, [], -1, 1039) == Pick(1003, rec, 1002)
    ensures Taken(z, 1003, 1039) == z[1003 := 39]
  {
    RangeEntries(0, 0);
    NoEntry(z, [], 1039);
    ExtendGrowing(z, [], 0, 1000, 1039);
    assert [] + rec == rec;
    assert Slow(z, 1000, 1039, 1029, 999) == Slow(z, 1001, 1039, 1029, 1000);
    assert Slow(z, 1001, 1039, 1029, 1000) == Slow(z, 1002, 1039, 1029, 1000);
    assert Slow(z, 1002, 1039, 1029, 1000) == Slow(z, 1003, 1039, 1029, 1002);
  }

  lemma TrailingExact(z: seq<nat>, rec: seq<nat>)
    requires Trailing(z, 1079) && rec == Range(0, 1000)
    ensures TableOk(z[1003 := 39], rec, 1002) && Exact(z[1003 := 39], rec, 1002)
  {
    TrailingSearch(z, rec);
    AllocateKeeps(z, [], -1, 1039);
    assert Records(z, []);
    AllocateExact(z, [], -1, 1039);
  }

  /** A request for 30 words takes the first entry and puts none in its place. */
  lemma TrailingTaken(z: seq<nat>, rec: seq<nat>)
    requires Trailing(z, 39) && rec == Range(0, 1000) && TableOk(z, rec, 1002)
    ensures Ready(z, rec, 1002, 30) && Allocate(z, rec, 1002, 30) == Pick(0, Range(0, 999), 1001)
    ensures Taken(z, 0, 30) == z[1..]
  {
    assert Taken(z, 0, 30) == z[1..];
    assert FindEntry(z, rec, 30, 0) == 0;
    TakeWhere(z, rec, 30, 0);
    assert rec[..0] == [] && NewEntries(z, rec, 30, 0) == [];
    var later := rec[1..];
    assert [] + MovedAll(later, 0, true) == Range(0, 999);
  }

  /** A request for 1031 words fails. */
  lemma TrailingFails(z: seq<nat>, rec: seq<nat>)
    requires Trailing(z, 39) && rec == Range(0, 999)
    ensures !Exact(z[1..], rec, 1001) && Ready(z[1..], rec, 1001, 1031) && Allocate(z[1..], rec, 1001, 1031).Fail?
  {
    var z1 := z[1..];
    RangeEntries(0, 999);
    assert z1[1000] == 1031 && z1[998] == 1029 && z1[1002] == 39;
    NoEntry(z1, rec, 1031);
    assert Extend(z1, rec, 1002, 1031) == Extend(z1, rec, 1003, 1031) == Ended(rec);
  }

  /** From an empty table on, requests for 1039, 30 and 1031 words: the last one fails although
      there is a block of 1031 words. The table never overflows. */
  lemma StaleExample() returns (z: seq<nat>, full: seq<nat>, z1: seq<nat>, z2: seq<nat>, rec2: seq<nat>)
    ensures Trailing(z, 1079) && z1 == z[1003 := 39] && z2 == z1[1..]
    ensures Ready(z, [], -1, 1039) && Allocate(z, [], -1, 1039) == Pick(1003, full, 1002)
    ensures Taken(z, 1003, 1039) == z1 && Exact(z1, full, 1002)
    ensures Ready(z1, full, 1002, 30) && Allocate(z1, full, 1002, 30) == Pick(0, rec2, 1001) && Taken(z1, 0, 30) == z2
    ensures !Exact(z2, rec2, 1001)
    ensures Ready(z2, rec2, 1001, 1031) && Allocate(z2, rec2, 1001, 1031).Fail? && z2[1000] == 1031
  {
    z, full := seq(1000, k requires 0 <= k < 1000 => 30 + k) + [5, 1031, 3, 1079], Range(0, 1000);
    z1, rec2 := z[1003 := 39], Range(0, 999);
    z2 := z1[1..];
    TrailingSearch(z, full);
    TrailingExact(z, full);
    TrailingTaken(z1, full);
    TrailingFails(z1, rec2);
  }

  // ----- The buffer overflows -----

  /** Free blocks of 5000, then 1, 2, ..., 1001, then `last` words. */
  ghost predicate Stairs(z: seq<nat>, last: nat) {
    |z| == 1003 && z[0] == 5000 && z[1002] == last && forall j :: 1 <= j < 1002 ==> z[j] == j
  }

  lemma StairsTable(z: seq<nat>, rec: seq<nat>)
    requires Stairs(z, 20000) && rec == [0, 1002]
    ensures Ready(z, [], -1, 6000) && Allocate(z, [], -1, 6000) == Pick(1002, rec, -1)
    ensures Taken(z, 1002, 6000) == z[1002 := 13999]
    ensures TableOk(z[1002 := 13999], rec, -1) && Exact(z[1002 := 13999], rec, -1)
  {
    RangeEntries(0, 0);
    NoEntry(z, [], 6000);
    assert [] + [0] == [0] && [0] + [1002] == rec && rec[..1] == [0];
    assert Extend(z, [], 0, 6000) == Extend(z, [0], 1, 6000);
    ExtendFlat(z, [0], 1, 1002, 6000);
    assert Extend(z, [0], 1002, 6000) == Found(rec);
    AllocateKeeps(z, [], -1, 6000);
    assert Records(z, []);
    AllocateExact(z, [], -1, 6000);
  }

  lemma StairsOverrun(z: seq<nat>, rec: seq<nat>)
    requires Stairs(z, 13999) && rec == [0, 1002] && TableOk(z, rec, -1)
    ensures Ready(z, rec, -1, 5000) && Allocate(z, rec, -1, 5000) == Overrun
  {
    assert FindEntry(z, rec, 5000, 0) == 0;
    assert Taken(z, 0, 5000) == z[1..];
    CollectGrowing(z[1..], [], 0, 1001, 5000);
    assert rec[..0] == [];
    TakeWhere(z, rec, 5000, 0);
    assert |NewEntries(z, rec, 5000, 0)| == 1001;
  }

  /** From an empty table on, requests for 6000 and 5000 words: the second one finds 1001 new
      entries, one more than the buffer has room for, although the table is exact. */
  lemma OverrunExample() returns (z: seq<nat>, z1: seq<nat>, rec: seq<nat>)
    ensures Stairs(z, 20000) && z1 == z[1002 := 13999]
    ensures Ready(z, [], -1, 6000) && Allocate(z, [], -1, 6000) == Pick(1002, rec, -1) && Taken(z, 1002, 6000) == z1
    ensures Exact(z1, rec, -1) && Ready(z1, rec, -1, 5000) && Allocate(z1, rec, -1, 5000) == Overrun
  {
    z, rec := [5000] + seq(1001, k requires 0 <= k < 1001 => 1 + k) + [20000], [0, 1002];
    z1 := z[1002 := 13999];
    StairsTable(z, rec);
    StairsOverrun(z1, rec);
  }
}
