/**
 The table `flp` of the first-fit policy, on the sizes of the listed blocks. The table has
 the predecessors of the blocks that are larger than all blocks before them, up to some
 point of the list, so that a search in the table finds the first block that is large
 enough. Here an entry is the position of its block in the list.
 */
module FreeListIndex {
  const FLP_MAX: nat := 1000

  /** Element `c` is the first that is large enough. */
  ghost predicate FirstFit(z: seq<nat>, w: nat, c: nat) {
    c < |z| && z[c] >= w && forall j :: 0 <= j < c ==> z[j] < w
  }

  ghost predicate NoFit(z: seq<nat>, w: nat) {
    forall j :: 0 <= j < |z| ==> z[j] < w
  }

  function SizeOf(z: seq<nat>, j: nat): nat {
    if j < |z| then z[j] else 0
  }

  /** The size of the last of the first `k` entries. */
  function Top(z: seq<nat>, rec: seq<nat>, k: nat): nat
    requires k <= |rec|
  {
    if k == 0 then 0 else SizeOf(z, rec[k - 1])
  }

  /** No element before position `p` is larger than `size`. */
  ghost predicate Below(z: seq<nat>, p: nat, size: nat) {
    forall j :: 0 <= j < p && j < |z| ==> z[j] <= size
  }

  /** No element from position `p` up to position `q` is large enough. */
  ghost predicate Small(z: seq<nat>, w: nat, p: nat, q: nat) {
    forall j :: p <= j < q && j < |z| ==> z[j] < w
  }

  ghost predicate Record(z: seq<nat>, rec: seq<nat>, k: nat) {
    k < |rec| ==> SizeOf(z, rec[k]) > Top(z, rec, k) && Below(z, rec[k], Top(z, rec, k))
  }

  /** `rec` are the positions of the first records of the list. */
  ghost predicate Records(z: seq<nat>, rec: seq<nat>) {
    forall k: nat {:trigger Record(z, rec, k)} :: Record(z, rec, k)
  }

  ghost predicate InOrder(rec: seq<nat>, i: nat, j: nat) {
    i < j < |rec| ==> rec[i] < rec[j]
  }

  ghost predicate Increasing(rec: seq<nat>) {
    forall i: nat, j: nat {:trigger InOrder(rec, i, j)} :: InOrder(rec, i, j)
  }

  /** The entries are before position `p`. */
  ghost predicate EndsBy(rec: seq<nat>, p: nat) {
    rec != [] ==> rec[|rec| - 1] < p
  }

  /** Positions in order, all before position `p`. */
  ghost predicate Entries(rec: seq<nat>, p: nat) {
    Increasing(rec) && EndsBy(rec, p)
  }

  /** No entry is large enough. */
  ghost predicate TableSmall(z: seq<nat>, rec: seq<nat>, w: nat) {
    forall k :: 0 <= k < |rec| ==> SizeOf(z, rec[k]) < w
  }

  lemma EntryBefore(rec: seq<nat>, p: nat, k: nat)
    requires Entries(rec, p) && k < |rec|
    ensures rec[k] < p && rec[k] <= rec[|rec| - 1]
  {
    assert InOrder(rec, k, |rec| - 1);
  }

  lemma PrefixEntries(rec: seq<nat>, p: nat, n: nat)
    requires Entries(rec, p) && n <= |rec|
    ensures Entries(rec[..n], p) && (n < |rec| ==> Entries(rec[..n], rec[n]))
  {
    forall i: nat, j: nat ensures InOrder(rec[..n], i, j) {
      assert InOrder(rec, i, j);
    }
    if n > 0 {
      EntryBefore(rec, p, n - 1);
      assert InOrder(rec, n - 1, n);
    }
  }

  lemma PrefixRecords(z: seq<nat>, rec: seq<nat>, n: nat)
    requires Records(z, rec) && n <= |rec|
    ensures Records(z, rec[..n])
  {
    forall k: nat ensures Record(z, rec[..n], k) {
      assert Record(z, rec, k);
    }
  }

  lemma AppendEntry(rec: seq<nat>, p: nat)
    requires Entries(rec, p)
    ensures Entries(rec + [p], p + 1)
  {
    forall i: nat, j: nat ensures InOrder(rec + [p], i, j) {
      assert InOrder(rec, i, j);
      if i < |rec| {
        EntryBefore(rec, p, i);
      }
    }
  }

  lemma AppendRecord(z: seq<nat>, rec: seq<nat>, p: nat)
    requires Records(z, rec) && Below(z, p, Top(z, rec, |rec|)) && SizeOf(z, p) > Top(z, rec, |rec|)
    ensures Records(z, rec + [p])
  {
    forall k: nat ensures Record(z, rec + [p], k) {
      assert Record(z, rec, k);
      assert k <= |rec| ==> Top(z, rec + [p], k) == Top(z, rec, k);
    }
  }

  /** Later records are larger. */
  lemma {:induction false} RecordsGrow(z: seq<nat>, rec: seq<nat>, i: nat, j: nat)
    requires Records(z, rec) && i < j < |rec|
    ensures SizeOf(z, rec[i]) < SizeOf(z, rec[j]) && rec[i] < rec[j] < |z|
    decreases j - i
  {
    assert Record(z, rec, j) && Record(z, rec, j - 1);
    if i < j - 1 {
      RecordsGrow(z, rec, i, j - 1);
    }
  }

  /** The first record that is large enough is the first block that is. */
  lemma RecordIsFirstFit(z: seq<nat>, rec: seq<nat>, k: nat, w: nat)
    requires Records(z, rec) && k < |rec| && Top(z, rec, k) < w <= SizeOf(z, rec[k])
    ensures FirstFit(z, w, rec[k])
  {
    assert Record(z, rec, k);
  }

  // ----- Searching the table -----

  function FindEntry(z: seq<nat>, rec: seq<nat>, w: nat, i: nat): nat
    decreases |rec| - i
  {
    if i >= |rec| then |rec| else if SizeOf(z, rec[i]) >= w then i else FindEntry(z, rec, w, i + 1)
  }

  lemma {:induction false} FindEntryIs(z: seq<nat>, rec: seq<nat>, w: nat, i: nat)
    requires i <= |rec|
    ensures var k := FindEntry(z, rec, w, i);
            && i <= k <= |rec| && (k < |rec| ==> SizeOf(z, rec[k]) >= w)
            && forall j :: i <= j < k ==> SizeOf(z, rec[j]) < w
    decreases |rec| - i
  {
    if i < |rec| && SizeOf(z, rec[i]) < w {
      FindEntryIs(z, rec, w, i + 1);
    }
  }

  // ----- Extending the table -----

  datatype Scan = Found(rec: seq<nat>) | Ended(rec: seq<nat>) | Full(rec: seq<nat>)

  /** Extend the table from position `p` on until an entry is large enough, the list ends or
      the table is full. */
  function Extend(z: seq<nat>, rec: seq<nat>, p: nat, w: nat): Scan
    decreases |z| - p
  {
    if |rec| >= FLP_MAX then Full(rec)
    else if p >= |z| then Ended(rec)
    else if z[p] <= Top(z, rec, |rec|) then Extend(z, rec, p + 1, w)
    else if z[p] >= w then Found(rec + [p])
    else Extend(z, rec + [p], p + 1, w)
  }

  /** What an extension from position `p` on gives. */
  ghost predicate Extension(z: seq<nat>, rec: seq<nat>, p: nat, w: nat, s: Scan) {
    && rec <= s.rec && Entries(s.rec, |z|) && |s.rec| <= FLP_MAX
    && match s
       case Found(r) => Hit(z, r, w) && |rec| < |r| && r[|r| - 1] >= p && Small(z, w, p, r[|r| - 1])
       case Ended(r) => TableSmall(z, r, w) && |r| < FLP_MAX && Small(z, w, p, |z|)
       case Full(r) =>
         && TableSmall(z, r, w) && |r| == FLP_MAX
         && (|rec| < |r| ==> r[|r| - 1] >= p && Small(z, w, p, r[|r| - 1]))
  }

  /** The last entry is the only one that is large enough. */
  ghost predicate Hit(z: seq<nat>, rec: seq<nat>, w: nat) {
    rec != [] && SizeOf(z, rec[|rec| - 1]) >= w && TableSmall(z, rec[..|rec| - 1], w)
  }

  lemma {:induction false} ExtendIs(z: seq<nat>, rec: seq<nat>, p: nat, w: nat)
    requires Entries(rec, p) && p <= |z| && |rec| <= FLP_MAX && TableSmall(z, rec, w) && w >= 1
    ensures Extension(z, rec, p, w, Extend(z, rec, p, w)) == true
    decreases |z| - p
  {
    if |rec| < FLP_MAX && p < |z| {
      AppendEntry(rec, p);
      if z[p] <= Top(z, rec, |rec|) {
        ExtendIs(z, rec, p + 1, w);
      } else if z[p] >= w {
        assert (rec + [p])[..|rec|] == rec;
      } else {
        ExtendIs(z, rec + [p], p + 1, w);
      }
    }
  }

  /** An exact table stays so: its entries are records, and all up to where it ends are. */
  lemma {:induction false} ExtendExact(z: seq<nat>, rec: seq<nat>, p: nat, w: nat)
    requires Records(z, rec) && p <= |z| && (|rec| < FLP_MAX ==> Below(z, p, Top(z, rec, |rec|)))
    ensures var s := Extend(z, rec, p, w);
            && Records(z, s.rec) && (s.Ended? ==> Below(z, |z|, Top(z, s.rec, |s.rec|)))
    decreases |z| - p
  {
    if |rec| < FLP_MAX && p < |z| {
      if z[p] <= Top(z, rec, |rec|) {
        ExtendExact(z, rec, p + 1, w);
      } else {
        AppendRecord(z, rec, p);
        if z[p] < w {
          ExtendExact(z, rec + [p], p + 1, w);
        }
      }
    }
  }

  // ----- Searching behind a full table -----

  datatype Search = Search(c: nat, mark: int)

  /** The first element from position `p` on that is large enough; `mark` moves to the
      elements on the way that are smaller than the last entry, which has `top` words. */
  function Slow(z: seq<nat>, p: nat, w: nat, top: nat, mark: int): Search
    decreases |z| - p
  {
    if p >= |z| then Search(|z|, mark)
    else if z[p] < top then Slow(z, p + 1, w, top, p)
    else if z[p] >= w then Search(p, mark)
    else Slow(z, p + 1, w, top, mark)
  }

  /** `s.mark` is the last element before `s.c` that is smaller than `top`, or what it was: all
      that it skips is too small for `w`, but it may be larger than `top`. */
  ghost predicate SearchedFrom(z: seq<nat>, p: nat, w: nat, top: nat, mark: int, s: Search) {
    && p <= s.c <= |z| && Small(z, w, p, s.c) && (s.c < |z| ==> z[s.c] >= w)
    && (s.mark == mark || (p <= s.mark < s.c && z[s.mark] < top))
    && forall j :: p <= j < s.c && j > s.mark ==> z[j] >= top
  }

  lemma {:induction false} SlowIs(z: seq<nat>, p: nat, w: nat, top: nat, mark: int)
    requires p <= |z| && top < w && mark < p
    ensures SearchedFrom(z, p, w, top, mark, Slow(z, p, w, top, mark)) == true
    decreases |z| - p
  {
    if p < |z| {
      if z[p] < top {
        SlowIs(z, p + 1, w, top, p);
      } else if z[p] < w {
        SlowIs(z, p + 1, w, top, mark);
      }
    }
  }

  // ----- Taking words from an element -----

  predicate Detached(z: seq<nat>, c: nat, w: nat)
    requires c < |z|
  {
    z[c] < w + 2
  }

  /** The sizes once a block of `w` words has been taken from element `c`. */
  function Taken(z: seq<nat>, c: nat, w: nat): seq<nat>
    requires c < |z| && z[c] >= w
  {
    if Detached(z, c, w) then z[..c] + z[c + 1..] else z[c := z[c] - w - 1]
  }

  /** Where element `j` of the old list is in the new one. */
  function Moved(c: nat, detached: bool, j: int): int {
    if detached && j > c then j - 1 else j
  }

  function MovedAll(rec: seq<nat>, c: nat, detached: bool): (r: seq<nat>)
    requires forall k :: 0 <= k < |rec| ==> rec[k] > c
    ensures |r| == |rec| && forall k :: 0 <= k < |rec| ==> r[k] == Moved(c, detached, rec[k])
  {
    seq(|rec|, k requires 0 <= k < |rec| => if detached then rec[k] - 1 else rec[k])
  }

  /** Sizes do not grow, and only that of element `c` changes. */
  lemma TakenSizes(z: seq<nat>, c: nat, w: nat, j: nat)
    requires c < |z| && z[c] >= w && j < |z|
    ensures j != c ==>
              && Moved(c, Detached(z, c, w), j) < |Taken(z, c, w)|
              && Taken(z, c, w)[Moved(c, Detached(z, c, w), j)] == z[j]
    ensures |Taken(z, c, w)| == if Detached(z, c, w) then |z| - 1 else |z|
    ensures !Detached(z, c, w) ==> Taken(z, c, w)[c] < z[c]
  {
  }

  /** Where an element of the new list was in the old one. */
  lemma TakenBack(z: seq<nat>, c: nat, w: nat, j: nat)
    requires c < |z| && z[c] >= w && j < |Taken(z, c, w)|
    ensures var j0 := if Detached(z, c, w) && j >= c then j + 1 else j;
            j0 < |z| && Taken(z, c, w)[j] <= z[j0] && (j != c ==> Taken(z, c, w)[j] == z[j0])
  {
  }

  /** Collect the records from position `p` up to position `q`, until one is as large as
      `limit`. */
  function Collect(z: seq<nat>, rec: seq<nat>, p: nat, q: nat, limit: nat): seq<nat>
    decreases q - p
  {
    if p >= q then rec
    else if SizeOf(z, p) <= Top(z, rec, |rec|) then Collect(z, rec, p + 1, q, limit)
    else if SizeOf(z, p) >= limit then rec + [p]
    else Collect(z, rec + [p], p + 1, q, limit)
  }

  lemma {:induction false} CollectPrefix(z: seq<nat>, rec: seq<nat>, p: nat, q: nat, limit: nat)
    ensures rec <= Collect(z, rec, p, q, limit)
    decreases q - p
  {
    if p < q {
      if SizeOf(z, p) <= Top(z, rec, |rec|) {
        CollectPrefix(z, rec, p + 1, q, limit);
      } else if SizeOf(z, p) < limit {
        CollectPrefix(z, rec + [p], p + 1, q, limit);
      }
    }
  }

  lemma {:induction false} CollectIs(z: seq<nat>, rec: seq<nat>, p: nat, q: nat, limit: nat)
    requires Entries(rec, p) && p <= q
    ensures var r := Collect(z, rec, p, q, limit);
            rec <= r && Entries(r, q) && |r| - |rec| <= q - p
    decreases q - p
  {
    if p < q {
      AppendEntry(rec, p);
      if SizeOf(z, p) <= Top(z, rec, |rec|) {
        CollectIs(z, rec, p + 1, q, limit);
      } else if SizeOf(z, p) < limit {
        CollectIs(z, rec + [p], p + 1, q, limit);
      }
    }
  }

  /** When no element up to `q` is larger than `limit`, these are all the records. */
  lemma {:induction false} CollectExact(z: seq<nat>, rec: seq<nat>, p: nat, q: nat, limit: nat)
    requires Records(z, rec) && p <= q <= |z| && Below(z, p, Top(z, rec, |rec|)) && Below(z, q, limit)
    requires Top(z, rec, |rec|) <= limit
    ensures var r := Collect(z, rec, p, q, limit);
            Records(z, r) && Below(z, q, Top(z, r, |r|)) && Top(z, r, |r|) <= limit
    decreases q - p
  {
    if p < q {
      if SizeOf(z, p) <= Top(z, rec, |rec|) {
        CollectExact(z, rec, p + 1, q, limit);
      } else {
        AppendRecord(z, rec, p);
        if SizeOf(z, p) < limit {
          CollectExact(z, rec + [p], p + 1, q, limit);
        }
      }
    }
  }
}
