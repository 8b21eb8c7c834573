/**
 The table `flp` and `beyond` as they are in memory, pointers to free blocks, against the
 positions that they stand for; and what the changes of the free blocks do to the sizes.
 */
module FreeListTable {
  import opened Mlvalues
  import opened Blocks
  import opened FreeList
  import opened FreeListMerge
  import opened FreeListSteps
  import opened FreeListIndex
  import opened FreeListPick

  // ----- Sizes -----

  /** The sizes of the listed blocks. */
  ghost function Sizes(h: Heap, fl: seq<nat>): (z: seq<nat>)
    ensures |z| == |fl|
  {
    seq(|fl|, k requires 0 <= k < |fl| => if fl[k] in h then h[fl[k]].wosize else 0)
  }

  lemma ListedSize(h: Heap, fl: seq<nat>, c: nat)
    requires Lists(h, fl) && c < |fl|
    ensures fl[c] in h && h[fl[c]].color == Blue && Sizes(h, fl)[c] == h[fl[c]].wosize >= 1
  {
    assert IsFree(h, fl[c]);
  }

  lemma SplitSizes(h: Heap, chunks: seq<Chunk>, fl: seq<nat>, c: nat, b: Block)
    requires Tiled(h, chunks) && Lists(h, fl) && c < |fl| && CanSplit(h, fl[c], b.wosize)
    ensures Detached(Sizes(h, fl), c, b.wosize) == Detaches(h, fl, c, b.wosize) && Sizes(h, fl)[c] >= b.wosize
    ensures Sizes(Split(h, fl[c], b), ListAfter(h, fl, c, b.wosize)) == Taken(Sizes(h, fl), c, b.wosize)
  {
    var h', fl' := Split(h, fl[c], b), ListAfter(h, fl, c, b.wosize);
    var z, z' := Sizes(h, fl), Sizes(h', fl');
    SplitFresh(h, chunks, fl[c], b.wosize);
    forall j: nat | j < |fl'| ensures z'[j] == Taken(z, c, b.wosize)[j] {
      var j0 := if Detaches(h, fl, c, b.wosize) && j >= c then j + 1 else j;
      assert fl'[j] == fl[j0];
      SortedIndex(fl, j0, c);
      assert IsFree(h, fl[j0]);
    }
  }

  lemma AddedSizes(h: Heap, fl: seq<nat>, c: nat, a: nat, wosize: nat)
    requires Lists(h, fl) && a !in h && c <= |fl|
    ensures Sizes(WithBlock(h, a, wosize), Insert(fl, c, a)) == Inserted(Sizes(h, fl), c, wosize)
  {
    NotListed(h, fl, a);
    var h', fl' := WithBlock(h, a, wosize), Insert(fl, c, a);
    forall j: nat | j < |fl'| ensures Sizes(h', fl')[j] == Inserted(Sizes(h, fl), c, wosize)[j] {
      if j != c {
        var j0: nat := if j < c then j else j - 1;
        assert fl'[j] == fl[j0];
        assert fl[j0] in fl;
      }
    }
  }

  lemma SameShapeSizes(h: Heap, fl: seq<nat>, h': Heap)
    requires SameShape(h, h')
    ensures Sizes(h', fl) == Sizes(h, fl)
  {
    assert forall a :: a in h' <==> a in h.Keys;
  }

  // ----- The table in memory -----

  ghost predicate Placed(fl: seq<nat>, flp: seq<Link>, rec: seq<nat>, k: nat) {
    k < |rec| && k < |flp| ==> rec[k] < |fl| && flp[k] == Predecessor(fl, rec[k])
  }

  /** The table has the predecessors of the elements at the positions `rec`. */
  ghost predicate Places(fl: seq<nat>, flp: seq<Link>, rec: seq<nat>) {
    |flp| == |rec| && forall k: nat {:trigger Placed(fl, flp, rec, k)} :: Placed(fl, flp, rec, k)
  }

  /** The element at position `p`, NULL if there is none. */
  function LinkOf(fl: seq<nat>, p: int): Link {
    if 0 <= p < |fl| then At(fl[p]) else Nil
  }

  lemma PlacedAt(fl: seq<nat>, next: map<Link, Link>, flp: seq<Link>, rec: seq<nat>, k: nat)
    requires Chain(next, fl) && Places(fl, flp, rec) && k < |rec|
    ensures rec[k] < |fl| && flp[k] == Predecessor(fl, rec[k]) && flp[k] in next && next[flp[k]] == At(fl[rec[k]])
  {
    assert Placed(fl, flp, rec, k) && Linked(next, fl, rec[k]);
  }

  lemma AppendPlace(fl: seq<nat>, flp: seq<Link>, rec: seq<nat>, p: nat)
    requires Places(fl, flp, rec) && p < |fl|
    ensures Places(fl, flp + [Predecessor(fl, p)], rec + [p])
  {
    forall k: nat ensures Placed(fl, flp + [Predecessor(fl, p)], rec + [p], k) {
      assert Placed(fl, flp, rec, k);
    }
  }

  lemma PrefixPlaces(fl: seq<nat>, flp: seq<Link>, rec: seq<nat>, n: nat)
    requires Places(fl, flp, rec) && n <= |rec|
    ensures Places(fl, flp[..n], rec[..n])
  {
    forall k: nat ensures Placed(fl, flp[..n], rec[..n], k) {
      assert Placed(fl, flp, rec, k);
    }
  }

  lemma ConcatPlaces(fl: seq<nat>, a: seq<Link>, b: seq<Link>, r: seq<nat>, s: seq<nat>)
    requires Places(fl, a, r) && Places(fl, b, s)
    ensures Places(fl, a + b, r + s)
  {
    forall k: nat ensures Placed(fl, a + b, r + s, k) {
      assert Placed(fl, a, r, k) && (k >= |r| ==> Placed(fl, b, s, k - |r|));
    }
  }

  /** Entries before position `n` do not depend on what comes from there on. */
  lemma FrontPlaces(fl: seq<nat>, flp: seq<Link>, rec: seq<nat>, fl': seq<nat>, n: nat)
    requires Places(fl, flp, rec) && Entries(rec, n) && n <= |fl| && n <= |fl'| && fl[..n] == fl'[..n]
    ensures Places(fl', flp, rec)
  {
    forall k: nat ensures Placed(fl', flp, rec, k) {
      assert Placed(fl, flp, rec, k);
      if k < |rec| {
        EntryBefore(rec, n, k);
        assert rec[k] > 0 ==> fl[..n][rec[k] - 1] == fl'[..n][rec[k] - 1];
      }
    }
  }

  // ----- An element is taken -----

  function ListWithout(fl: seq<nat>, c: nat, detached: bool): seq<nat>
    requires c < |fl|
  {
    if detached then Without(fl, c) else fl
  }

  /** The entries before entry `i` stay right when its element is detached. */
  lemma EarlierPlaces(fl: seq<nat>, flp: seq<Link>, rec: seq<nat>, i: nat, detached: bool)
    requires Places(fl, flp, rec) && Entries(rec, |fl|) && i < |rec|
    ensures rec[i] < |fl| && Places(ListWithout(fl, rec[i], detached), flp[..i], rec[..i])
  {
    EntryBefore(rec, |fl|, i);
    PrefixPlaces(fl, flp, rec, i);
    PrefixEntries(rec, |fl|, i);
    assert fl[..rec[i]] == ListWithout(fl, rec[i], detached)[..rec[i]];
    FrontPlaces(fl, flp[..i], rec[..i], ListWithout(fl, rec[i], detached), rec[i]);
  }

  /** A later entry points to the same predecessor, unless that was the detached element. */
  lemma LaterPlace(fl: seq<nat>, flp: seq<Link>, rec: seq<nat>, i: nat, detached: bool, k: nat)
    requires Sorted(fl) && Places(fl, flp, rec) && Entries(rec, |fl|) && i < k < |rec|
    ensures rec[i] < rec[k] < |fl|
    ensures var p, fl' := Moved(rec[i], detached, rec[k]), ListWithout(fl, rec[i], detached);
            && rec[i] <= p < |fl'|
            && Predecessor(fl', p) == if detached && flp[k] == At(fl[rec[i]]) then Predecessor(fl, rec[i]) else flp[k]
    ensures k > i + 1 ==> flp[k] != At(fl[rec[i]])
  {
    var c := rec[i];
    EntryBefore(rec, |fl|, k);
    assert Placed(fl, flp, rec, k) && InOrder(rec, i, k);
    SortedIndex(fl, rec[k] - 1, c);
    if k > i + 1 {
      assert InOrder(rec, i, k - 1) && InOrder(rec, k - 1, k);
    }
  }

  /** The later entries once the first of them has been corrected. */
  lemma LaterPlaces(fl: seq<nat>, flp: seq<Link>, rec: seq<nat>, i: nat, detached: bool, later: seq<Link>)
    requires Sorted(fl) && Places(fl, flp, rec) && Entries(rec, |fl|) && i + 1 < |rec| && rec[i] < |fl|
    requires later == flp[i + 1..][0 := if detached && flp[i + 1] == At(fl[rec[i]])
                                        then Predecessor(fl, rec[i]) else flp[i + 1]]
    ensures forall k :: i < k < |rec| ==> rec[i] < rec[k]
    ensures Places(ListWithout(fl, rec[i], detached), later, MovedAll(rec[i + 1..], rec[i], detached))
  {
    var c, fl' := rec[i], ListWithout(fl, rec[i], detached);
    forall k: nat | i < k < |rec| ensures c < rec[k] {
      assert InOrder(rec, i, k);
    }
    var moved := MovedAll(rec[i + 1..], c, detached);
    forall k: nat ensures Placed(fl', later, moved, k) {
      if k < |later| {
        LaterPlace(fl, flp, rec, i, detached, i + 1 + k);
        assert moved[k] == Moved(c, detached, rec[i + 1 + k]);
      }
    }
  }

  /** An element other than `c` is the same one, wherever it is now. */
  lemma LinkMoved(fl: seq<nat>, c: nat, detached: bool, p: int)
    requires c < |fl| && p != c && -1 <= p < |fl|
    ensures LinkOf(ListWithout(fl, c, detached), Moved(c, detached, p)) == LinkOf(fl, p)
  {
  }

  // ----- What the merge of a dead block leaves alone -----

  lemma FrontElement(h: Heap, chunks: seq<Chunk>, fl: seq<nat>, m: nat, a: nat, frag: int, p: Prev, j: nat)
    requires Place(h, chunks, fl, m, a) && FragmentOk(h, frag, a) && PrevOk(h, a, frag, p) && j < m - 1
    ensures IsFree(h, fl[j]) && fl[j] in Merge(h, a, frag, p) && Merge(h, a, frag, p)[fl[j]] == h[fl[j]]
  {
    SortedIndex(fl, j, m - 1);
    assert IsFree(h, fl[j]);
    if p.Prev? {
      PrevIsElement(h, chunks, fl, m, a, frag, p.hp);
    }
    MergedRange(h, chunks, a, frag, p, fl[j]);
    NextIsElement(h, chunks, fl, m, a);
  }

  /** Where the table is cut: at the last element before the merged block. */
  function CutAt(m: nat): nat {
    if m == 0 then 0 else m - 1
  }

  /** The elements before that one are untouched. */
  lemma ReclaimedFront(s: FreeState, p: Prev, s': FreeState)
    requires Inv(s) && Reclaims(s, p, s')
    ensures s.m <= |s.fl| && s.merge == Predecessor(s.fl, s.m) && CutAt(s.m) <= |s'.fl|
    ensures s.fl[..CutAt(s.m)] == s'.fl[..CutAt(s.m)]
    ensures Sizes(s.h, s.fl)[..CutAt(s.m)] == Sizes(s'.h, s'.fl)[..CutAt(s.m)]
  {
    MergePlace(s);
    JoinedIn(s.h, s.chunks, s.fl, s.m, s.sweep, s.fragment, s.sweep);
    var n := CutAt(s.m);
    assert s.fl[..n] == s'.fl[..n];
    forall j: nat | j < n ensures Sizes(s'.h, s'.fl)[j] == Sizes(s.h, s.fl)[j] {
      FrontElement(s.h, s.chunks, s.fl, s.m, s.sweep, s.fragment, p, j);
      assert s'.fl[j] == s'.fl[..n][j];
    }
  }
}
