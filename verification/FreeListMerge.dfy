/**
 What a merge or an extension does to the free list: which blocks are joined, and
 that the new list has exactly the free blocks of the new heap.
 */
module FreeListMerge {
  import opened Mlvalues
  import opened Blocks
  import opened FreeList

  /** The dead block `a` belongs between elements `m` - 1 and `m`. */
  ghost predicate Place(h: Heap, chunks: seq<Chunk>, fl: seq<nat>, m: nat, a: nat) {
    Tiled(h, chunks) && Lists(h, fl) && Belongs(fl, m, a) && a in h && h[a].color != Blue
  }

  ghost predicate FragmentOk(h: Heap, frag: int, a: nat) {
    frag >= 0 && frag + 1 == a ==> frag in h && h[frag].wosize == 0 && h[frag].color != Blue
  }

  // ----- The neighbours of the block -----

  lemma ListedIndex(h: Heap, fl: seq<nat>, x: nat) returns (i: nat)
    requires Lists(h, fl) && IsFree(h, x)
    ensures i < |fl| && fl[i] == x
  {
    assert x in fl;
    i :| 0 <= i < |fl| && fl[i] == x;
  }

  /** The free block just behind `a`, if there is one, is element `m`. */
  lemma NextIsElement(h: Heap, chunks: seq<Chunk>, fl: seq<nat>, m: nat, a: nat)
    requires Place(h, chunks, fl, m, a)
    ensures Element(fl, m) == At(End(h, a)) <==> IsFree(h, End(h, a))
  {
    if m < |fl| && fl[m] == End(h, a) {
      assert IsFree(h, fl[m]);
    }
    if IsFree(h, End(h, a)) {
      var i := ListedIndex(h, fl, End(h, a));
      assert i >= m;
      assert IsFree(h, fl[m]) && Blocks.Before(h, a, fl[m]) && Ordered(fl, m, i);
    }
  }

  /** The free block that ends where the joined block starts, if there is one, is
      element `m` - 1. */
  lemma PrevIsElement(h: Heap, chunks: seq<Chunk>, fl: seq<nat>, m: nat, a: nat, frag: int, p: nat)
    requires Place(h, chunks, fl, m, a) && FragmentOk(h, frag, a) && IsFree(h, p)
             && End(h, p) == JoinedStart(h, a, frag)
    ensures m > 0 && p == fl[m - 1]
  {
    var i := ListedIndex(h, fl, p);
    assert i < m;
    var x: nat, start: nat := fl[m - 1], JoinedStart(h, a, frag);
    SortedIndex(fl, i, m - 1);
    assert IsFree(h, x) && x < a;
    assert p < x ==> Blocks.Before(h, p, x);
    assert start < x ==> Blocks.Before(h, start, x);
  }

  // ----- The new list -----

  /** The list without the free block behind `a`, if that is joined. */
  function Joined(h: Heap, fl: seq<nat>, m: nat, a: nat, frag: int): seq<nat>
    requires m <= |fl|
  {
    if JoinsNext(h, a, frag) && m < |fl| then Without(fl, m) else fl
  }

  /** The list after the merge: the joined block is new unless the free block before it
      absorbs it or it is a lone header. */
  function MergedList(h: Heap, fl: seq<nat>, m: nat, a: nat, frag: int, prev: Prev): seq<nat>
    requires m <= |fl| && a in h
  {
    var fl1 := Joined(h, fl, m, a, frag);
    if prev.Prev? || StaysFragment(h, a, frag, prev) || m > |fl1| then fl1 else Insert(fl1, m, JoinedStart(h, a, frag))
  }

  lemma JoinedIn(h: Heap, chunks: seq<Chunk>, fl: seq<nat>, m: nat, a: nat, frag: int, x: nat)
    requires Place(h, chunks, fl, m, a)
    ensures m <= |Joined(h, fl, m, a, frag)|
    ensures JoinsNext(h, a, frag) ==> m < |fl| && fl[m] == End(h, a)
    ensures x in Joined(h, fl, m, a, frag) <==> x in fl && !(JoinsNext(h, a, frag) && x == End(h, a))
  {
    NextIsElement(h, chunks, fl, m, a);
    if JoinsNext(h, a, frag) {
      assert IsFree(h, End(h, a));
      WithoutIn(fl, m, x);
    }
  }

  lemma JoinedBelongs(h: Heap, chunks: seq<Chunk>, fl: seq<nat>, m: nat, a: nat, frag: int)
    requires Place(h, chunks, fl, m, a) && FragmentOk(h, frag, a)
    ensures Sorted(Joined(h, fl, m, a, frag)) && Belongs(Joined(h, fl, m, a, frag), m, JoinedStart(h, a, frag))
  {
    var fl1, start := Joined(h, fl, m, a, frag), JoinedStart(h, a, frag);
    JoinedIn(h, chunks, fl, m, a, frag, a);
    if JoinsNext(h, a, frag) {
      WithoutSorted(fl, m);
    }
    forall i | 0 <= i < m ensures fl1[i] < start {
      assert fl1[i] == fl[i] && IsFree(h, fl[i]);
      assert fl[i] < a && (start == a || fl[i] != start);
    }
    forall i | m <= i < |fl1| ensures start < fl1[i] {
      var k := if JoinsNext(h, a, frag) then i + 1 else i;
      assert fl1[i] == fl[k];
    }
  }

  /** Which blocks are free after the merge, in terms of the old heap. */
  lemma FreeAfter(h: Heap, chunks: seq<Chunk>, a: nat, frag: int, prev: Prev, x: nat)
    requires Tiled(h, chunks) && a in h && h[a].color != Blue && FragmentOk(h, frag, a)
             && (prev.Prev? ==> JoinsPrev(h, a, frag, prev.hp))
    requires !StaysFragment(h, a, frag, prev)
    ensures IsFree(Merge(h, a, frag, prev), x) <==>
              x == MergedStart(h, a, frag, prev) || (IsFree(h, x) && !(JoinsNext(h, a, frag) && x == End(h, a)))
  {
    MergedRange(h, chunks, a, frag, prev, x);
  }

  lemma ListedIsFree(h: Heap, fl: seq<nat>, x: nat)
    requires Lists(h, fl)
    ensures x in fl <==> IsFree(h, x)
  {
    if x in fl {
      var i :| 0 <= i < |fl| && fl[i] == x;
      assert IsFree(h, fl[i]);
    }
  }

  /** Which blocks are free after the merge. */
  lemma MergedFree(h: Heap, chunks: seq<Chunk>, fl: seq<nat>, m: nat, a: nat, frag: int, prev: Prev, x: nat)
    requires Place(h, chunks, fl, m, a) && FragmentOk(h, frag, a) && PrevOk(h, a, frag, prev)
    ensures IsFree(Merge(h, a, frag, prev), x) <==> x in MergedList(h, fl, m, a, frag, prev)
  {
    JoinedIn(h, chunks, fl, m, a, frag, x);
    ListedIsFree(h, fl, x);
    if !StaysFragment(h, a, frag, prev) {
      FreeAfter(h, chunks, a, frag, prev, x);
      InsertIn(Joined(h, fl, m, a, frag), m, JoinedStart(h, a, frag), x);
    }
  }

  /** The only free blocks in the merged stretch are the joined neighbours. */
  lemma MergedRange(h: Heap, chunks: seq<Chunk>, a: nat, frag: int, prev: Prev, x: nat)
    requires Tiled(h, chunks) && a in h && h[a].color != Blue && FragmentOk(h, frag, a)
             && (prev.Prev? ==> JoinsPrev(h, a, frag, prev.hp))
    ensures IsFree(h, x) && MergedStart(h, a, frag, prev) <= x < JoinedEnd(h, a, frag) ==>
              (JoinsNext(h, a, frag) && x == End(h, a)) || (prev.Prev? && x == prev.hp)
  {
    if IsFree(h, x) && MergedStart(h, a, frag, prev) <= x < JoinedEnd(h, a, frag) {
      var b, z := JoinedStart(h, a, frag), JoinedLast(h, a, frag);
      assert prev.Prev? && prev.hp < x ==> Blocks.Before(h, prev.hp, x);
      assert b < x ==> Blocks.Before(h, b, x);
      assert a < x ==> Blocks.Before(h, a, x);
      assert z < x ==> Blocks.Before(h, z, x);
      assert x < a && b <= x ==> x == b;
    }
  }

  lemma MergedSorted(h: Heap, chunks: seq<Chunk>, fl: seq<nat>, m: nat, a: nat, frag: int, prev: Prev)
    requires Place(h, chunks, fl, m, a) && FragmentOk(h, frag, a)
    ensures Sorted(MergedList(h, fl, m, a, frag, prev))
  {
    JoinedBelongs(h, chunks, fl, m, a, frag);
    InsertSorted(Joined(h, fl, m, a, frag), m, JoinedStart(h, a, frag));
  }

  lemma InsertSorted(fl: seq<nat>, c: nat, a: nat)
    requires Sorted(fl) && Belongs(fl, c, a)
    ensures Sorted(Insert(fl, c, a))
  {
    var fl' := Insert(fl, c, a);
    forall i: nat, j: nat ensures Ordered(fl', i, j) {
      assert Ordered(fl, if i < c then i else if i > c then i - 1 else 0, if j < c then j else if j > c then j - 1
             else 0);
    }
  }

  lemma MergedLists(h: Heap, chunks: seq<Chunk>, fl: seq<nat>, m: nat, a: nat, frag: int, prev: Prev)
    requires Place(h, chunks, fl, m, a) && FragmentOk(h, frag, a) && PrevOk(h, a, frag, prev)
    ensures Lists(Merge(h, a, frag, prev), MergedList(h, fl, m, a, frag, prev))
  {
    var h', fl' := Merge(h, a, frag, prev), MergedList(h, fl, m, a, frag, prev);
    MergedSorted(h, chunks, fl, m, a, frag, prev);
    forall x ensures IsFree(h', x) <==> x in fl' {
      MergedFree(h, chunks, fl, m, a, frag, prev, x);
    }
    forall i | 0 <= i < |fl'| ensures IsFree(h', fl'[i]) && h'[fl'[i]].wosize >= 1 {
      assert fl'[i] in fl';
      MergedBigEnough(h, chunks, fl, a, frag, prev, fl'[i]);
    }
  }

  lemma MergedBigEnough(h: Heap, chunks: seq<Chunk>, fl: seq<nat>, a: nat, frag: int, prev: Prev, x: nat)
    requires Tiled(h, chunks) && Lists(h, fl) && a in h && PrevOk(h, a, frag, prev)
             && IsFree(Merge(h, a, frag, prev), x)
    ensures Merge(h, a, frag, prev)[x].wosize >= 1
  {
    if IsFree(h, x) {
      var i := ListedIndex(h, fl, x);
    }
  }

  // ----- The words that are listed -----

  lemma {:induction false} TotalIsSum(h: Heap, fl: seq<nat>, n: nat)
    requires n <= |fl|
    ensures Total(h, fl) == Total(h, fl[..n]) + Total(h, fl[n..])
  {
    assert fl == fl[..n] + fl[n..];
    TotalAppend(h, fl[..n], fl[n..]);
  }

  lemma TotalWithout(h: Heap, fl: seq<nat>, c: nat)
    requires c < |fl| && fl[c] in h
    ensures Total(h, Without(fl, c)) == Total(h, fl) - (1 + h[fl[c]].wosize)
  {
    TotalIsSum(h, fl, c);
    TotalAppend(h, fl[..c], fl[c + 1..]);
    assert fl[c..][1..] == fl[c + 1..];
  }

  lemma TotalInsert(h: Heap, fl: seq<nat>, c: nat, a: nat)
    requires c <= |fl| && a in h
    ensures Total(h, Insert(fl, c, a)) == Total(h, fl) + (1 + h[a].wosize)
  {
    TotalIsSum(h, fl, c);
    TotalAppend(h, fl[..c] + [a], fl[c..]);
    TotalAppend(h, fl[..c], [a]);
  }

  /** Listed blocks outside the merged stretch keep their sizes. */
  lemma TotalKept(h: Heap, h': Heap, fl: seq<nat>)
    requires forall x :: x in fl ==> x in h && x in h' && h'[x].wosize == h[x].wosize
    ensures Total(h', fl) == Total(h, fl)
  {
    forall i | 0 <= i < |fl|
      ensures (fl[i] in h <==> fl[i] in h') && (fl[i] in h ==> h'[fl[i]].wosize == h[fl[i]].wosize)
    {
      assert fl[i] in fl;
    }
    TotalSame(h, h', fl);
  }

  /** Element `k` grows by `more` words, the others keep their sizes. */
  lemma TotalGrown(h: Heap, h': Heap, fl: seq<nat>, k: nat, more: nat)
    requires Sorted(fl) && k < |fl| && fl[k] in h && fl[k] in h' && h'[fl[k]].wosize == h[fl[k]].wosize + more
    requires forall x :: x in fl && x != fl[k] ==> x in h && x in h' && h'[x].wosize == h[x].wosize
    ensures Total(h', fl) == Total(h, fl) + more
  {
    var rest := Without(fl, k);
    forall x | x in rest ensures x in h && x in h' && h'[x].wosize == h[x].wosize {
      WithoutIn(fl, k, x);
    }
    TotalKept(h, h', rest);
    TotalWithout(h, fl, k);
    TotalWithout(h', fl, k);
  }

  lemma JoinedTotal(h: Heap, chunks: seq<Chunk>, fl: seq<nat>, m: nat, a: nat, frag: int)
    requires Place(h, chunks, fl, m, a)
    ensures Total(h, Joined(h, fl, m, a, frag)) ==
            Total(h, fl) - (if JoinsNext(h, a, frag) then 1 + h[End(h, a)].wosize else 0)
  {
    JoinedIn(h, chunks, fl, m, a, frag, a);
    if JoinsNext(h, a, frag) {
      TotalWithout(h, fl, m);
    }
  }

  /** A block of the joined list is outside the merged stretch, or is its first block. */
  lemma JoinedKept(h: Heap, chunks: seq<Chunk>, fl: seq<nat>, m: nat, a: nat, frag: int, prev: Prev, x: nat)
    requires Place(h, chunks, fl, m, a) && FragmentOk(h, frag, a) && PrevOk(h, a, frag, prev)
             && x in Joined(h, fl, m, a, frag)
    ensures IsFree(h, x) && x in Merge(h, a, frag, prev) && (prev == Prev(x) || Merge(h, a, frag, prev)[x] == h[x])
  {
    JoinedIn(h, chunks, fl, m, a, frag, x);
    var i :| 0 <= i < |fl| && fl[i] == x;
    assert IsFree(h, fl[i]);
    MergedRange(h, chunks, a, frag, prev, x);
  }

  /** How many words the merge adds to the list. */
  function Gained(h: Heap, a: nat, frag: int, prev: Prev): nat
    requires a in h
  {
    if StaysFragment(h, a, frag, prev) then 0 else 1 + h[a].wosize + (if JoinsFragment(h, a, frag) then 1 else 0)
  }

  lemma AbsorbedTotal(h: Heap, chunks: seq<Chunk>, fl: seq<nat>, m: nat, a: nat, frag: int, p: nat)
    requires Place(h, chunks, fl, m, a) && FragmentOk(h, frag, a) && JoinsPrev(h, a, frag, p)
    ensures var prev := Prev(p);
            Total(Merge(h, a, frag, prev), Joined(h, fl, m, a, frag)) ==
              Total(h, Joined(h, fl, m, a, frag)) + JoinedEnd(h, a, frag) - JoinedStart(h, a, frag)
  {
    var prev, fl1 := Prev(p), Joined(h, fl, m, a, frag);
    JoinedBelongs(h, chunks, fl, m, a, frag);
    forall x | x in fl1
      ensures x in h && x in Merge(h, a, frag, prev) && (prev == Prev(x) || Merge(h, a, frag, prev)[x] == h[x])
    {
      JoinedKept(h, chunks, fl, m, a, frag, prev, x);
    }
    assert IsFree(h, p);
    PrevIsElement(h, chunks, fl, m, a, frag, p);
    assert fl1[m - 1] == p;
    TotalGrown(h, Merge(h, a, frag, prev), fl1, m - 1, JoinedEnd(h, a, frag) - JoinedStart(h, a, frag));
  }

  lemma ListedTotal(h: Heap, chunks: seq<Chunk>, fl: seq<nat>, m: nat, a: nat, frag: int)
    requires Place(h, chunks, fl, m, a) && FragmentOk(h, frag, a) && PrevOk(h, a, frag, NoPrev)
    ensures Total(Merge(h, a, frag, NoPrev), MergedList(h, fl, m, a, frag, NoPrev)) ==
            Total(h, Joined(h, fl, m, a, frag))
              + if StaysFragment(h, a, frag, NoPrev) then 0 else JoinedEnd(h, a, frag) - JoinedStart(h, a, frag)
  {
    var h', fl1 := Merge(h, a, frag, NoPrev), Joined(h, fl, m, a, frag);
    forall x | x in fl1 ensures x in h && x in h' && h'[x].wosize == h[x].wosize {
      JoinedKept(h, chunks, fl, m, a, frag, NoPrev, x);
    }
    TotalKept(h, h', fl1);
    JoinedIn(h, chunks, fl, m, a, frag, a);
    if !StaysFragment(h, a, frag, NoPrev) {
      TotalInsert(h', fl1, m, JoinedStart(h, a, frag));
    }
  }

  lemma MergedTotal(h: Heap, chunks: seq<Chunk>, fl: seq<nat>, m: nat, a: nat, frag: int, prev: Prev)
    requires Place(h, chunks, fl, m, a) && FragmentOk(h, frag, a) && PrevOk(h, a, frag, prev)
    ensures Total(Merge(h, a, frag, prev), MergedList(h, fl, m, a, frag, prev)) ==
            Total(h, fl) + Gained(h, a, frag, prev)
  {
    JoinedTotal(h, chunks, fl, m, a, frag);
    match prev
    case Prev(p) => AbsorbedTotal(h, chunks, fl, m, a, frag, p);
    case NoPrev => ListedTotal(h, chunks, fl, m, a, frag);
  }
}
