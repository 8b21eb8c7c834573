/**
 The free list of byterun/freelist.c: the address-sorted list of the free blocks,
 and the table `flp` of the predecessors of its record-size blocks.
 */
module FreeList {
  import opened Mlvalues
  import opened Blocks

  /** A pointer into the list: NULL, the list head, or the free block at `hp`. */
  datatype Link = Nil | Head | At(hp: nat)

  // ----- The list -----

  ghost predicate Ordered(fl: seq<nat>, i: nat, j: nat) {
    i < j < |fl| ==> fl[i] < fl[j]
  }

  ghost predicate Sorted(fl: seq<nat>) {
    forall i: nat, j: nat {:trigger Ordered(fl, i, j)} :: Ordered(fl, i, j)
  }

  ghost predicate IsFree(h: Heap, a: nat) {
    a in h && h[a].color == Blue
  }

  /** The list has the free blocks, and no others, in address order. */
  ghost predicate Lists(h: Heap, fl: seq<nat>) {
    && Sorted(fl)
    && (forall i :: 0 <= i < |fl| ==> IsFree(h, fl[i]) && h[fl[i]].wosize >= 1)
    && (forall a {:trigger IsFree(h, a)} :: IsFree(h, a) ==> a in fl)
  }

  /** Element `i` of the list, NULL after the end. */
  function Element(fl: seq<nat>, i: nat): Link {
    if i < |fl| then At(fl[i]) else Nil
  }

  /** The predecessor of element `i`. */
  function Predecessor(fl: seq<nat>, i: nat): Link
    requires i <= |fl|
  {
    if i == 0 then Head else At(fl[i - 1])
  }

  /** `Next` of the predecessor of element `i` is element `i`. */
  ghost predicate Linked(next: map<Link, Link>, fl: seq<nat>, i: nat) {
    i <= |fl| ==> Predecessor(fl, i) in next && next[Predecessor(fl, i)] == Element(fl, i)
  }

  ghost predicate Chain(next: map<Link, Link>, fl: seq<nat>) {
    forall i: nat {:trigger Linked(next, fl, i)} :: Linked(next, fl, i)
  }

  /** Words in the listed blocks, headers included. */
  ghost function Total(h: Heap, fl: seq<nat>): nat {
    if fl == [] then 0 else (if fl[0] in h then 1 + h[fl[0]].wosize else 0) + Total(h, fl[1..])
  }

  lemma {:induction false} TotalAppend(h: Heap, a: seq<nat>, b: seq<nat>)
    ensures Total(h, a + b) == Total(h, a) + Total(h, b)
  {
    if a == [] {
      assert a + b == b;
    } else {
      assert (a + b)[1..] == a[1..] + b;
      TotalAppend(h, a[1..], b);
    }
  }

  lemma {:induction false} TotalSame(h: Heap, h': Heap, fl: seq<nat>)
    requires forall i :: 0 <= i < |fl| ==>
               && (fl[i] in h <==> fl[i] in h')
               && (fl[i] in h ==> h'[fl[i]].wosize == h[fl[i]].wosize)
    ensures Total(h', fl) == Total(h, fl)
  {
    if fl != [] {
      assert fl[0] in h <==> fl[0] in h';
      TotalSame(h, h', fl[1..]);
    }
  }

  lemma SortedIndex(fl: seq<nat>, i: nat, j: nat)
    requires Sorted(fl) && i < |fl| && j < |fl|
    ensures fl[i] == fl[j] ==> i == j
    ensures fl[i] < fl[j] <==> i < j
  {
    assert Ordered(fl, i, j) && Ordered(fl, j, i);
  }

  lemma OtherBefore(fl: seq<nat>, i: nat, j: nat)
    requires Sorted(fl) && i <= |fl| && j <= |fl| && i != j
    ensures Predecessor(fl, i) != Predecessor(fl, j)
  {
    if i > 0 && j > 0 {
      SortedIndex(fl, i - 1, j - 1);
    }
  }

  // ----- Taking element `c` out -----

  function Without(fl: seq<nat>, c: nat): seq<nat>
    requires c < |fl|
  {
    fl[..c] + fl[c + 1..]
  }

  /** `Next (prev) = Next (cur)`. */
  lemma UnlinkOk(next: map<Link, Link>, fl: seq<nat>, c: nat)
    requires Sorted(fl) && Chain(next, fl) && c < |fl|
    ensures Predecessor(fl, c) in next && At(fl[c]) in next
    ensures Sorted(Without(fl, c)) && Chain(next[Predecessor(fl, c) := next[At(fl[c])]], Without(fl, c))
  {
    assert Linked(next, fl, c) && Linked(next, fl, c + 1);
    var fl', next' := Without(fl, c), next[Predecessor(fl, c) := next[At(fl[c])]];
    forall i: nat, j: nat ensures Ordered(fl', i, j) {
      assert Ordered(fl, if i < c then i else i + 1, if j < c then j else j + 1);
    }
    forall i: nat ensures Linked(next', fl', i) {
      if i <= |fl'| {
        var k := if i <= c then i else i + 1;
        assert Linked(next, fl, k);
        if i != c {
          assert Predecessor(fl', i) == Predecessor(fl, k);
          OtherBefore(fl, k, c);
        }
      }
    }
  }

  lemma WithoutIn(fl: seq<nat>, c: nat, a: nat)
    requires Sorted(fl) && c < |fl|
    ensures a in Without(fl, c) <==> a in fl && a != fl[c]
  {
    var fl' := Without(fl, c);
    if a in fl && a != fl[c] {
      var k :| 0 <= k < |fl| && fl[k] == a;
      assert fl'[if k < c then k else k - 1] == a;
    }
    if a in fl' {
      var k :| 0 <= k < |fl'| && fl'[k] == a;
      SortedIndex(fl, if k < c then k else k + 1, c);
    }
  }

  // ----- Putting a block in at position `c` -----

  function Insert(fl: seq<nat>, c: nat, a: nat): seq<nat>
    requires c <= |fl|
  {
    fl[..c] + [a] + fl[c..]
  }

  /** `a` comes after the first `c` elements and before the others. */
  ghost predicate Belongs(fl: seq<nat>, c: nat, a: nat) {
    && c <= |fl| && (forall i :: 0 <= i < c ==> fl[i] < a) && (forall i :: c <= i < |fl| ==> a < fl[i])
  }

  /** `Next (bp) = cur; Next (prev) = bp`. */
  lemma LinkOk(next: map<Link, Link>, fl: seq<nat>, c: nat, a: nat)
    requires Sorted(fl) && Chain(next, fl) && Belongs(fl, c, a)
    ensures Sorted(Insert(fl, c, a)) && Chain(next[At(a) := Element(fl, c)][Predecessor(fl, c) := At(a)],
            Insert(fl, c, a))
  {
    var fl', next' := Insert(fl, c, a), next[At(a) := Element(fl, c)][Predecessor(fl, c) := At(a)];
    forall i: nat, j: nat ensures Ordered(fl', i, j) {
      assert Ordered(fl, if i < c then i else if i > c then i - 1 else 0, if j < c then j else if j > c then j - 1
             else 0);
    }
    forall i: nat ensures Linked(next', fl', i) {
      if i <= |fl'| {
        if i <= c {
          assert Linked(next, fl, i);
          assert Predecessor(fl', i) == Predecessor(fl, i);
          if i != c {
            OtherBefore(fl, i, c);
          }
        } else if i > c + 1 {
          assert Linked(next, fl, i - 1);
          assert Predecessor(fl', i) == Predecessor(fl, i - 1);
          OtherBefore(fl, i - 1, c);
        }
      }
    }
  }

  lemma InsertIn(fl: seq<nat>, c: nat, a: nat, x: nat)
    requires c <= |fl|
    ensures x in Insert(fl, c, a) <==> x in fl || x == a
  {
    assert fl == fl[..c] + fl[c..];
  }

  // ----- Allocation -----

  /** What is left of the list when a block of `wosize` words is taken from element
      `c`: it disappears unless a block that can be linked stays. */
  predicate Detaches(h: Heap, fl: seq<nat>, c: nat, wosize: nat)
    requires c < |fl| && fl[c] in h
  {
    h[fl[c]].wosize < wosize + 2
  }

  function ListAfter(h: Heap, fl: seq<nat>, c: nat, wosize: nat): seq<nat>
    requires c < |fl| && fl[c] in h
  {
    if Detaches(h, fl, c, wosize) then Without(fl, c) else fl
  }

  /** The new list has exactly the free blocks of the new heap. */
  lemma SplitLists(h: Heap, chunks: seq<Chunk>, fl: seq<nat>, c: nat, b: Block)
    requires Tiled(h, chunks) && Lists(h, fl) && c < |fl| && CanSplit(h, fl[c], b.wosize) && b.color != Blue
    ensures Lists(Split(h, fl[c], b), ListAfter(h, fl, c, b.wosize))
  {
    var a, h', fl' := fl[c], Split(h, fl[c], b), ListAfter(h, fl, c, b.wosize);
    SplitFresh(h, chunks, a, b.wosize);
    if Detaches(h, fl, c, b.wosize) {
      WithoutSorted(fl, c);
    }
    forall i | 0 <= i < |fl'| ensures IsFree(h', fl'[i]) && h'[fl'[i]].wosize >= 1 {
      var k := if Detaches(h, fl, c, b.wosize) && i >= c then i + 1 else i;
      assert fl'[i] == fl[k] && IsFree(h, fl[k]);
      SortedIndex(fl, k, c);
    }
    forall x | IsFree(h', x) ensures x in fl' {
      assert x != a ==> IsFree(h, x);
      if Detaches(h, fl, c, b.wosize) {
        WithoutIn(fl, c, x);
      }
    }
  }

  lemma WithoutSorted(fl: seq<nat>, c: nat)
    requires Sorted(fl) && c < |fl|
    ensures Sorted(Without(fl, c))
  {
    var fl' := Without(fl, c);
    forall i: nat, j: nat ensures Ordered(fl', i, j) {
      assert Ordered(fl, if i < c then i else i + 1, if j < c then j else j + 1);
    }
  }

  /** `caml_fl_cur_size` goes down by the whole block if it is detached, by the words
      handed out otherwise. */
  lemma SplitTotal(h: Heap, chunks: seq<Chunk>, fl: seq<nat>, c: nat, b: Block)
    requires Tiled(h, chunks) && Lists(h, fl) && c < |fl| && CanSplit(h, fl[c], b.wosize) && b.color != Blue
    ensures Total(Split(h, fl[c], b), ListAfter(h, fl, c, b.wosize))
         == Total(h, fl) - (if Detaches(h, fl, c, b.wosize) then 1 + h[fl[c]].wosize else 1 + b.wosize)
  {
    var a, h' := fl[c], Split(h, fl[c], b);
    SplitFresh(h, chunks, a, b.wosize);
    OthersSame(h, fl, c, h');
    assert fl == fl[..c] + ([a] + fl[c + 1..]);
    TotalAppend(h, fl[..c], [a] + fl[c + 1..]);
    TotalAppend(h, [a], fl[c + 1..]);
    assert Total(h, [a]) == 1 + h[a].wosize;
    if Detaches(h, fl, c, b.wosize) {
      TotalAppend(h', fl[..c], fl[c + 1..]);
    } else {
      TotalAppend(h', fl[..c], [a] + fl[c + 1..]);
      TotalAppend(h', [a], fl[c + 1..]);
      assert Total(h', [a]) == 1 + h'[a].wosize;
    }
  }

  lemma OthersSame(h: Heap, fl: seq<nat>, c: nat, h': Heap)
    requires Sorted(fl) && c < |fl| && (forall i :: 0 <= i < |fl| ==> fl[i] in h)
    requires forall x :: x in h && x != fl[c] ==> x in h' && h'[x] == h[x]
    ensures Total(h', fl[..c]) == Total(h, fl[..c]) && Total(h', fl[c + 1..]) == Total(h, fl[c + 1..])
  {
    forall i | 0 <= i < c ensures fl[..c][i] in h' && fl[..c][i] in h && h'[fl[..c][i]] == h[fl[..c][i]] {
      SortedIndex(fl, i, c);
    }
    var after := fl[c + 1..];
    forall i | 0 <= i < |after| ensures after[i] in h' && after[i] in h && h'[after[i]] == h[after[i]] {
      SortedIndex(fl, c + 1 + i, c);
    }
    TotalSame(h, h', fl[..c]);
    TotalSame(h, h', fl[c + 1..]);
  }
}
