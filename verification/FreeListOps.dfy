/**
 The operations of byterun/freelist.c on a linked list that is updated in place:
 allocation by both policies, merging of swept blocks and extension of the heap.
 */
module FreeListOps {
  import opened Mlvalues
  import opened Blocks
  import opened FreeList
  import opened FreeListIndex
  import opened FreeListPick
  import opened FreeListMerge
  import opened FreeListSteps
  import opened FreeListTable
  import opened FreeListRuns

  /** The chunks are tiled, the list is linked and has the free blocks in address order, and
      `caml_fl_cur_size` is the number of their words. */
  ghost predicate ListOk(h: Heap, chunks: seq<Chunk>, next: map<Link, Link>, fl: seq<nat>, size: nat) {
    Tiled(h, chunks) && Lists(h, fl) && Chain(next, fl) && size == Total(h, fl)
  }

  /** The list head or a listed block. */
  ghost predicate OnList(fl: seq<nat>, l: Link) {
    l == Head || (l.At? && l.hp in fl)
  }

  lemma PrevListed(fl: seq<nat>, l: Link, p: nat)
    requires p <= |fl| && l == Predecessor(fl, p)
    ensures OnList(fl, l)
  {
  }

  lemma ListPlace(fl: seq<nat>, l: Link) returns (p: nat)
    requires OnList(fl, l)
    ensures p <= |fl| && l == Predecessor(fl, p)
  {
    p := 0;
    if l != Head {
      var i :| 0 <= i < |fl| && fl[i] == l.hp;
      p := i + 1;
    }
  }

  /** Element `c` is the first that is large enough, going round from position `p`. */
  ghost predicate NextFit(z: seq<nat>, w: nat, p: nat, c: nat) {
    && c < |z| && z[c] >= w
    && if c >= p then forall j :: p <= j < c ==> z[j] < w
       else (forall j :: p <= j < |z| ==> z[j] < w) && (forall j :: 0 <= j < c ==> z[j] < w)
  }

  /** The list and its size once a block has been taken from element `c`. */
  lemma SplitOk(h: Heap, chunks: seq<Chunk>, next: map<Link, Link>, fl: seq<nat>, size: nat, c: nat, b: Block)
    requires ListOk(h, chunks, next, fl, size) && c < |fl| && CanSplit(h, fl[c], b.wosize) && b.color != Blue
    ensures Predecessor(fl, c) in next && At(fl[c]) in next
    ensures var h' := Split(h, fl[c], b);
            if Detaches(h, fl, c, b.wosize)
            then size >= 1 + h[fl[c]].wosize
                 && ListOk(h', chunks, next[Predecessor(fl, c) := next[At(fl[c])]], Without(fl, c),
                   size - (1 + h[fl[c]].wosize)) == true
            else size >= 1 + b.wosize && ListOk(h', chunks, next, fl, size - (1 + b.wosize)) == true
  {
    SplitLists(h, chunks, fl, c, b);
    SplitTotal(h, chunks, fl, c, b);
    SplitTiled(h, chunks, fl[c], b);
    UnlinkOk(next, fl, c);
  }

  lemma AtEnd(fl: seq<nat>, a: nat)
    requires Sorted(fl) && (fl != [] ==> fl[|fl| - 1] < a)
    ensures Belongs(fl, |fl|, a)
  {
    forall i: nat | i < |fl| ensures fl[i] < a {
      assert Ordered(fl, i, |fl| - 1);
    }
  }

  /** Without the block that is detached, the others are still listed. */
  lemma StillListed(h: Heap, fl: seq<nat>, c: nat, w: nat)
    requires Lists(h, fl) && c < |fl| && fl[c] in h
    ensures OnList(ListAfter(h, fl, c, w), Predecessor(fl, c))
  {
    if c > 0 {
      SortedIndex(fl, c - 1, c);
      WithoutIn(fl, c, fl[c - 1]);
    }
  }

  // ----- Merging -----

  /** The joined block from `start` on, of `wosize` words, is to be absorbed, listed or left. */
  ghost predicate Joining(h: Heap, chunks: seq<Chunk>, fl0: seq<nat>, m: nat, a: nat, frag: int, fl: seq<nat>,
                          next: map<Link, Link>, start: nat, wosize: nat, size: nat) {
    && Place(h, chunks, fl0, m, a) && FragmentOk(h, frag, a) && fl == Joined(h, fl0, m, a, frag) && Chain(next, fl)
    && start == JoinedStart(h, a, frag) && start + 1 + wosize == JoinedEnd(h, a, frag)
    && m <= |fl| && Predecessor(fl, m) == Predecessor(fl0, m)
    && size == Total(h, fl0) + 1 + h[a].wosize + (if JoinsFragment(h, a, frag) then 1 else 0)
  }

  /** The list and its size after the merge. */
  lemma MergedOk(h: Heap, chunks: seq<Chunk>, fl: seq<nat>, m: nat, a: nat, frag: int, p: Prev)
    requires Place(h, chunks, fl, m, a) && FragmentOk(h, frag, a) && PrevOk(h, a, frag, p)
    ensures var h', fl' := Merge(h, a, frag, p), MergedList(h, fl, m, a, frag, p);
            Tiled(h', chunks) && Lists(h', fl') && Total(h', fl') == Total(h, fl) + Gained(h, a, frag, p)
  {
    MergeTiled(h, chunks, a, frag, p);
    MergedLists(h, chunks, fl, m, a, frag, p);
    MergedTotal(h, chunks, fl, m, a, frag, p);
  }

  lemma AbsorbedOk(h: Heap, chunks: seq<Chunk>, fl0: seq<nat>, m: nat, a: nat, frag: int, fl: seq<nat>,
                   next: map<Link, Link>, start: nat, wosize: nat, size: nat)
    requires Joining(h, chunks, fl0, m, a, frag, fl, next, start, wosize, size) && m > 0
             && JoinsPrev(h, a, frag, fl0[m - 1])
    ensures var h' := Coalesce(h, fl0[m - 1], start + 1 + wosize);
            && h' == Merge(h, a, frag, Prev(fl0[m - 1])) && fl == MergedList(h, fl0, m, a, frag, Prev(fl0[m - 1]))
            && ListOk(h', chunks, next, fl, size) == true
              && size == Total(h, fl0) + Gained(h, a, frag, Prev(fl0[m - 1]))
  {
    MergedOk(h, chunks, fl0, m, a, frag, Prev(fl0[m - 1]));
  }

  lemma ListedOk(h: Heap, chunks: seq<Chunk>, fl0: seq<nat>, m: nat, a: nat, frag: int, fl: seq<nat>,
                 next: map<Link, Link>, start: nat, wosize: nat, size: nat)
    requires Joining(h, chunks, fl0, m, a, frag, fl, next, start, wosize, size) && wosize != 0
             && PrevOk(h, a, frag, NoPrev)
    ensures !Unlisted(h, a, frag, NoPrev)
    ensures var h', fl' := Coalesce(h, start, start + 1 + wosize), Insert(fl, m, start);
            && h' == Merge(h, a, frag, NoPrev) && fl' == MergedList(h, fl0, m, a, frag, NoPrev)
            && ListOk(h', chunks, next[At(start) := Element(fl, m)][Predecessor(fl, m) := At(start)], fl', size) == true
            && size == Total(h, fl0) + Gained(h, a, frag, NoPrev)
  {
    MergedOk(h, chunks, fl0, m, a, frag, NoPrev);
    JoinedBelongs(h, chunks, fl0, m, a, frag);
    LinkOk(next, fl, m, start);
  }

  lemma LeftOk(h: Heap, chunks: seq<Chunk>, fl0: seq<nat>, m: nat, a: nat, frag: int, fl: seq<nat>,
               next: map<Link, Link>, start: nat, wosize: nat, size: nat)
    requires Joining(h, chunks, fl0, m, a, frag, fl, next, start, wosize, size) && wosize == 0
             && PrevOk(h, a, frag, NoPrev)
    ensures h == Merge(h, a, frag, NoPrev) && fl == MergedList(h, fl0, m, a, frag, NoPrev)
            && StaysFragment(h, a, frag, NoPrev)
    ensures size > 0 && start == a && ListOk(h, chunks, next, fl, size - 1) == true
    ensures size - 1 == Total(h, fl0) + Gained(h, a, frag, NoPrev)
  {
    MergedOk(h, chunks, fl0, m, a, frag, NoPrev);
  }

  /** The test on element `m` - 1 finds the free block that can absorb the joined one. */
  lemma FindPrev(h: Heap, chunks: seq<Chunk>, fl: seq<nat>, m: nat, a: nat, frag: int)
    requires Place(h, chunks, fl, m, a) && FragmentOk(h, frag, a)
    ensures m > 0 ==> fl[m - 1] in h && (JoinsPrev(h, a, frag, fl[m - 1]) <==>
              End(h, fl[m - 1]) == JoinedStart(h, a, frag) && JoinedEnd(h, a, frag) - fl[m - 1] - 1 < MAX_WOSIZE)
    ensures (m == 0 || !JoinsPrev(h, a, frag, fl[m - 1])) ==> PrevOk(h, a, frag, NoPrev)
  {
    assert m > 0 ==> IsFree(h, fl[m - 1]);
    forall p | p in h && JoinsPrev(h, a, frag, p) ensures m > 0 && p == fl[m - 1] {
      assert IsFree(h, p);
      PrevIsElement(h, chunks, fl, m, a, frag, p);
    }
  }

  lemma WithoutOnList(fl: seq<nat>, c: nat, l: Link)
    requires Sorted(fl) && c < |fl|
    ensures OnList(fl, l) ==> OnList(Without(fl, c), if l == At(fl[c]) then Predecessor(fl, c) else l)
  {
    if l == At(fl[c]) && c > 0 {
      SortedIndex(fl, c - 1, c);
      WithoutIn(fl, c, fl[c - 1]);
    } else if l.At? {
      WithoutIn(fl, c, l.hp);
    }
  }

  lemma InsertOnList(fl: seq<nat>, c: nat, a: nat, l: Link)
    requires c <= |fl|
    ensures OnList(fl, l) ==> OnList(Insert(fl, c, a), l)
  {
    if l.At? {
      InsertIn(fl, c, a, l.hp);
    }
  }

  // ----- Extension -----

  lemma AddedOk(h: Heap, chunks: seq<Chunk>, next: map<Link, Link>, fl: seq<nat>, size: nat, c: nat, a: nat,
                wosize: nat, chunks': seq<Chunk>)
    requires ListOk(h, chunks, next, fl, size) && a !in h && wosize >= 1 && Belongs(fl, c, a)
             && Tiled(WithBlock(h, a, wosize), chunks')
    ensures ListOk(WithBlock(h, a, wosize), chunks', next[At(a) := Element(fl, c)][Predecessor(fl, c) := At(a)],
            Insert(fl, c, a), size + 1 + wosize) == true
  {
    AddedLists(h, fl, c, a, wosize);
    AddedTotal(h, fl, c, a, wosize);
    LinkOk(next, fl, c, a);
  }

  lemma RecoloredOk(h: Heap, chunks: seq<Chunk>, next: map<Link, Link>, fl: seq<nat>, size: nat, h': Heap)
    requires ListOk(h, chunks, next, fl, size) && SameShape(h, h')
    ensures ListOk(h', chunks, next, fl, size) == true
  {
    Recolored(h, chunks, fl, h');
    TotalSame(h, h', fl);
  }

  // ----- First fit -----

  /** What an allocation leaves: the outcome that is specified. */
  ghost predicate Leaves(s: FreeState, b: Block, o: Outcome, hp: Link, s': TableState) {
    && (o.Pick? ==> hp.At? && Allocates(s, b, o.c, hp.hp, s'.free) && s'.rec == o.rec && s'.bp == o.bp)
    && (o.Fail? ==> hp == Nil && s'.free == s && s'.rec == o.rec && s'.bp == o.bp)
    && (!o.Overrun? ==> Represented(s'))
  }

  lemma PickLeaves(s: FreeState, b: Block, o: Outcome, hp: nat, s': TableState)
    requires o.Pick? && Allocates(s, b, o.c, hp, s'.free) && s'.rec == o.rec && s'.bp == o.bp && Represented(s')
    ensures Leaves(s, b, o, At(hp), s') == true
  {
  }

  lemma FailLeaves(s: FreeState, b: Block, o: Outcome, s': TableState)
    requires o.Fail? && s'.free == s && s'.rec == o.rec && s'.bp == o.bp && Represented(s')
    ensures Leaves(s, b, o, Nil, s') == true
  {
  }

  /** The table once its last element has been taken. */
  lemma LastPlaces(fl: seq<nat>, flp: seq<Link>, rec: seq<nat>, i: nat, detached: bool)
    requires Places(fl, flp, rec) && Entries(rec, |fl|) && i + 1 == |rec|
    ensures rec[i] < |fl| && Places(ListWithout(fl, rec[i], detached), flp[..i], rec[..i])
    ensures flp[i] == Predecessor(fl, rec[i])
    ensures LinkOf(ListWithout(fl, rec[i], detached), rec[i] as int - 1) == if flp[i] == Head then Nil else flp[i]
    ensures !detached ==> Places(fl, flp, rec)
  {
    EarlierPlaces(fl, flp, rec, i, detached);
    assert Placed(fl, flp, rec, i);
  }

  /** The element of the last entry, `i`, is gone or smaller in the list `fl` of sizes `z`. */
  ghost predicate Shortening(z: seq<nat>, fl: seq<nat>, flp: seq<Link>, rec: seq<nat>, i: nat, before: Link, cur: nat,
                             detached: bool, o: Outcome) {
    && i + 1 == |rec| == |flp| && Places(fl, flp[..i], rec[..i])
    && LinkOf(fl, rec[i] as int - 1) == (if before == Head then Nil else before)
    && (!detached ==> rec[i] < |fl| && cur == fl[rec[i]] && Places(fl, flp, rec))
    && o == if detached then Pick(rec[i], rec[..i], rec[i] as int - 1)
            else if SizeOf(z, rec[i]) <= Top(z, rec, i) then Pick(rec[i], rec[..i], rec[i])
            else Pick(rec[i], rec, -1)
  }

  lemma StartShortening(z0: seq<nat>, fl0: seq<nat>, flp: seq<Link>, rec: seq<nat>, w: nat, i: nat, z: seq<nat>,
                        fl: seq<nat>)
    requires |z0| == |fl0| && Places(fl0, flp, rec) && CanTake(z0, rec, w, i) && i + 1 == |rec|
    requires rec[i] < |z0| && z0[rec[i]] >= w && z == Taken(z0, rec[i], w)
    requires fl == ListWithout(fl0, rec[i], Detached(z0, rec[i], w))
    ensures Shortening(z, fl, flp, rec, i, flp[i], fl0[rec[i]], Detached(z0, rec[i], w), TakeLast(z0, rec, w, i)) ==
            true
  {
    LastPlaces(fl0, flp, rec, i, Detached(z0, rec[i], w));
    TakenSizes(z0, rec[i], w, rec[i]);
  }

  /** The element of entry `i` of the old list `fl0` is gone or smaller in the list `fl`. */
  ghost predicate Rebuilding(h0: Heap, fl0: seq<nat>, flp: seq<Link>, beyond: Link, rec: seq<nat>, bp: int, w: nat,
                             i: nat, h: Heap, fl: seq<nat>) {
    && Sorted(fl0) && Places(fl0, flp, rec) && beyond == LinkOf(fl0, bp) && TableOk(Sizes(h0, fl0), rec, bp)
    && CanTake(Sizes(h0, fl0), rec, w, i) && i + 1 < |rec| && rec[i] < |fl0| && Sizes(h0, fl0)[rec[i]] >= w
    && fl == ListWithout(fl0, rec[i], Detached(Sizes(h0, fl0), rec[i], w))
    && Sizes(h, fl) == Taken(Sizes(h0, fl0), rec[i], w)
  }

  /** The whole table once the entries `buf` at the positions `found` have come in the place of
      entry `i`. */
  lemma RebuiltPlaces(h0: Heap, fl0: seq<nat>, flp: seq<Link>, beyond: Link, rec: seq<nat>, bp: int, w: nat, i: nat,
                      h: Heap, fl: seq<nat>, buf: seq<Link>, found: seq<nat>, later: seq<Link>)
    requires Rebuilding(h0, fl0, flp, beyond, rec, bp, w, i, h, fl) && Places(fl, buf, found)
    requires NewEntries(Sizes(h0, fl0), rec, w, i) == rec[..i] + found
    requires var detached := Detached(Sizes(h0, fl0), rec[i], w);
             later == flp[i + 1..][0 := if detached && flp[i + 1] == At(fl0[rec[i]])
                                        then Predecessor(fl0, rec[i]) else flp[i + 1]]
    ensures var r := Spliced(Sizes(h0, fl0), rec, w, i);
            |r| == i + |buf| + |later| && Places(fl, flp[..i] + buf + later, r) == true
    ensures beyond == LinkOf(fl, Moved(rec[i], Detached(Sizes(h0, fl0), rec[i], w), bp))
  {
    var z, c := Sizes(h0, fl0), rec[i];
    var detached := Detached(z, c, w);
    TakeWhere(z, rec, w, i);
    EarlierPlaces(fl0, flp, rec, i, detached);
    LaterPlaces(fl0, flp, rec, i, detached, later);
    ConcatPlaces(fl, flp[..i], buf, rec[..i], found);
    ConcatPlaces(fl, flp[..i] + buf, later, rec[..i] + found, MovedAll(rec[i + 1..], c, detached));
    EntryBefore(rec, |fl0|, i + 1);
    LinkMoved(fl0, c, detached, bp);
  }

  /** What is kept of the table when there is no room for all of it. */
  lemma OverflownPlaces(fl: seq<nat>, next: map<Link, Link>, flp: seq<Link>, rec: seq<nat>)
    requires Chain(next, fl) && Places(fl, flp, rec) && |rec| > FLP_MAX
    ensures Places(fl, flp[..FLP_MAX - 1], rec[..FLP_MAX - 1])
    ensures flp[FLP_MAX - 1] in next && next[flp[FLP_MAX - 1]] == LinkOf(fl, rec[FLP_MAX - 1])
  {
    PrefixPlaces(fl, flp, rec, FLP_MAX - 1);
    PlacedAt(fl, next, flp, rec, FLP_MAX - 1);
  }

  /** What is taken behind the table does not change it. */
  lemma BehindPlaces(fl: seq<nat>, flp: seq<Link>, rec: seq<nat>, c: nat, detached: bool, mark: int)
    requires Places(fl, flp, rec) && Entries(rec, c) && mark < c < |fl|
    ensures Places(ListWithout(fl, c, detached), flp, rec)
    ensures LinkOf(ListWithout(fl, c, detached), mark) == LinkOf(fl, mark)
  {
    assert fl[..c] == ListWithout(fl, c, detached)[..c];
    FrontPlaces(fl, flp, rec, ListWithout(fl, c, detached), c);
  }

  /** The addresses from `changed` on are those of the elements from position `at` on. */
  ghost predicate CutPoint(fl: seq<nat>, changed: Link, at: nat) {
    && at <= |fl| && changed != Nil && (changed == Head ==> at == 0)
    && (changed.At? ==> forall j {:trigger fl[j]} :: 0 <= j < |fl| ==> (fl[j] >= changed.hp <==> j >= at))
  }

  lemma MergeCut(s: FreeState)
    requires Inv(s)
    ensures CutPoint(s.fl, s.merge, CutAt(s.m))
  {
    if s.m > 0 {
      forall j: nat | j < |s.fl| ensures s.fl[j] >= s.fl[s.m - 1] <==> j >= s.m - 1 {
        SortedIndex(s.fl, j, s.m - 1);
      }
    }
  }

  /** A cut table after a change behind the cut. */
  lemma CutPlaces(fl: seq<nat>, flp: seq<Link>, rec: seq<nat>, bp: int, at: nat, fl': seq<nat>)
    requires Places(fl, flp, rec) && Entries(rec, at) && bp < at && at <= |fl| && at <= |fl'| && fl[..at] == fl'[..at]
    ensures Places(fl', flp, rec) && LinkOf(fl', bp) == LinkOf(fl, bp)
  {
    FrontPlaces(fl, flp, rec, fl', at);
    assert bp >= 0 ==> fl[..at][bp] == fl'[..at][bp];
  }

  lemma ReclaimedTable(s: FreeState, p: Prev, s': TableState)
    requires Inv(s) && Reclaims(s, p, s'.free) && Places(s.fl, s'.flp, s'.rec) && s'.beyond == LinkOf(s.fl, s'.bp)
    requires Entries(s'.rec, CutAt(s.m)) && s'.bp < CutAt(s.m)
    ensures Represented(s') == true
  {
    ReclaimedFront(s, p, s'.free);
    CutPlaces(s.fl, s'.flp, s'.rec, s'.bp, CutAt(s.m), s'.free.fl);
  }

  /** A block at the end of the list. */
  lemma EndPlaces(fl: seq<nat>, flp: seq<Link>, rec: seq<nat>, bp: int, a: nat)
    requires Places(fl, flp, rec) && Entries(rec, |fl|) && bp < |fl|
    ensures var fl' := Insert(fl, |fl|, a);
            && Places(fl', flp, rec) && Places(fl', flp + [Predecessor(fl, |fl|)], rec + [|fl|])
            && LinkOf(fl', bp) == LinkOf(fl, bp)
  {
    var fl' := Insert(fl, |fl|, a);
    assert fl[..|fl|] == fl'[..|fl|];
    CutPlaces(fl, flp, rec, bp, |fl|, fl');
    AppendPlace(fl', flp, rec, |fl|);
    assert Predecessor(fl', |fl|) == Predecessor(fl, |fl|);
  }

  /** The steps that the operations take. */
  lemma TakenMoves(s: TableState, b: Block, o: Outcome, hp: nat, s': TableState)
    requires TableInv(s) && Ready(SizesOf(s), s.rec, s.bp, b.wosize)
    requires o == Allocate(SizesOf(s), s.rec, s.bp, b.wosize) && o.Pick? && Leaves(s.free, b, o, At(hp), s')
    ensures Moves(s, Take(b, o.c, hp), s') == true && TableInv(s') == true
  {
    MoveKeeps(s, Take(b, o.c, hp), s');
  }

  lemma GrownMoves(s: TableState, step: TableStep, r: seq<nat>, q: int, s': TableState)
    requires TableInv(s) && step.Grow? && Fails(s, step.b.wosize, r, q) && Grows(s, step, r, q, s') && Represented(s')
    ensures Moves(s, step, s') == true && TableInv(s') == true
  {
    MoveKeeps(s, step, s');
  }

  lemma SweptMoves(s: TableState, step: Step, s': TableState)
    requires TableInv(s) && Sweeps(s, step, s') && Represented(s')
    ensures Moves(s, Other(step), s') == true && TableInv(s') == true
  {
    MoveKeeps(s, Other(step), s');
  }

  class FreeBlocks {
    var h: Heap
    var next: map<Link, Link>
    var size: nat
    var merge: Link
    var fragment: int
    var prev: Link
    var last: Link
    var flp: seq<Link>
    var beyond: Link
    /** `caml_gc_sweep_hp`. */
    var sweep: nat
    ghost var chunks: seq<Chunk>
    ghost var fl: seq<nat>
    /** The place of `merge` in the list. */
    ghost var m: nat
    /** The positions of the elements of the table, and that of `beyond`, -1 for NULL. */
    ghost var rec: seq<nat>
    ghost var bp: int

    ghost function View(): FreeState
      reads this
    {
      FreeState(h, chunks, fl, size, merge, m, fragment, sweep)
    }

    /** What every operation keeps. */
    ghost predicate Valid()
      reads this
    {
      Inv(View()) && ListOk(h, chunks, next, fl, size)
    }

    /** Under the first-fit policy. */
    ghost predicate ValidTable()
      reads this
    {
      Represented(TableView()) && TableOk(SizeList(), rec, bp)
    }

    ghost function TableView(): TableState
      reads this
    {
      TableState(View(), flp, beyond, rec, bp)
    }

    ghost function SizeList(): seq<nat>
      reads this
    {
      Sizes(h, fl)
    }

    /** `allocate_block_r`: take `b` from the right end of the free block `cur`. */
    method AllocateBlock(b: Block, before: Link, cur: nat, ghost c: nat) returns (hp: nat)
      requires ListOk(h, chunks, next, fl, size) && c < |fl| && cur == fl[c] && before == Predecessor(fl, c)
      requires CanSplit(h, cur, b.wosize) && b.color != Blue
      modifies this`h, this`next, this`size, this`merge, this`m, this`fl
      ensures Allocates(old(View()), b, c, hp, View()) == true && ListOk(h, chunks, next, fl, size) == true
    {
      SplitOk(h, chunks, next, fl, size, c, b);
      AllocatesAt(View(), b, c);
      ghost var s := Allocated(View(), b, c);
      hp := cur + h[cur].wosize - b.wosize;
      if h[cur].wosize < b.wosize + 2 {
        size := size - (1 + h[cur].wosize);
        next := next[before := next[At(cur)]];
        if merge == At(cur) {
          merge := before;
        }
      } else {
        size := size - (1 + b.wosize);
      }
      h := Split(h, cur, b);
      fl, m := s.fl, s.m;
      assert View() == s;
    }

    /** Take `b` from element `c`, whose predecessor is `before`. */
    method TakeAt(b: Block, before: Link, ghost c: nat) returns (hp: nat)
      requires ListOk(h, chunks, next, fl, size) && c < |fl| && before == Predecessor(fl, c)
      requires 1 <= b.wosize <= SizeList()[c] && b.color != Blue
      modifies this`h, this`next, this`size, this`merge, this`m, this`fl
      ensures Allocates(old(View()), b, c, hp, View()) == true && ListOk(h, chunks, next, fl, size) == true
      ensures SizeList() == Taken(old(SizeList()), c, b.wosize)
      ensures fl == ListWithout(old(fl), c, Detached(old(SizeList()), c, b.wosize))
    {
      assert Linked(next, fl, c);
      ListedSize(h, fl, c);
      SplitSizes(h, chunks, fl, c, b);
      hp := AllocateBlock(b, before, next[before].hp, c);
    }

    // ----- Next fit -----

    /** Search for a block of `w` words from the successor of `start` up to `stop`. */
    method SearchFrom(w: nat, start: Link, stop: Link, ghost p: nat, ghost q: nat)
      returns (found: bool, before: Link, ghost c: nat)
      requires Lists(h, fl) && Chain(next, fl) && p <= q <= |fl| && start == Predecessor(fl, p)
               && stop == Predecessor(fl, q)
      ensures p <= c <= q && before == Predecessor(fl, c) && Small(SizeList(), w, p, c)
      ensures if found then c < q && SizeList()[c] >= w else c == q
    {
      before, found, c := start, false, p;
      while before != stop
        invariant p <= c <= q && before == Predecessor(fl, c) && Small(SizeList(), w, p, c)
        decreases q - c
      {
        assert Linked(next, fl, c);
        if c == q {
          assert false;
        }
        var cur := next[before];
        ListedSize(h, fl, c);
        if h[cur.hp].wosize >= w {
          found := true;
          return;
        }
        before, c := cur, c + 1;
      }
      if c < q {
        OtherBefore(fl, c, q);
      }
    }

    /** Search from the successor of `start` to the end of the list. */
    method SearchToEnd(w: nat, start: Link, ghost p: nat) returns (found: bool, before: Link, ghost c: nat)
      requires Lists(h, fl) && Chain(next, fl) && p <= |fl| && start == Predecessor(fl, p)
      ensures p <= c <= |fl| && before == Predecessor(fl, c) && Small(SizeList(), w, p, c)
      ensures if found then c < |fl| && SizeList()[c] >= w else c == |fl|
    {
      before, found, c := start, false, p;
      assert Linked(next, fl, c);
      while next[before] != Nil
        invariant p <= c <= |fl| && before == Predecessor(fl, c) && before in next && next[before] == Element(fl, c)
        invariant Small(SizeList(), w, p, c)
        decreases |fl| - c
      {
        var cur := next[before];
        ListedSize(h, fl, c);
        if h[cur.hp].wosize >= w {
          found := true;
          return;
        }
        before, c := cur, c + 1;
        assert Linked(next, fl, c);
      }
    }

    /** Search once round from the successor of `prev`. */
    method SearchRound(w: nat, ghost p: nat) returns (found: bool, before: Link, end: Link, ghost c: nat)
      requires Lists(h, fl) && Chain(next, fl) && p <= |fl| && prev == Predecessor(fl, p)
      ensures found ==> NextFit(SizeList(), w, p, c) == true && c < |fl| && before == Predecessor(fl, c)
      ensures !found ==> NoFit(SizeList(), w) && end == Predecessor(fl, |fl|)
    {
      end := last;
      found, before, c := SearchToEnd(w, prev, p);
      if !found {
        end := before;
        found, before, c := SearchFrom(w, Head, prev, 0, p);
      }
    }

    /** `caml_fl_allocate_r`, next fit: NULL exactly if no listed block is large enough. */
    method NextFitAllocate(b: Block, ghost p: nat) returns (hp: Link, ghost c: nat)
      requires ListOk(h, chunks, next, fl, size) && b.wosize >= 1 && b.color != Blue && p <= |fl|
               && prev == Predecessor(fl, p)
      modifies this`h, this`next, this`size, this`merge, this`m, this`prev, this`last, this`fl
      ensures ListOk(h, chunks, next, fl, size) == true && OnList(fl, prev)
      ensures hp == Nil ==> NoFit(old(SizeList()), b.wosize) && View() == old(View()) && last == Predecessor(fl, |fl|)
      ensures hp != Nil ==>
                && hp.At? && Allocates(old(View()), b, c, hp.hp, View()) == true
                && prev == Predecessor(old(fl), c) && NextFit(old(SizeList()), b.wosize, p, c) == true
    {
      var found, before, end;
      found, before, end, c := SearchRound(b.wosize, p);
      last := end;
      if !found {
        PrevListed(fl, prev, p);
        return Nil, c;
      }
      ListedSize(h, fl, c);
      StillListed(h, fl, c, b.wosize);
      prev := before;
      var r := TakeAt(b, before, c);
      hp := At(r);
    }

    // ----- First fit: the table -----

    /** Search in the table; the result is its length if no entry is large enough. */
    method SearchTable(w: nat) returns (i: nat)
      requires Lists(h, fl) && Chain(next, fl) && Places(fl, flp, rec)
      ensures i == FindEntry(SizeList(), rec, w, 0)
    {
      i := 0;
      while i < |flp|
        invariant i <= |rec| && FindEntry(SizeList(), rec, w, 0) == FindEntry(SizeList(), rec, w, i)
      {
        PlacedAt(fl, next, flp, rec, i);
        ListedSize(h, fl, rec[i]);
        if h[next[flp[i]].hp].wosize >= w {
          return;
        }
        i := i + 1;
      }
    }

    /** Where the extension of the table starts. */
    method StartExtension() returns (before: Link, top: nat)
      requires Lists(h, fl) && Chain(next, fl) && ValidTable()
      ensures Start(rec, bp) <= |fl| && before == Predecessor(fl, Start(rec, bp)) && top == Top(SizeList(), rec, |rec|)
    {
      if flp == [] {
        return Head, 0;
      }
      var n := |flp| - 1;
      PlacedAt(fl, next, flp, rec, n);
      ListedSize(h, fl, rec[n]);
      before := next[flp[n]];
      top := h[before.hp].wosize;
      if beyond != Nil {
        before := beyond;
      }
    }

    /** Extend the table until an entry is large enough, the list ends or the table is full:
        the new table, the new `beyond`, and the last block of the list if it ends. */
    method ExtendTable(w: nat) returns (found: bool, table: seq<Link>, mark: Link, end: Link, ghost places: seq<nat>)
      requires Lists(h, fl) && Chain(next, fl) && ValidTable()
      ensures Scanned(table, mark, end, places, Extend(SizeList(), rec, Start(rec, bp), w)) == true
      ensures found == Extend(SizeList(), rec, Start(rec, bp), w).Found?
    {
      var before, top := StartExtension();
      ghost var z, p := SizeList(), Start(rec, bp);
      found, table, mark, end, places := false, flp, Nil, Nil, rec;
      while |table| < FLP_MAX
        invariant Places(fl, table, places) && |table| <= FLP_MAX && p <= |fl| && before == Predecessor(fl, p)
        invariant top == Top(z, places, |places|) && Extend(z, rec, Start(rec, bp), w) == Extend(z, places, p, w)
        invariant |table| == FLP_MAX ==> mark == LinkOf(fl, FullMark(rec, places))
        decreases |fl| - p
      {
        assert Linked(next, fl, p);
        var cur := next[before];
        if cur == Nil {
          end, mark := before, if before == Head then Nil else before;
          return;
        }
        ListedSize(h, fl, p);
        var sz := h[cur.hp].wosize;
        mark := cur;
        if sz > top {
          AppendPlace(fl, table, places, p);
          table, places := table + [before], places + [p];
          if sz >= w {
            found := true;
            return;
          }
          top := sz;
        }
        before, p := cur, p + 1;
      }
    }

    ghost predicate Scanned(table: seq<Link>, mark: Link, end: Link, places: seq<nat>, s: Scan)
      reads this
    {
      && places == s.rec && Places(fl, table, places)
      && (s.Ended? ==> end == Predecessor(fl, |fl|) && mark == LinkOf(fl, |fl| - 1))
      && (s.Full? ==> end == Nil && mark == LinkOf(fl, FullMark(rec, places)))
    }

    /** The table is full: search behind it. The result is the predecessor of the first block that
        is large enough, or the last block, and the new `beyond`. That is the last block on the
        way that is smaller than the last entry: all it skips is smaller than `w`, but not always
        as small as the last entry. */
    method SlowSearch(w: nat) returns (found: bool, before: Link, mark: Link, ghost s: Search)
      requires Lists(h, fl) && Chain(next, fl) && Represented(TableView()) && FullTable(SizeList(), rec, bp, w)
      ensures var z, top := SizeList(), Top(SizeList(), rec, |rec|);
              var p := if bp >= 0 then bp + 1 else rec[|rec| - 1];
              p <= |fl| && s == Slow(z, p, w, top, bp) && SearchedFrom(z, p, w, top, bp, s) == true
      ensures s.c <= |fl| && before == Predecessor(fl, s.c) && mark == LinkOf(fl, s.mark) && found == (s.c < |fl|)
    {
      ghost var n := |rec| - 1;
      PlacedAt(fl, next, flp, rec, n);
      ListedSize(h, fl, rec[n]);
      BehindIs(SizeList(), rec, bp, w);
      var top := h[next[flp[|flp| - 1]].hp].wosize;
      if beyond != Nil {
        found, before, mark, s := SearchBehind(w, top, beyond, bp + 1, bp);
      } else {
        found, before, mark, s := SearchBehind(w, top, flp[|flp| - 1], rec[n], bp);
      }
    }

    /** The loop of that search, from position `p` on. */
    method SearchBehind(w: nat, top: nat, start: Link, ghost p: nat, ghost q0: int)
      returns (found: bool, before: Link, mark: Link, ghost s: Search)
      requires Lists(h, fl) && Chain(next, fl) && p <= |fl| && start == Predecessor(fl, p) && beyond == LinkOf(fl, q0)
               && top < w
      ensures s == Slow(SizeList(), p, w, top, q0)
      ensures s.c <= |fl| && before == Predecessor(fl, s.c) && mark == LinkOf(fl, s.mark) && found == (s.c < |fl|)
    {
      before, mark, found := start, beyond, false;
      ghost var c, q := p, q0;
      s := Slow(SizeList(), c, w, top, q);
      assert Linked(next, fl, c);
      while next[before] != Nil
        invariant c <= |fl| && before == Predecessor(fl, c) && before in next && next[before] == Element(fl, c)
        invariant s == Slow(SizeList(), c, w, top, q) && mark == LinkOf(fl, q)
        decreases |fl| - c
      {
        var cur := next[before];
        ListedSize(h, fl, c);
        var sz := h[cur.hp].wosize;
        if sz < top {
          mark, q := cur, c;
        } else if sz >= w {
          found := true;
          return;
        }
        before, c := cur, c + 1;
        assert Linked(next, fl, c);
      }
    }

    // ----- First fit: allocation -----

    /** Take `b` from the last element of the table. */
    method TakeLastEntry(b: Block, i: nat) returns (hp: nat)
      requires ListOk(h, chunks, next, fl, size) && Places(fl, flp, rec) && CanTake(SizeList(), rec, b.wosize, i)
      requires i + 1 == |rec| && b.color != Blue
      modifies this`h, this`next, this`size, this`merge, this`m, this`fl, this`flp, this`rec, this`beyond, this`bp
      ensures ListOk(h, chunks, next, fl, size) == true
      ensures Leaves(old(View()), b, TakeLast(old(SizeList()), old(rec), b.wosize, i), At(hp), TableView()) == true
    {
      ghost var s, o := View(), TakeLast(SizeList(), rec, b.wosize, i);
      TakeWhere(SizeList(), rec, b.wosize, i);
      PlacedAt(fl, next, flp, rec, i);
      ListedSize(h, fl, rec[i]);
      var before := flp[i];
      var cur := next[before].hp;
      var detached := h[cur].wosize < b.wosize + 2;
      ghost var z, fl0 := SizeList(), fl;
      hp := TakeAt(b, before, rec[i]);
      StartShortening(z, fl0, flp, rec, b.wosize, i, SizeList(), fl);
      ShortenTable(i, before, cur, detached, o);
      PickLeaves(s, b, o, hp, TableView());
    }

    /** The block of the last entry was removed or reduced. */
    method ShortenTable(i: nat, before: Link, cur: nat, detached: bool, ghost o: Outcome)
      requires Lists(h, fl) && Chain(next, fl) && Shortening(SizeList(), fl, flp, rec, i, before, cur, detached, o)
      modifies this`flp, this`rec, this`beyond, this`bp
      ensures Represented(TableView()) && o.Pick? && rec == o.rec && bp == o.bp
    {
      if detached {
        beyond := if before == Head then Nil else before;
        flp := flp[..i];
      } else {
        ListedSize(h, fl, rec[i]);
        var top := PreviousTop(i);
        if h[cur].wosize <= top {
          beyond := At(cur);
          flp := flp[..i];
        } else {
          beyond := Nil;
        }
      }
      rec, bp := o.rec, o.bp;
    }

    /** The size of the element of entry `i` - 1, or 0. */
    method PreviousTop(i: nat) returns (top: nat)
      requires Lists(h, fl) && Chain(next, fl) && i <= |flp| && i <= |rec| && Places(fl, flp[..i], rec[..i])
      ensures top == Top(SizeList(), rec, i)
    {
      if i == 0 {
        return 0;
      }
      PlacedAt(fl, next, flp[..i], rec[..i], i - 1);
      ListedSize(h, fl, rec[i - 1]);
      top := h[next[flp[i - 1]].hp].wosize;
    }

    /** Collect the predecessors of the records from position `p0`, whose predecessor is `start`,
        up to the predecessor `stop` of position `q`, until one is as large as `limit`. The buffer
        has room for `FLP_MAX` of them: `overrun` says that there are more. */
    method CollectRecords(start: Link, stop: Link, top0: nat, limit: nat, ghost rec0: seq<nat>, ghost p0: nat,
                          ghost q: nat)
      returns (overrun: bool, buf: seq<Link>, ghost found: seq<nat>)
      requires Lists(h, fl) && Chain(next, fl) && p0 <= q <= |fl|
      requires start == Predecessor(fl, p0) && stop == Predecessor(fl, q) && top0 == Top(SizeList(), rec0, |rec0|)
      ensures overrun <==> |Collect(SizeList(), rec0, p0, q, limit)| - |rec0| > FLP_MAX
      ensures !overrun ==> Places(fl, buf, found) && Collect(SizeList(), rec0, p0, q, limit) == rec0 + found
    {
      var before, top: nat := start, top0;
      ghost var p: nat := p0;
      overrun, buf, found := false, [], [];
      assert rec0 + found == rec0;
      while before != stop
        invariant p0 <= p <= q && before == Predecessor(fl, p) && Places(fl, buf, found) && |buf| <= FLP_MAX
        invariant top == Top(SizeList(), rec0 + found, |rec0 + found|)
        invariant Collect(SizeList(), rec0, p0, q, limit) == Collect(SizeList(), rec0 + found, p, q, limit)
        decreases q - p
      {
        assert Linked(next, fl, p);
        if p == q {
          assert false;
        }
        var cur := next[before];
        ListedSize(h, fl, p);
        var sz := h[cur.hp].wosize;
        if sz > top {
          CollectPrefix(SizeList(), rec0 + found + [p], p + 1, q, limit);
          if |buf| == FLP_MAX {
            overrun := true;
            return;
          }
          AppendPlace(fl, buf, found, p);
          assert rec0 + found + [p] == rec0 + (found + [p]);
          buf, found, top := buf + [before], found + [p], sz;
          if sz >= limit {
            return;
          }
        }
        before, p := cur, p + 1;
      }
      if p < q {
        OtherBefore(fl, p, q);
      }
    }

    /** Take `b` from entry `i`, which is not the last, and bring the table up to date. */
    method TakeInnerEntry(b: Block, i: nat) returns (hp: nat, overrun: bool)
      requires ListOk(h, chunks, next, fl, size) && ValidTable() && CanTake(SizeList(), rec, b.wosize, i)
      requires i + 1 < |rec| && b.color != Blue
      modifies this`h, this`next, this`size, this`merge, this`m, this`fl, this`flp, this`rec, this`beyond, this`bp
      ensures overrun == TakeInner(old(SizeList()), old(rec), old(bp), b.wosize, i).Overrun?
      ensures !overrun ==>
                && ListOk(h, chunks, next, fl, size) == true
                && Leaves(old(View()), b, TakeInner(old(SizeList()), old(rec), old(bp), b.wosize, i), At(hp),
                          TableView()) == true
    {
      ghost var s, o := View(), TakeInner(SizeList(), rec, bp, b.wosize, i);
      TakeWhere(SizeList(), rec, b.wosize, i);
      PlacedAt(fl, next, flp, rec, i);
      ListedSize(h, fl, rec[i]);
      ghost var h0, fl0 := h, fl;
      var before := flp[i];
      var cur := next[before].hp;
      var oldsz := h[cur].wosize;
      hp := TakeAt(b, before, rec[i]);
      overrun := RebuildTable(b.wosize, i, before, cur, oldsz, h0, fl0);
      if !overrun {
        PickLeaves(s, b, o, hp, TableView());
      }
    }

    /** `update_flp`: `w` words were taken from the block of entry `i`, which had `oldsz`. */
    method RebuildTable(w: nat, i: nat, before: Link, cur: nat, oldsz: nat, ghost h0: Heap, ghost fl0: seq<nat>)
      returns (overrun: bool)
      requires Lists(h, fl) && Chain(next, fl) && Rebuilding(h0, fl0, flp, beyond, rec, bp, w, i, h, fl)
      requires before == Predecessor(fl0, rec[i]) && cur == fl0[rec[i]] && oldsz == Sizes(h0, fl0)[rec[i]]
      modifies this`flp, this`rec, this`beyond, this`bp
      ensures overrun == TakeInner(Sizes(h0, fl0), old(rec), old(bp), w, i).Overrun?
      ensures !overrun ==>
                && Represented(TableView())
                && TakeInner(Sizes(h0, fl0), old(rec), old(bp), w, i) == Pick(old(rec)[i], rec, bp)
    {
      ghost var o := TakeInner(Sizes(h0, fl0), rec, bp, w, i);
      var detached := oldsz < w + 2;
      var later := flp[i + 1..];
      if detached && flp[i + 1] == At(cur) {
        later := later[0 := before];
      }
      var buf;
      ghost var found;
      overrun, buf, found := CollectAt(w, i, before, cur, oldsz, later[0], h0, fl0);
      if overrun {
        return;
      }
      RebuiltPlaces(h0, fl0, flp, beyond, rec, bp, w, i, h, fl, buf, found, later);
      StoreTable(flp[..i] + buf + later, Spliced(Sizes(h0, fl0), rec, w, i), o);
    }

    /** Store the new table, or as much of it as there is room for. */
    method StoreTable(table: seq<Link>, ghost places: seq<nat>, ghost o: Outcome)
      requires Chain(next, fl) && Places(fl, table, places) && o.Pick?
      requires |places| <= FLP_MAX ==> o.rec == places && beyond == LinkOf(fl, o.bp)
      requires |places| > FLP_MAX ==> o.rec == places[..FLP_MAX - 1] && o.bp == places[FLP_MAX - 1]
      modifies this`flp, this`rec, this`beyond, this`bp
      ensures Represented(TableView()) && rec == o.rec && bp == o.bp
    {
      if FLP_MAX >= |table| {
        flp := table;
      } else {
        OverflownPlaces(fl, next, table, places);
        beyond := next[table[FLP_MAX - 1]];
        flp := table[..FLP_MAX - 1];
      }
      rec, bp := o.rec, o.bp;
    }

    /** The entries between `i` and `i` + 1, whose entry is now `stop`. */
    method CollectAt(w: nat, i: nat, before: Link, cur: nat, oldsz: nat, stop: Link, ghost h0: Heap,
                     ghost fl0: seq<nat>)
      returns (overrun: bool, buf: seq<Link>, ghost found: seq<nat>)
      requires Lists(h, fl) && Chain(next, fl) && Rebuilding(h0, fl0, flp, beyond, rec, bp, w, i, h, fl)
      requires before == Predecessor(fl0, rec[i]) && cur == fl0[rec[i]] && oldsz == Sizes(h0, fl0)[rec[i]]
      requires stop == if oldsz < w + 2 && flp[i + 1] == At(cur) then before else flp[i + 1]
      ensures overrun <==> |NewEntries(Sizes(h0, fl0), rec, w, i)| - i > FLP_MAX
      ensures !overrun ==> Places(fl, buf, found) && NewEntries(Sizes(h0, fl0), rec, w, i) == rec[..i] + found
    {
      ghost var c, detached := rec[i], Detached(Sizes(h0, fl0), rec[i], w);
      TakeWhere(Sizes(h0, fl0), rec, w, i);
      EarlierPlaces(fl0, flp, rec, i, detached);
      LaterPlace(fl0, flp, rec, i, detached, i + 1);
      var top := PreviousTop(i);
      overrun, buf, found := CollectRecords(before, stop, top, oldsz, rec[..i], c, Moved(c, detached, rec[i + 1]));
    }

    /** `caml_fl_allocate_r`, first fit, against what is specified for the sizes, the table and
        `beyond`. After an overrun of the buffer nothing is known. */
    method FirstFitAllocate(b: Block) returns (hp: Link, overrun: bool)
      requires ListOk(h, chunks, next, fl, size) && Represented(TableView()) && b.color != Blue
      requires Ready(SizeList(), rec, bp, b.wosize)
      modifies this`h, this`next, this`size, this`merge, this`m, this`last, this`fl, this`flp, this`rec, this`beyond,
               this`bp
      ensures overrun == Allocate(old(SizeList()), old(rec), old(bp), b.wosize).Overrun?
      ensures !overrun ==>
                && ListOk(h, chunks, next, fl, size) == true
                && Leaves(old(View()), b, Allocate(old(SizeList()), old(rec), old(bp), b.wosize), hp, TableView()) ==
                   true
      ensures !overrun && hp == Nil ==> last == Predecessor(fl, |fl|)
    {
      FindEntryIs(SizeList(), rec, b.wosize, 0);
      var i := SearchTable(b.wosize);
      overrun := false;
      if i == |flp| {
        hp := AllocateBeyond(b);
      } else {
        hp, overrun := TakeAnyEntry(b, i);
      }
    }

    /** Take `b` from entry `i` of the table. */
    method TakeAnyEntry(b: Block, i: nat) returns (hp: Link, overrun: bool)
      requires ListOk(h, chunks, next, fl, size) && Represented(TableView()) && b.color != Blue
      requires Ready(SizeList(), rec, bp, b.wosize) && CanTake(SizeList(), rec, b.wosize, i)
      modifies this`h, this`next, this`size, this`merge, this`m, this`fl, this`flp, this`rec, this`beyond, this`bp
      ensures overrun == TakeEntry(old(SizeList()), old(rec), old(bp), b.wosize, i).Overrun?
      ensures !overrun ==>
                && ListOk(h, chunks, next, fl, size) == true && hp != Nil
                && Leaves(old(View()), b, TakeEntry(old(SizeList()), old(rec), old(bp), b.wosize, i), hp,
                          TableView()) == true
    {
      var r;
      if i == |flp| - 1 {
        r := TakeLastEntry(b, i);
        overrun := false;
      } else {
        HitIsLast(SizeList(), rec, b.wosize, i);
        r, overrun := TakeInnerEntry(b, i);
      }
      hp := At(r);
    }

    /** No entry is large enough: extend the table, or search behind it when it is full. */
    method AllocateBeyond(b: Block) returns (hp: Link)
      requires ListOk(h, chunks, next, fl, size) && ValidTable() && TableSmall(SizeList(), rec, b.wosize)
      requires b.wosize >= 1 && b.color != Blue
      modifies this`h, this`next, this`size, this`merge, this`m, this`last, this`fl, this`flp, this`rec, this`beyond,
               this`bp
      ensures ListOk(h, chunks, next, fl, size) == true && (hp == Nil ==> last == Predecessor(fl, |fl|))
      ensures Leaves(old(View()), b, TakeFurther(old(SizeList()), old(rec), old(bp), b.wosize), hp, TableView()) ==
              true
    {
      ghost var o := TakeFurther(SizeList(), rec, bp, b.wosize);
      FurtherCases(SizeList(), rec, bp, b.wosize);
      var found, table, mark, end;
      ghost var places;
      found, table, mark, end, places := ExtendTable(b.wosize);
      if found {
        hp := TakeFound(b, table, places);
      } else if end == Nil {
        hp := TakeFull(b, table, mark, places, FullMark(rec, places), o);
      } else {
        hp := Nil;
        StoreFailure(b, table, mark, end, places, o);
      }
    }

    /** The list has ended. */
    method StoreFailure(ghost b: Block, table: seq<Link>, mark: Link, end: Link, ghost places: seq<nat>,
                        ghost o: Outcome)
      requires Places(fl, table, places) && mark == LinkOf(fl, |fl| - 1) && o == Fail(places, |fl| - 1)
      modifies this`last, this`flp, this`rec, this`beyond, this`bp
      ensures last == end && Leaves(old(View()), b, o, Nil, TableView()) == true
    {
      flp, rec, beyond, bp := table, places, mark, |fl| - 1;
      last := end;
      FailLeaves(View(), b, o, TableView());
    }

    /** The table is full. */
    method TakeFull(b: Block, table: seq<Link>, mark: Link, ghost places: seq<nat>, ghost q: int, ghost o: Outcome)
      returns (hp: Link)
      requires ListOk(h, chunks, next, fl, size) && Places(fl, table, places) && mark == LinkOf(fl, q)
               && b.color != Blue
      requires FullTable(SizeList(), places, q, b.wosize) && o == TakeBehind(SizeList(), places, q, b.wosize)
      modifies this`h, this`next, this`size, this`merge, this`m, this`last, this`fl, this`flp, this`rec, this`beyond,
               this`bp
      ensures ListOk(h, chunks, next, fl, size) == true && (hp == Nil ==> last == Predecessor(fl, |fl|))
      ensures Leaves(old(View()), b, o, hp, TableView()) == true
    {
      flp, rec, beyond, bp := table, places, mark, q;
      hp := SlowAllocate(b, o);
    }

    /** Take `b` from the entry that has just been found. */
    method TakeFound(b: Block, table: seq<Link>, ghost places: seq<nat>) returns (hp: Link)
      requires ListOk(h, chunks, next, fl, size) && Places(fl, table, places) && places != [] && b.color != Blue
      requires CanTake(SizeList(), places, b.wosize, |places| - 1)
      modifies this`h, this`next, this`size, this`merge, this`m, this`fl, this`flp, this`rec, this`beyond, this`bp
      ensures ListOk(h, chunks, next, fl, size) == true
      ensures Leaves(old(View()), b, TakeLast(old(SizeList()), places, b.wosize, |places| - 1), hp, TableView()) ==
              true && hp != Nil
    {
      ghost var s := View();
      flp, rec := table, places;
      assert View() == s;
      var r := TakeLastEntry(b, |flp| - 1);
      hp := At(r);
    }

    /** First fit behind a full table. */
    method SlowAllocate(b: Block, ghost o: Outcome) returns (hp: Link)
      requires ListOk(h, chunks, next, fl, size) && Represented(TableView()) && b.color != Blue
      requires FullTable(SizeList(), rec, bp, b.wosize) && o == TakeBehind(SizeList(), rec, bp, b.wosize)
      modifies this`h, this`next, this`size, this`merge, this`m, this`last, this`fl, this`beyond, this`bp
      ensures ListOk(h, chunks, next, fl, size) == true && (hp == Nil ==> last == Predecessor(fl, |fl|))
      ensures Leaves(old(View()), b, o, hp, TableView()) == true
    {
      ghost var s0 := View();
      var found, before, mark;
      ghost var s;
      found, before, mark, s := SlowSearch(b.wosize);
      if found {
        hp := TakeBehindTable(b, before, mark, s, o);
      } else {
        beyond, bp := mark, s.mark;
        last, hp := before, Nil;
        FailLeaves(s0, b, o, TableView());
      }
    }

    /** Take `b` from an element behind the full table. */
    method TakeBehindTable(b: Block, before: Link, mark: Link, ghost s: Search, ghost o: Outcome) returns (hp: Link)
      requires ListOk(h, chunks, next, fl, size) && Places(fl, flp, rec) && b.color != Blue && b.wosize >= 1
      requires s.c < |fl| && before == Predecessor(fl, s.c) && mark == LinkOf(fl, s.mark) && s.mark < s.c
      requires Entries(rec, s.c) && SizeList()[s.c] >= b.wosize && o == Pick(s.c, rec, s.mark)
      modifies this`h, this`next, this`size, this`merge, this`m, this`fl, this`beyond, this`bp
      ensures ListOk(h, chunks, next, fl, size) == true && Leaves(old(View()), b, o, hp, TableView()) == true
      ensures hp != Nil
    {
      ghost var s0 := View();
      BehindPlaces(fl, flp, rec, s.c, Detached(SizeList(), s.c, b.wosize), s.mark);
      beyond, bp := mark, s.mark;
      var r := TakeAt(b, before, s.c);
      hp := At(r);
      PickLeaves(s0, b, o, r, TableView());
    }

    /** `truncate_flp_r`: forget the entries whose blocks are not before `changed`. */
    method TruncateTable(changed: Link, ghost at: nat)
      requires Lists(h, fl) && Chain(next, fl) && ValidTable() && CutPoint(fl, changed, at)
      modifies this`flp, this`rec, this`beyond, this`bp
      ensures rec == EntriesBefore(old(rec), at) && bp == BeyondBefore(old(bp), at) && Represented(TableView())
      ensures Entries(rec, at) && bp < at
    {
      BeforeIs(rec, at, |fl|);
      if changed == Head {
        flp, rec, beyond, bp := [], [], Nil, -1;
        return;
      }
      var n := KeptEntries(changed, at);
      PrefixPlaces(fl, flp, rec, n);
      flp, rec := flp[..n], rec[..n];
      if beyond.At? && beyond.hp >= changed.hp {
        beyond, bp := Nil, -1;
      }
    }

    /** The number of entries whose blocks are before `changed`. */
    method KeptEntries(changed: Link, ghost at: nat) returns (n: nat)
      requires Chain(next, fl) && Places(fl, flp, rec) && CutPoint(fl, changed, at) && changed.At?
      ensures n <= |rec| && rec[..n] == EntriesBefore(rec, at)
    {
      n := |flp|;
      assert rec[..n] == rec;
      while n > 0
        invariant 0 <= n <= |flp| && EntriesBefore(rec, at) == EntriesBefore(rec[..n], at)
      {
        PlacedAt(fl, next, flp, rec, n - 1);
        if next[flp[n - 1]].hp < changed.hp {
          break;
        }
        assert rec[..n][..n - 1] == rec[..n - 1];
        n := n - 1;
      }
    }

    // ----- Merging -----

    /** `caml_fl_merge_block_r` on the dead block `a` at the sweeper: it is joined with the fragment
        before it, with the free block behind it and with the free block before it, as far as
        blocks may be that large. The result is where the sweeper goes on. */
    method MergeBlock(a: nat) returns (adj: nat, ghost p: Prev)
      requires Inv(View()) && ListOk(h, chunks, next, fl, size) && a == sweep && a in h && h[a].color == White
      modifies this`h, this`next, this`size, this`merge, this`m, this`fragment, this`prev, this`fl
      ensures Reclaims(old(View()), p, View().(sweep := adj)) == true && ListOk(h, chunks, next, fl, size) == true
      ensures OnList(old(fl), old(prev)) ==> OnList(fl, prev)
    {
      MergePlace(View());
      ghost var fl0 := fl;
      var before := merge;
      size := size + 1 + h[a].wosize;
      var start, wosize := a, h[a].wosize;
      if fragment + 1 == a && fragment >= 0 && 1 + wosize <= MAX_WOSIZE {
        start, wosize := fragment, wosize + 1;
        size := size + 1;
      }
      wosize := JoinNext(a, start, wosize, before);
      adj := start + 1 + wosize;
      p := JoinPrev(a, start, wosize, before, fl0);
    }

    /** Take the free block behind the joined block in. */
    method JoinNext(a: nat, start: nat, wosize: nat, before: Link) returns (wosize': nat)
      requires Place(h, chunks, fl, m, a) && Chain(next, fl) && before == Predecessor(fl, m)
               && FragmentOk(h, fragment, a)
      requires start == JoinedStart(h, a, fragment) && start + 1 + wosize == End(h, a)
      modifies this`next, this`prev, this`fl
      ensures start + 1 + wosize' == JoinedEnd(h, a, fragment)
      ensures fl == Joined(h, old(fl), m, a, fragment) && Chain(next, fl) && m <= |fl| && before == Predecessor(fl, m)
      ensures OnList(old(fl), old(prev)) ==> OnList(fl, prev)
    {
      NextIsElement(h, chunks, fl, m, a);
      assert Linked(next, fl, m);
      var cur, adj := next[before], start + 1 + wosize;
      wosize' := wosize;
      JoinedIn(h, chunks, fl, m, a, fragment, a);
      if cur == At(adj) && wosize + 1 + h[adj].wosize <= MAX_WOSIZE {
        UnlinkOk(next, fl, m);
        WithoutOnList(fl, m, prev);
        next := next[before := next[cur]];
        if prev == cur {
          prev := before;
        }
        wosize' := wosize + 1 + h[adj].wosize;
        fl := Without(fl, m);
      }
    }

    /** Let the free block before the joined block absorb it, or list it, or leave it as
        a fragment. */
    method JoinPrev(a: nat, start: nat, wosize: nat, before: Link, ghost fl0: seq<nat>) returns (ghost p: Prev)
      requires Joining(h, chunks, fl0, m, a, fragment, fl, next, start, wosize, size) && before == Predecessor(fl, m)
               && merge == before
      requires a == sweep && h[a].color == White
      modifies this`h, this`next, this`size, this`merge, this`m, this`fragment, this`fl
      ensures Reclaims(old(View()).(fl := fl0, size := Total(old(h), fl0)), p, View().(sweep := start + 1 + wosize)) ==
              true
              && ListOk(h, chunks, next, fl, size) == true
      ensures OnList(old(fl), prev) ==> OnList(fl, prev)
    {
      FindPrev(h, chunks, fl0, m, a, fragment);
      if before.At? && before.hp + 1 + h[before.hp].wosize == start && h[before.hp].wosize + 1 + wosize < MAX_WOSIZE {
        p := Prev(before.hp);
        Absorb(a, start, wosize, before.hp, fl0);
      } else {
        p := NoPrev;
        ListJoined(a, start, wosize, before, fl0);
      }
    }

    /** The free block at `q` absorbs the joined one. */
    method Absorb(a: nat, start: nat, wosize: nat, q: nat, ghost fl0: seq<nat>)
      requires Joining(h, chunks, fl0, m, a, fragment, fl, next, start, wosize, size) && m > 0 && q == fl0[m - 1]
      requires a == sweep && h[a].color == White && JoinsPrev(h, a, fragment, q)
      modifies this`h
      ensures Reclaims(old(View()).(fl := fl0, size := Total(old(h), fl0)), Prev(q),
                       View().(sweep := start + 1 + wosize)) == true
      ensures ListOk(h, chunks, next, fl, size) == true
    {
      ghost var s0 := View().(fl := fl0, size := Total(h, fl0));
      ghost var s := Swept(s0, Prev(q));
      SweptReclaims(s0, Prev(q));
      AbsorbedOk(h, chunks, fl0, m, a, fragment, fl, next, start, wosize, size);
      h := Coalesce(h, q, start + 1 + wosize);
      assert View().(sweep := start + 1 + wosize) == s;
    }

    method ListJoined(a: nat, start: nat, wosize: nat, before: Link, ghost fl0: seq<nat>)
      requires Joining(h, chunks, fl0, m, a, fragment, fl, next, start, wosize, size) && before == Predecessor(fl, m)
               && merge == before
      requires a == sweep && h[a].color == White && PrevOk(h, a, fragment, NoPrev)
      modifies this`h, this`next, this`size, this`merge, this`m, this`fragment, this`fl
      ensures Reclaims(old(View()).(fl := fl0, size := Total(old(h), fl0)), NoPrev,
                       View().(sweep := start + 1 + wosize)) == true
              && ListOk(h, chunks, next, fl, size) == true
      ensures OnList(old(fl), prev) ==> OnList(fl, prev)
    {
      ghost var s0 := View().(fl := fl0, size := Total(h, fl0));
      ghost var s := Swept(s0, NoPrev);
      SweptReclaims(s0, NoPrev);
      if wosize != 0 {
        InsertJoined(a, start, wosize, before, fl0, s);
      } else {
        LeftOk(h, chunks, fl0, m, a, fragment, fl, next, start, wosize, size);
        fragment := start;
        size := size - 1;
        assert View().(sweep := start + 1 + wosize) == s;
      }
    }

    method InsertJoined(a: nat, start: nat, wosize: nat, before: Link, ghost fl0: seq<nat>, ghost s: FreeState)
      requires Joining(h, chunks, fl0, m, a, fragment, fl, next, start, wosize, size) && before == Predecessor(fl, m)
               && merge == before
      requires a == sweep && PrevOk(h, a, fragment, NoPrev) && wosize != 0
               && s == Swept(View().(fl := fl0, size := Total(h, fl0)), NoPrev)
      modifies this`h, this`next, this`merge, this`m, this`fl
      ensures View().(sweep := start + 1 + wosize) == s && ListOk(h, chunks, next, fl, size) == true
      ensures OnList(old(fl), prev) ==> OnList(fl, prev)
    {
      ListedOk(h, chunks, fl0, m, a, fragment, fl, next, start, wosize, size);
      assert Linked(next, fl, m);
      InsertOnList(fl, m, start, prev);
      next := next[At(start) := next[before]][before := At(start)];
      merge := At(start);
      h := Coalesce(h, start, start + 1 + wosize);
      fl, m := s.fl, s.m;
    }

    // ----- Extending the heap -----

    /** The position of address `a` in the list. */
    method FindPlace(a: nat) returns (before: Link, ghost c: nat)
      requires Lists(h, fl) && Chain(next, fl) && a !in fl
      ensures Belongs(fl, c, a) && before == Predecessor(fl, c)
    {
      before, c := Head, 0;
      assert Linked(next, fl, 0);
      while next[before] != Nil && next[before].hp < a
        invariant c <= |fl| && before == Predecessor(fl, c) && before in next && next[before] == Element(fl, c)
        invariant forall i :: 0 <= i < c ==> fl[i] < a
        decreases |fl| - c
      {
        before, c := next[before], c + 1;
        assert Linked(next, fl, c);
      }
      forall i | c <= i < |fl| ensures a < fl[i] {
        assert Ordered(fl, c, i);
        assert fl[i] in fl && fl[c] in fl;
      }
    }

    /** List the new block `a` of `wosize` words behind `before`; if that is the last block before
        the sweeper, the new block may now be it. */
    method AddAfter(a: nat, wosize: nat, before: Link, ghost c: nat, ghost chunks': seq<Chunk>)
      requires ListOk(h, chunks, next, fl, size) && a !in h && wosize >= 1 && Belongs(fl, c, a)
               && before == Predecessor(fl, c)
      requires Tiled(WithBlock(h, a, wosize), chunks')
      modifies this`h, this`next, this`size, this`merge, this`m, this`fl, this`chunks
      ensures Extends(old(View()), a, wosize, c, View()) == true && ListOk(h, chunks, next, fl, size) == true
              && chunks == chunks'
      ensures OnList(old(fl), prev) ==> OnList(fl, prev)
    {
      AddedOk(h, chunks, next, fl, size, c, a, wosize, chunks');
      ghost var s := Extended(View(), a, wosize, c, chunks');
      ExtendedExtends(View(), a, wosize, c, chunks');
      assert Linked(next, fl, c);
      InsertOnList(fl, c, a, prev);
      size := size + 1 + wosize;
      next := next[At(a) := next[before]][before := At(a)];
      if before == merge && a < sweep {
        merge := At(a);
      }
      h := WithBlock(h, a, wosize);
      fl, m, chunks := s.fl, s.m, chunks';
      assert View() == s;
    }

    /** Is the new block behind the last one? */
    method IsLast(a: nat) returns (atEnd: bool)
      requires Lists(h, fl) && a !in h && last == Predecessor(fl, |fl|)
      ensures atEnd ==> Belongs(fl, |fl|, a)
    {
      atEnd := *;
      if last != Head {
        atEnd := a > last.hp;
      }
      NotListed(h, fl, a);
      if atEnd {
        AtEnd(fl, a);
      }
    }

    /** `caml_fl_add_blocks_r` under the next-fit policy, for a chunk of one free block, right
        after an allocation has failed. */
    method AddNextFit(a: nat, wosize: nat, ghost chunks': seq<Chunk>) returns (ghost c: nat)
      requires ListOk(h, chunks, next, fl, size) && last == Predecessor(fl, |fl|) && a !in h && wosize >= 1
      requires Tiled(WithBlock(h, a, wosize), chunks')
      modifies this`h, this`next, this`size, this`merge, this`m, this`fl, this`chunks
      ensures Extends(old(View()), a, wosize, c, View()) == true && ListOk(h, chunks, next, fl, size) == true
              && chunks == chunks'
      ensures OnList(old(fl), prev) ==> OnList(fl, prev)
    {
      NotListed(h, fl, a);
      var atEnd := IsLast(a);
      var before := last;
      c := |fl|;
      if !atEnd {
        before, c := FindPlace(a);
      }
      AddAfter(a, wosize, before, c, chunks');
    }

    /** The same under the first-fit policy. */
    method AddFirstFit(a: nat, wosize: nat, ghost chunks': seq<Chunk>) returns (ghost c: nat, ghost atEnd: bool)
      requires ListOk(h, chunks, next, fl, size) && last == Predecessor(fl, |fl|) && a !in h && wosize >= 1
      requires Tiled(WithBlock(h, a, wosize), chunks') && ValidTable()
      modifies this`h, this`next, this`size, this`merge, this`m, this`fl, this`chunks, this`flp, this`rec, this`beyond,
               this`bp
      ensures Extends(old(View()), a, wosize, c, View()) == true && ListOk(h, chunks, next, fl, size) == true
              && chunks == chunks' && c <= |old(fl)| && (atEnd ==> c == |old(fl)|)
      ensures Represented(TableView()) == true
      ensures rec == GrownTable(old(SizeList()), old(rec), c, atEnd) && bp == GrownBeyond(old(bp), c, atEnd)
    {
      NotListed(h, fl, a);
      var isLast := IsLast(a);
      atEnd := isLast;
      if isLast {
        c := |fl|;
        AddLast(a, wosize, chunks');
      } else {
        var before;
        before, c := FindPlace(a);
        AddInside(a, wosize, before, c, chunks');
      }
    }

    /** At the end of the list the new block goes into the table, if there is room. */
    method AddLast(a: nat, wosize: nat, ghost chunks': seq<Chunk>)
      requires ListOk(h, chunks, next, fl, size) && last == Predecessor(fl, |fl|) && a !in h && wosize >= 1
      requires Tiled(WithBlock(h, a, wosize), chunks') && ValidTable() && Belongs(fl, |fl|, a)
      modifies this`h, this`next, this`size, this`merge, this`m, this`fl, this`chunks, this`flp, this`rec
      ensures Extends(old(View()), a, wosize, |old(fl)|, View()) == true && ListOk(h, chunks, next, fl, size) == true
              && chunks == chunks' && Represented(TableView()) == true
      ensures rec == GrownTable(old(SizeList()), old(rec), |old(fl)|, true)
    {
      ghost var c := |fl|;
      EndPlaces(fl, flp, rec, bp, a);
      if |flp| < FLP_MAX {
        flp, rec := flp + [last], rec + [c];
      }
      AddAfter(a, wosize, last, c, chunks');
    }

    /** Inside the list the table forgets what comes behind the new block. */
    method AddInside(a: nat, wosize: nat, before: Link, ghost c: nat, ghost chunks': seq<Chunk>)
      requires ListOk(h, chunks, next, fl, size) && a !in h && wosize >= 1 && Belongs(fl, c, a)
               && before == Predecessor(fl, c)
      requires Tiled(WithBlock(h, a, wosize), chunks') && ValidTable()
      modifies this`h, this`next, this`size, this`merge, this`m, this`fl, this`chunks, this`flp, this`rec, this`beyond,
               this`bp
      ensures Extends(old(View()), a, wosize, c, View()) == true && ListOk(h, chunks, next, fl, size) == true
              && chunks == chunks' && Represented(TableView()) == true
      ensures rec == EntriesBefore(old(rec), c) && bp == BeyondBefore(old(bp), c)
    {
      TruncateTable(At(a), c);
      assert fl[..c] == Insert(fl, c, a)[..c];
      CutPlaces(fl, flp, rec, bp, c, Insert(fl, c, a));
      AddAfter(a, wosize, before, c, chunks');
    }

    // ----- First fit: allocation and sweeping -----

    /** `caml_alloc_shr_r` under the first-fit policy: allocate from the list, or else from a new
        chunk of one free block of `extra` words at `a`. */
    method AllocShr(b: Block, a: nat, extra: nat, ghost chunks': seq<Chunk>)
      returns (hp: nat, extended: bool, overrun: bool, ghost step: TableStep)
      requires Valid() && ValidTable() && 1 <= b.wosize <= extra && b.color != Blue && a !in h
               && Tiled(WithBlock(h, a, extra), chunks')
      modifies this
      ensures overrun == (Ready(old(SizeList()), old(rec), old(bp), b.wosize)
                && Allocate(old(SizeList()), old(rec), old(bp), b.wosize).Overrun?)
      ensures !overrun ==>
                && Valid() == true && ValidTable() == true && Moves(old(TableView()), step, TableView()) == true
                && (if extended then step.Grow? else step.Take?) && step.b == b && step.hp == hp
    {
      ghost var s, o := TableView(), Allocate(SizeList(), rec, bp, b.wosize);
      step := Miss(0);
      AllocateKeeps(SizeList(), rec, bp, b.wosize);
      var r;
      r, overrun := FirstFitAllocate(b);
      extended := !overrun && r == Nil;
      hp := 0;
      if extended {
        hp, step := ExtendAndTake(b, a, extra, chunks', s);
      } else if !overrun {
        hp := r.hp;
        step := Take(b, o.c, hp);
        TakenMoves(s, b, o, hp, TableView());
      }
    }

    /** The heap is extended after an allocation has failed, and then the allocation succeeds. */
    method ExtendAndTake(b: Block, a: nat, extra: nat, ghost chunks': seq<Chunk>, ghost s0: TableState)
      returns (hp: nat, ghost step: TableStep)
      requires Valid() && ValidTable() && last == Predecessor(fl, |fl|)
      requires 1 <= b.wosize <= extra && b.color != Blue && a !in h && Tiled(WithBlock(h, a, extra), chunks')
      requires TableInv(s0) && s0.free == View() && Fails(s0, b.wosize, rec, bp)
      modifies this
      ensures Valid() == true && ValidTable() == true && step.Grow? && step.b == b && step.hp == hp
      ensures Moves(s0, step, TableView()) == true
    {
      ghost var z, r, q := SizeList(), rec, bp;
      AllocateKeeps(z, s0.rec, s0.bp, b.wosize);
      AddedSizes(h, fl, 0, a, extra);
      ghost var at, atEnd;
      at, atEnd := AddFirstFit(a, extra, chunks');
      ghost var mid := View();
      AddedSizes(s0.free.h, s0.free.fl, at, a, extra);
      GrownReady(z, r, q, b.wosize, at, atEnd, extra);
      ghost var o := Allocate(SizeList(), rec, bp, b.wosize);
      var l, overrun := FirstFitAllocate(b);
      hp := l.hp;
      step := Grow(a, extra, at, atEnd, mid, b, o.c, hp);
      GrownMoves(s0, step, r, q, TableView());
    }

    /** The sweeper looks at one block: a dead one is given back, a free one becomes
        `caml_fl_merge`, and one in use is made white. */
    method SweepFirstFit() returns (ghost step: Step)
      requires Valid() && ValidTable() && sweep in h
      modifies this
      ensures Valid() == true && ValidTable() == true && Moves(old(TableView()), Other(step), TableView()) == true
    {
      ghost var s := TableView();
      var a := sweep;
      if h[a].color == White {
        ghost var p;
        p := ReclaimFirstFit(a);
        step := Reclaim(p);
      } else {
        step := Advance();
      }
      SweptMoves(s, step, TableView());
    }

    /** A dead block under the first-fit policy: the table forgets what the merge may change. */
    method ReclaimFirstFit(a: nat) returns (ghost p: Prev)
      requires Valid() && ValidTable() && a == sweep && a in h && h[a].color == White
      modifies this
      ensures Reclaims(old(View()), p, View()) == true && ListOk(h, chunks, next, fl, size) == true
      ensures Represented(TableView()) == true
      ensures rec == EntriesBefore(old(rec), CutAt(old(m))) && bp == BeyondBefore(old(bp), CutAt(old(m)))
    {
      ghost var s := View();
      MergeCut(s);
      TruncateTable(merge, CutAt(m));
      var adj;
      adj, p := MergeBlock(a);
      sweep := adj;
      ReclaimedTable(s, p, TableView());
    }

    /** Past a block that is not dead. */
    method Advance() returns (ghost step: Step)
      requires Valid() && sweep in h && h[sweep].color != White
      modifies this`h, this`merge, this`m, this`sweep
      ensures Does(old(View()), step, View()) == true && ListOk(h, chunks, next, fl, size) == true
      ensures step in {SkipFree, SkipLive} && SameShape(old(h), h) && fl == old(fl)
    {
      var a := sweep;
      if h[a].color == Blue {
        merge, m := At(a), m + 1;
        step := SkipFree;
      } else {
        RecoloredOk(h, chunks, next, fl, size, h[a := h[a].(color := White)]);
        h := h[a := h[a].(color := White)];
        step := SkipLive;
      }
      sweep := a + 1 + h[a].wosize;
    }

    // ----- Next fit: allocation and sweeping -----

    /** `caml_alloc_shr_r` under the next-fit policy: the list is searched once round from
        `fl_prev`, and the heap is extended only when no listed block is large enough. */
    method AllocShrNextFit(b: Block, a: nat, extra: nat, ghost chunks': seq<Chunk>)
      returns (hp: nat, extended: bool, ghost c: nat, ghost at: nat, ghost mid: FreeState)
      requires Valid() && OnList(fl, prev) && 1 <= b.wosize <= extra && b.color != Blue && a !in h
               && Tiled(WithBlock(h, a, extra), chunks')
      modifies this
      ensures Valid() == true && OnList(fl, prev) && extended == NoFit(old(SizeList()), b.wosize)
      ensures !extended ==> Allocates(old(View()), b, c, hp, View()) == true
      ensures !extended ==> exists p: nat ::
                p <= |old(fl)| && old(prev) == Predecessor(old(fl), p) && NextFit(old(SizeList()), b.wosize, p, c)
      ensures extended ==> Extends(old(View()), a, extra, at, mid) == true && Allocates(mid, b, c, hp, View()) == true
    {
      mid, at := View(), 0;
      ghost var p := ListPlace(fl, prev);
      var r;
      r, c := NextFitAllocate(b, p);
      extended := r == Nil;
      if extended {
        at := AddNextFit(a, extra, chunks');
        ExtendKeeps(old(View()), a, extra, at, View());
        mid := View();
        AddedSizes(old(h), old(fl), at, a, extra);
        assert SizeList()[at] == extra;
        p := ListPlace(fl, prev);
        r, c := NextFitAllocate(b, p);
      }
      AllocKeeps(mid, b, c, r.hp, View());
      hp := r.hp;
    }

    /** The sweeper under the next-fit policy. */
    method SweepNextFit() returns (ghost step: Step)
      requires Valid() && OnList(fl, prev) && sweep in h
      modifies this
      ensures Valid() == true && OnList(fl, prev) && Does(old(View()), step, View()) == true
    {
      if h[sweep].color == White {
        ghost var p;
        var adj;
        adj, p := MergeBlock(sweep);
        sweep := adj;
        step := Reclaim(p);
      } else {
        step := Advance();
      }
      StepKeeps(old(View()), step, View());
    }

    /** `caml_fl_init_merge_r`, and the sweeper at the start of the first chunk. */
    method InitMerge(start: nat)
      requires Valid() && |chunks| > 0 && start == chunks[0].start
      modifies this`merge, this`m, this`fragment, this`sweep
      ensures Valid() == true && Does(old(View()), Restart, View()) == true
    {
      fragment, merge, m, sweep := -1, Head, 0, start;
      RestartKeeps(old(View()), View());
    }
  }
}
