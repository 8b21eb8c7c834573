/**
 What the allocator and the sweeper do to the free blocks, step by step: allocation,
 extension of the heap, and the advance of the sweeper, which gives dead blocks back. In
 every run of these steps `caml_fl_merge` is the last free block before the sweeper, so
 that a dead block is merged at the right place.
 */
module FreeListSteps {
  import opened Mlvalues
  import opened Blocks
  import opened FreeList
  import opened FreeListMerge

  // ----- The free blocks and the sweeper -----

  /** `merge`, the predecessor of element `m`, is the last listed block before `sweep`. */
  ghost predicate SweepPoint(fl: seq<nat>, m: nat, merge: Link, sweep: nat) {
    && m <= |fl| && merge == Predecessor(fl, m)
    && (forall i :: 0 <= i < m ==> fl[i] < sweep) && (forall i :: m <= i < |fl| ==> fl[i] >= sweep)
  }

  /** The heap, the list of its free blocks, `caml_fl_cur_size`, `caml_fl_merge` and its place in
      the list, `last_fragment`, and the address that the sweeper has come to. */
  datatype FreeState = FreeState(h: Heap, chunks: seq<Chunk>, fl: seq<nat>, size: int, merge: Link, m: nat,
    fragment: int, sweep: nat)

  ghost predicate FragmentBefore(h: Heap, fragment: int, sweep: nat) {
    fragment < sweep && FragmentOk(h, fragment, sweep)
  }

  ghost predicate Inv(s: FreeState) {
    && Tiled(s.h, s.chunks) && Lists(s.h, s.fl) && SweepPoint(s.fl, s.m, s.merge, s.sweep)
    && FragmentBefore(s.h, s.fragment, s.sweep) && s.size == Total(s.h, s.fl)
  }

  // ----- Allocation -----

  /** By how much `caml_fl_cur_size` goes down. */
  function Spent(h: Heap, fl: seq<nat>, c: nat, w: nat): nat
    requires c < |fl| && fl[c] in h
  {
    if Detaches(h, fl, c, w) then 1 + h[fl[c]].wosize else 1 + w
  }

  ghost function MergeAfter(h: Heap, fl: seq<nat>, c: nat, w: nat, merge: Link): Link
    requires c < |fl| && fl[c] in h
  {
    if Detaches(h, fl, c, w) && merge == At(fl[c]) then Predecessor(fl, c) else merge
  }

  ghost function PointAfter(h: Heap, fl: seq<nat>, c: nat, w: nat, m: nat): nat
    requires c < |fl| && fl[c] in h
  {
    if Detaches(h, fl, c, w) && c < m then m - 1 else m
  }

  ghost predicate Allocates(s: FreeState, b: Block, c: nat, hp: nat, s': FreeState) {
    && c < |s.fl| && CanSplit(s.h, s.fl[c], b.wosize) && b.color != Blue
    && hp == SplitHp(s.h, s.fl[c], b.wosize) && s' == Allocated(s, b, c)
  }

  /** The state once `b` has been taken from element `c`. */
  ghost function Allocated(s: FreeState, b: Block, c: nat): FreeState
    requires c < |s.fl| && CanSplit(s.h, s.fl[c], b.wosize)
  {
    FreeState(Split(s.h, s.fl[c], b), s.chunks, ListAfter(s.h, s.fl, c, b.wosize),
              s.size - Spent(s.h, s.fl, c, b.wosize), MergeAfter(s.h, s.fl, c, b.wosize, s.merge),
              PointAfter(s.h, s.fl, c, b.wosize, s.m), s.fragment, s.sweep)
  }

  lemma AllocatesAt(s: FreeState, b: Block, c: nat)
    requires c < |s.fl| && CanSplit(s.h, s.fl[c], b.wosize) && b.color != Blue
    ensures Allocates(s, b, c, SplitHp(s.h, s.fl[c], b.wosize), Allocated(s, b, c)) == true
  {
  }

  /** Allocation keeps `caml_fl_merge` the last listed block before the sweeper. */
  lemma AllocSweepPoint(h: Heap, fl: seq<nat>, c: nat, w: nat, m: nat, merge: Link, sweep: nat)
    requires Lists(h, fl) && c < |fl| && fl[c] in h && SweepPoint(fl, m, merge, sweep)
    ensures SweepPoint(ListAfter(h, fl, c, w), PointAfter(h, fl, c, w, m), MergeAfter(h, fl, c, w, merge), sweep)
  {
    if m > 0 {
      SortedIndex(fl, m - 1, c);
    }
    if Detaches(h, fl, c, w) {
      var fl', m' := Without(fl, c), PointAfter(h, fl, c, w, m);
      forall i: nat | i < m' ensures fl'[i] < sweep {
        assert fl'[i] == fl[if i < c then i else i + 1];
      }
      forall i: nat | m' <= i < |fl'| ensures fl'[i] >= sweep {
        assert fl'[i] == fl[if i < c then i else i + 1];
      }
    }
  }

  lemma AllocFragment(h: Heap, chunks: seq<Chunk>, a: nat, b: Block, fragment: int, sweep: nat)
    requires Tiled(h, chunks) && CanSplit(h, a, b.wosize) && FragmentBefore(h, fragment, sweep)
    ensures FragmentBefore(Split(h, a, b), fragment, sweep)
  {
    SplitFresh(h, chunks, a, b.wosize);
  }

  lemma AllocKeeps(s: FreeState, b: Block, c: nat, hp: nat, s': FreeState)
    requires Inv(s) && Allocates(s, b, c, hp, s')
    ensures Inv(s')
  {
    SplitTiled(s.h, s.chunks, s.fl[c], b);
    SplitLists(s.h, s.chunks, s.fl, c, b);
    SplitTotal(s.h, s.chunks, s.fl, c, b);
    AllocSweepPoint(s.h, s.fl, c, b.wosize, s.m, s.merge, s.sweep);
    AllocFragment(s.h, s.chunks, s.fl[c], b, s.fragment, s.sweep);
  }

  /** The words of the new block were free, and are in no other block. */
  lemma HandedOut(s: FreeState, b: Block, c: nat, hp: nat, s': FreeState, x: nat)
    requires Inv(s) && Allocates(s, b, c, hp, s')
    ensures s.fl[c] <= hp && hp + 1 + b.wosize == End(s.h, s.fl[c])
    ensures hp in s'.h && s'.h[hp] == b
    ensures x in s'.h && x != hp ==> End(s'.h, x) <= hp || hp + 1 + b.wosize <= x
  {
    AllocKeeps(s, b, c, hp, s');
    if x in s'.h && x != hp {
      assert x < hp ==> Blocks.Before(s'.h, x, hp);
      assert hp < x ==> Blocks.Before(s'.h, hp, x);
    }
  }

  // ----- Extension -----

  function WithBlock(h: Heap, a: nat, wosize: nat): Heap { h[a := Block(wosize, 0, Blue, [])] }

  lemma NotListed(h: Heap, fl: seq<nat>, a: nat)
    requires Lists(h, fl) && a !in h
    ensures a !in fl
  {
    forall i | 0 <= i < |fl| ensures fl[i] != a {
      assert IsFree(h, fl[i]);
    }
  }

  ghost function MergeAdded(fl: seq<nat>, c: nat, a: nat, merge: Link, sweep: nat): Link
    requires c <= |fl|
  {
    if Predecessor(fl, c) == merge && a < sweep then At(a) else merge
  }

  /** The state with the new free block `a` at position `c`. */
  ghost function Extended(s: FreeState, a: nat, wosize: nat, c: nat, chunks: seq<Chunk>): FreeState
    requires c <= |s.fl|
  {
    FreeState(WithBlock(s.h, a, wosize), chunks, Insert(s.fl, c, a), s.size + 1 + wosize,
              MergeAdded(s.fl, c, a, s.merge, s.sweep), if a < s.sweep then s.m + 1 else s.m, s.fragment, s.sweep)
  }

  ghost predicate Extends(s: FreeState, a: nat, wosize: nat, c: nat, s': FreeState) {
    && a !in s.h && wosize >= 1 && Belongs(s.fl, c, a) && Tiled(WithBlock(s.h, a, wosize), s'.chunks)
    && s' == Extended(s, a, wosize, c, s'.chunks)
  }

  lemma ExtendedExtends(s: FreeState, a: nat, wosize: nat, c: nat, chunks: seq<Chunk>)
    requires a !in s.h && wosize >= 1 && Belongs(s.fl, c, a) && Tiled(WithBlock(s.h, a, wosize), chunks)
    ensures Extends(s, a, wosize, c, Extended(s, a, wosize, c, chunks)) == true
  {
  }

  lemma AddedPoint(fl: seq<nat>, m: nat, merge: Link, sweep: nat, c: nat, a: nat)
    requires Sorted(fl) && SweepPoint(fl, m, merge, sweep) && Belongs(fl, c, a)
    ensures SweepPoint(Insert(fl, c, a), if a < sweep then m + 1 else m, MergeAdded(fl, c, a, merge, sweep), sweep) ==
            true
  {
    if c != m {
      OtherBefore(fl, c, m);
    }
    assert c < m ==> fl[c] < sweep;
    assert m < c ==> fl[m] < a;
  }

  lemma AddedLists(h: Heap, fl: seq<nat>, c: nat, a: nat, wosize: nat)
    requires Lists(h, fl) && a !in h && wosize >= 1 && Belongs(fl, c, a)
    ensures Lists(WithBlock(h, a, wosize), Insert(fl, c, a)) == true
  {
    var h', fl' := WithBlock(h, a, wosize), Insert(fl, c, a);
    InsertSorted(fl, c, a);
    NotListed(h, fl, a);
    forall i | 0 <= i < |fl'| ensures IsFree(h', fl'[i]) && h'[fl'[i]].wosize >= 1 {
      if i != c {
        var k: nat := if i < c then i else i - 1;
        assert fl'[i] == fl[k] && IsFree(h, fl[k]);
      }
    }
    forall x | IsFree(h', x) ensures x in fl' {
      InsertIn(fl, c, a, x);
      assert x != a ==> IsFree(h, x);
    }
  }

  lemma AddedTotal(h: Heap, fl: seq<nat>, c: nat, a: nat, wosize: nat)
    requires Lists(h, fl) && a !in h && c <= |fl|
    ensures Total(WithBlock(h, a, wosize), Insert(fl, c, a)) == Total(h, fl) + 1 + wosize
  {
    var h' := WithBlock(h, a, wosize);
    NotListed(h, fl, a);
    forall x | x in fl ensures x in h && x in h' && h'[x].wosize == h[x].wosize {
      var i :| 0 <= i < |fl| && fl[i] == x;
      assert IsFree(h, fl[i]);
    }
    TotalKept(h, h', fl);
    TotalInsert(h', fl, c, a);
  }

  lemma AddedFragment(h: Heap, fragment: int, sweep: nat, a: nat, wosize: nat)
    requires FragmentBefore(h, fragment, sweep) && a !in h
    ensures FragmentBefore(WithBlock(h, a, wosize), fragment, sweep) == true
  {
  }

  lemma ExtendKeeps(s: FreeState, a: nat, wosize: nat, c: nat, s': FreeState)
    requires Inv(s) && Extends(s, a, wosize, c, s')
    ensures Inv(s')
  {
    AddedLists(s.h, s.fl, c, a, wosize);
    AddedTotal(s.h, s.fl, c, a, wosize);
    AddedPoint(s.fl, s.m, s.merge, s.sweep, c, a);
    AddedFragment(s.h, s.fragment, s.sweep, a, wosize);
  }

  // ----- Sweeping -----

  ghost function Swept(s: FreeState, p: Prev): FreeState
    requires s.sweep in s.h && s.m <= |s.fl| && PrevOk(s.h, s.sweep, s.fragment, p)
  {
    var a := s.sweep;
    var stays, listed := StaysFragment(s.h, a, s.fragment, p), !Unlisted(s.h, a, s.fragment, p);
    FreeState(Merge(s.h, a, s.fragment, p), s.chunks, MergedList(s.h, s.fl, s.m, a, s.fragment, p),
              s.size + Gained(s.h, a, s.fragment, p), if listed then At(JoinedStart(s.h, a, s.fragment))
                else s.merge, if listed then s.m + 1 else s.m,
              if stays then a else s.fragment, JoinedEnd(s.h, a, s.fragment))
  }

  /** Nothing is listed of its own: a free block absorbs it, or it stays a fragment. */
  ghost predicate Unlisted(h: Heap, a: nat, frag: int, p: Prev) {
    a in h && (p.Prev? || StaysFragment(h, a, frag, p))
  }

  /** The block at the sweeper is dead: it is given to `caml_fl_merge_block_r`. */
  ghost predicate Reclaims(s: FreeState, p: Prev, s': FreeState) {
    && s.sweep in s.h && s.h[s.sweep].color == White && s.m <= |s.fl| && PrevOk(s.h, s.sweep, s.fragment, p)
    && s' == Swept(s, p)
  }

  lemma SweptReclaims(s: FreeState, p: Prev)
    requires s.sweep in s.h && s.h[s.sweep].color == White && s.m <= |s.fl| && PrevOk(s.h, s.sweep, s.fragment, p)
    ensures Reclaims(s, p, Swept(s, p)) == true
  {
  }

  /** Where a dead block belongs: the assertions at the start of `caml_fl_merge_block_r`. */
  lemma MergePlace(s: FreeState)
    requires Inv(s) && s.sweep in s.h && s.h[s.sweep].color != Blue
    ensures Belongs(s.fl, s.m, s.sweep) && Place(s.h, s.chunks, s.fl, s.m, s.sweep)
            && FragmentOk(s.h, s.fragment, s.sweep)
  {
    forall i | 0 <= i < |s.fl| ensures s.fl[i] != s.sweep {
      assert IsFree(s.h, s.fl[i]);
    }
  }

  /** The elements behind the merged block are behind its end. */
  lemma MergedAfter(h: Heap, chunks: seq<Chunk>, fl: seq<nat>, m: nat, a: nat, frag: int)
    requires Place(h, chunks, fl, m, a) && FragmentOk(h, frag, a)
    ensures var fl1 := Joined(h, fl, m, a, frag); m <= |fl1| && forall i :: m <= i < |fl1| ==>
            fl1[i] >= JoinedEnd(h, a, frag)
  {
    var fl1, z := Joined(h, fl, m, a, frag), JoinedLast(h, a, frag);
    JoinedIn(h, chunks, fl, m, a, frag, a);
    forall i | m <= i < |fl1| ensures fl1[i] >= JoinedEnd(h, a, frag) {
      var k: nat := if JoinsNext(h, a, frag) then i + 1 else i;
      assert fl1[i] == fl[k] && IsFree(h, fl[k]);
      assert JoinsNext(h, a, frag) ==> Ordered(fl, m, k);
      assert Blocks.Before(h, z, fl[k]);
    }
  }

  lemma JoinedPoint(h: Heap, chunks: seq<Chunk>, fl: seq<nat>, m: nat, a: nat, frag: int)
    requires Place(h, chunks, fl, m, a) && FragmentOk(h, frag, a)
    ensures var fl1, start, end := Joined(h, fl, m, a, frag), JoinedStart(h, a, frag), JoinedEnd(h, a, frag);
            && m <= |fl1| && SweepPoint(fl1, m, Predecessor(fl, m), end) == true
            && SweepPoint(Insert(fl1, m, start), m + 1, At(start), end) == true
  {
    var fl1, start, end := Joined(h, fl, m, a, frag), JoinedStart(h, a, frag), JoinedEnd(h, a, frag);
    JoinedBelongs(h, chunks, fl, m, a, frag);
    MergedAfter(h, chunks, fl, m, a, frag);
    PointAround(fl1, m, start, end);
    assert m > 0 ==> fl1[m - 1] == fl[m - 1];
  }

  lemma MergedPoint(h: Heap, chunks: seq<Chunk>, fl: seq<nat>, m: nat, a: nat, frag: int, p: Prev)
    requires Place(h, chunks, fl, m, a) && FragmentOk(h, frag, a)
    ensures var fl' := MergedList(h, fl, m, a, frag, p);
            if Unlisted(h, a, frag, p) then SweepPoint(fl', m, Predecessor(fl, m), JoinedEnd(h, a, frag)) == true
            else SweepPoint(fl', m + 1, At(JoinedStart(h, a, frag)), JoinedEnd(h, a, frag)) == true
  {
    JoinedPoint(h, chunks, fl, m, a, frag);
  }

  /** The merge point with and without the block at `start` at position `m`. */
  lemma PointAround(fl: seq<nat>, m: nat, start: nat, end: nat)
    requires Belongs(fl, m, start) && start < end && forall i :: m <= i < |fl| ==> fl[i] >= end
    ensures SweepPoint(fl, m, Predecessor(fl, m), end) == true
    ensures SweepPoint(Insert(fl, m, start), m + 1, At(start), end) == true
  {
  }

  lemma MergedFragment(h: Heap, a: nat, frag: int, p: Prev)
    requires a in h && h[a].color != Blue && PrevOk(h, a, frag, p) && frag < a
    ensures FragmentBefore(Merge(h, a, frag, p), if StaysFragment(h, a, frag, p) then a
            else frag, JoinedEnd(h, a, frag))
  {
  }

  lemma ReclaimKeeps(s: FreeState, p: Prev, s': FreeState)
    requires Inv(s) && Reclaims(s, p, s')
    ensures Inv(s')
  {
    MergePlace(s);
    MergeTiled(s.h, s.chunks, s.sweep, s.fragment, p);
    MergedLists(s.h, s.chunks, s.fl, s.m, s.sweep, s.fragment, p);
    MergedTotal(s.h, s.chunks, s.fl, s.m, s.sweep, s.fragment, p);
    MergedPoint(s.h, s.chunks, s.fl, s.m, s.sweep, s.fragment, p);
    MergedFragment(s.h, s.sweep, s.fragment, p);
  }

  /** The block at the sweeper is in use: it is made white. */
  ghost predicate SkipsLive(s: FreeState, s': FreeState) {
    && s.sweep in s.h && s.h[s.sweep].color != Blue && s.h[s.sweep].color != White
    && s' == s.(h := s.h[s.sweep := s.h[s.sweep].(color := White)], sweep := End(s.h, s.sweep))
  }

  /** The block at the sweeper is free. */
  ghost predicate SkipsFree(s: FreeState, s': FreeState) {
    && s.sweep in s.h && s.h[s.sweep].color == Blue
    && s' == s.(merge := At(s.sweep), m := s.m + 1, sweep := End(s.h, s.sweep))
  }

  /** The listed blocks that are not before the sweeper are not before the end of its block. */
  lemma ElementsAfter(s: FreeState, i: nat)
    requires Inv(s) && s.sweep in s.h && s.m <= i < |s.fl| && s.fl[i] != s.sweep
    ensures s.fl[i] >= End(s.h, s.sweep)
  {
    assert IsFree(s.h, s.fl[i]);
    assert Blocks.Before(s.h, s.sweep, s.fl[i]);
  }

  lemma SkipLiveKeeps(s: FreeState, s': FreeState)
    requires Inv(s) && SkipsLive(s, s')
    ensures Inv(s')
  {
    MergePlace(s);
    forall i: nat | s.m <= i < |s.fl| ensures s.fl[i] >= s'.sweep {
      ElementsAfter(s, i);
    }
    Recolored(s.h, s.chunks, s.fl, s'.h);
  }

  /** Blocks in use may change colour and contents at any time. */
  ghost predicate SameShape(h: Heap, h': Heap) {
    && h'.Keys == h.Keys
    && forall a :: a in h ==> h'[a].wosize == h[a].wosize && (h'[a].color == Blue <==> h[a].color == Blue)
  }

  lemma Recolored(h: Heap, chunks: seq<Chunk>, fl: seq<nat>, h': Heap)
    requires Tiled(h, chunks) && Lists(h, fl) && SameShape(h, h')
    ensures Tiled(h', chunks) && Lists(h', fl) && Total(h', fl) == Total(h, fl)
  {
    TotalSame(h, h', fl);
    forall a | a in h' ensures Fits(h', chunks, a) {
      assert Fits(h, chunks, a);
      var c :| FitsIn(h, chunks, c, a);
      assert FitsIn(h', chunks, c, a);
    }
    forall a, b | a in h' && b in h' && a < b ensures Blocks.Before(h', a, b) {
      assert Blocks.Before(h, a, b);
    }
    forall i | 0 <= i < |fl| ensures IsFree(h', fl[i]) && h'[fl[i]].wosize >= 1 {
      assert IsFree(h, fl[i]);
    }
    forall a | IsFree(h', a) ensures a in fl {
      assert IsFree(h, a);
    }
  }

  lemma SkipFreeKeeps(s: FreeState, s': FreeState)
    requires Inv(s) && SkipsFree(s, s')
    ensures Inv(s')
  {
    var i := ListedIndex(s.h, s.fl, s.sweep);
    assert IsFree(s.h, s.fl[s.m]);
    SortedIndex(s.fl, s.m, i);
    forall j: nat | s.m < j < |s.fl| ensures s.fl[j] >= s'.sweep {
      SortedIndex(s.fl, s.m, j);
      ElementsAfter(s, j);
    }
  }

  /** The sweeper has come to the end of chunk `k` and goes on with the next one. */
  ghost predicate ChangesChunk(s: FreeState, k: nat, s': FreeState) {
    k + 1 < |s.chunks| && s.sweep == ChunkEnd(s.chunks[k]) && s' == s.(sweep := s.chunks[k + 1].start)
  }

  lemma NextChunkKeeps(s: FreeState, k: nat, s': FreeState)
    requires Inv(s) && ChangesChunk(s, k, s')
    ensures Inv(s')
  {
    assert ChunkBefore(s.chunks, k, k + 1);
    forall i: nat | s.m <= i < |s.fl| ensures s.fl[i] >= s'.sweep {
      BetweenChunks(s.h, s.chunks, s.fl[i], k);
      assert IsFree(s.h, s.fl[i]);
    }
  }

  /** There is no block between the end of a chunk and the start of the next. */
  lemma BetweenChunks(h: Heap, chunks: seq<Chunk>, a: nat, k: nat)
    requires Tiled(h, chunks) && k + 1 < |chunks| && a in h && a >= ChunkEnd(chunks[k])
    ensures a >= chunks[k + 1].start
  {
    assert Fits(h, chunks, a);
    var c: nat :| FitsIn(h, chunks, c, a);
    assert c < k ==> ChunkBefore(chunks, c, k);
    assert k + 1 < c ==> ChunkBefore(chunks, k + 1, c);
  }

  /** `caml_fl_init_merge_r`, and the sweeper at the start of the heap. */
  ghost predicate Restarts(s: FreeState, s': FreeState) {
    |s.chunks| > 0 && s' == s.(merge := Head, m := 0, fragment := -1, sweep := s.chunks[0].start)
  }

  lemma RestartKeeps(s: FreeState, s': FreeState)
    requires Inv(s) && Restarts(s, s')
    ensures Inv(s')
  {
    forall i: nat | i < |s.fl| ensures s.fl[i] >= s'.sweep {
      assert IsFree(s.h, s.fl[i]) && Fits(s.h, s.chunks, s.fl[i]);
      var c :| FitsIn(s.h, s.chunks, c, s.fl[i]);
      assert 0 < c ==> ChunkBefore(s.chunks, 0, c);
    }
  }

  // ----- Runs -----

  datatype Step =
    | Alloc(b: Block, c: nat, hp: nat)
    | AddChunk(a: nat, wosize: nat, at: nat)
    | Reclaim(p: Prev)
    | SkipLive
    | SkipFree
    | NextChunk(k: nat)
    | Restart
    | Mutate

  ghost predicate Does(s: FreeState, step: Step, s': FreeState) {
    match step
    case Alloc(b, c, hp) => Allocates(s, b, c, hp, s')
    case AddChunk(a, wosize, c) => Extends(s, a, wosize, c, s')
    case Reclaim(p) => Reclaims(s, p, s')
    case SkipLive => SkipsLive(s, s')
    case SkipFree => SkipsFree(s, s')
    case NextChunk(k) => ChangesChunk(s, k, s')
    case Restart => Restarts(s, s')
    case Mutate => SameShape(s.h, s'.h) && s' == s.(h := s'.h)
  }

  lemma StepKeeps(s: FreeState, step: Step, s': FreeState)
    requires Inv(s) && Does(s, step, s')
    ensures Inv(s')
  {
    match step
    case Alloc(b, c, hp) => AllocKeeps(s, b, c, hp, s');
    case AddChunk(a, wosize, c) => ExtendKeeps(s, a, wosize, c, s');
    case Reclaim(p) => ReclaimKeeps(s, p, s');
    case SkipLive => SkipLiveKeeps(s, s');
    case SkipFree => SkipFreeKeeps(s, s');
    case NextChunk(k) => NextChunkKeeps(s, k, s');
    case Restart => RestartKeeps(s, s');
    case Mutate => Recolored(s.h, s.chunks, s.fl, s'.h);
  }

  ghost predicate IsRun(states: seq<FreeState>, steps: seq<Step>) {
    && |states| == |steps| + 1 && Inv(states[0])
    && forall i :: 0 <= i < |steps| ==> Does(states[i], steps[i], states[i + 1])
  }

  lemma {:induction false} RunKeeps(states: seq<FreeState>, steps: seq<Step>, k: nat)
    requires IsRun(states, steps) && k < |states|
    ensures Inv(states[k])
  {
    if k > 0 {
      RunKeeps(states, steps, k - 1);
      assert Does(states[k - 1], steps[k - 1], states[k - 1 + 1]);
      StepKeeps(states[k - 1], steps[k - 1], states[k]);
    }
  }

  /** In every run: whenever a dead block is given back, `caml_fl_merge` is before it and the
      successor of `caml_fl_merge` behind it; whenever a block is allocated, its words were
      free and are in no other block. */
  lemma RunSafe(states: seq<FreeState>, steps: seq<Step>, k: nat, x: nat)
    requires IsRun(states, steps) && k < |steps|
    ensures steps[k].Reclaim? ==>
              Belongs(states[k].fl, states[k].m, states[k].sweep)
                && states[k].merge == Predecessor(states[k].fl, states[k].m)
    ensures steps[k].Alloc? && x in states[k + 1].h && x != steps[k].hp ==>
              End(states[k + 1].h, x) <= steps[k].hp || steps[k].hp + 1 + steps[k].b.wosize <= x
    ensures steps[k].Alloc? ==> steps[k].c < |states[k].fl| && IsFree(states[k].h, states[k].fl[steps[k].c])
  {
    RunKeeps(states, steps, k);
    assert Does(states[k], steps[k], states[k + 1]);
    match steps[k]
    case Reclaim(_) => MergePlace(states[k]);
    case Alloc(b, c, hp) => HandedOut(states[k], b, c, hp, states[k + 1], x);
    case _ =>
  }
}
