/**
 Safety of incremental collection: an invariant that every step of the collector
 and of the mutator keeps, and from which no reachable block is ever swept.
 */
module MajorSafety {
  import opened Mlvalues
  import opened Blocks
  import opened Tricolor
  import opened MajorGc
  import opened MajorInv

  // ----- The invariant -----

  /** Blocks that the collector will not reclaim in this cycle. */
  ghost predicate Live(s: Gc, a: nat) {
    && Used(s.heap, a)
    && (s.phase == Sweep && s.sweep.Cursor? && a >= s.sweep.hp ==> s.heap[a].color == Black)
  }

  ghost predicate LiveVal(s: Gc, v: Value) {
    v.Ptr? && InHeap(s.area.chunks, v.hp) ==> Live(s, v.hp) && s.heap[v.hp].wosize > 0
  }

  ghost predicate LiveFields(s: Gc, x: nat) {
    x in s.heap && forall i :: 0 <= i < |s.heap[x].fields| ==> LiveVal(s, s.heap[x].fields[i])
  }

  /** Live blocks and roots point to live blocks only. */
  ghost predicate Closed(s: Gc) {
    && (forall x {:trigger Live(s, x)} :: Live(s, x) && s.heap[x].tag < NO_SCAN_TAG ==> LiveFields(s, x))
    && (forall i :: 0 <= i < |s.roots| ==> LiveVal(s, s.roots[i]))
  }

  ghost predicate FieldCounts(h: Heap) {
    forall x {:trigger Used(h, x)} :: Used(h, x) ==> |h[x].fields| == h[x].wosize
  }

  /** A cursor stands at a block or at the end of its chunk. */
  ghost predicate CursorIn(h: Heap, chunks: seq<Chunk>, cur: Cursor, e: nat) {
    && cur.Cursor? && e < |chunks| && cur.limit == ChunkEnd(chunks[e])
    && chunks[e].start <= cur.hp <= cur.limit && (cur.hp == cur.limit || cur.hp in h)
  }

  ghost predicate CursorOk(h: Heap, chunks: seq<Chunk>, cur: Cursor) {
    exists e :: CursorIn(h, chunks, cur, e)
  }

  ghost predicate EmptyStack(g: Stack) {
    StackOk(g) && g.vals == [] && g.pure
  }

  ghost predicate IdleOk(s: Gc) {
    && EmptyStack(s.stack)
    && forall x :: Used(s.heap, x) ==> s.heap[x].color == White
  }

  ghost predicate MarkOk(s: Gc) {
    && StackInv(s.heap, s.stack, s.markhp, -1)
    && BlackSafe(s.heap, s.area)
    && (forall i :: 0 <= i < |s.roots| ==> SafeVal(s.heap, s.area, s.roots[i]))
    && (s.markhp.Cursor? ==> CursorOk(s.heap, s.area.chunks, s.markhp))
  }

  /** Behind the sweeper all blocks are white or free, ahead of it none is gray. */
  ghost predicate SweepOk(s: Gc) {
    && EmptyStack(s.stack)
    && CursorOk(s.heap, s.area.chunks, s.sweep) && s.sweep.Cursor?
    && (forall x: nat {:trigger Used(s.heap, x)} :: Used(s.heap, x) ==>
          if x < s.sweep.hp then s.heap[x].color == White else s.heap[x].color != Gray)
    && s.frag < s.sweep.hp
    && (s.frag >= 0 && s.frag + 1 == s.sweep.hp ==> s.frag in s.heap && s.heap[s.frag].wosize == 0)
  }

  ghost predicate Inv(s: Gc) {
    && Tiled(s.heap, s.area.chunks) && FieldCounts(s.heap) && Closed(s)
    && (s.phase == Idle ==> IdleOk(s))
    && (s.phase == Mark ==> MarkOk(s))
    && (s.phase == Sweep ==> SweepOk(s))
  }

  /** Outside the sweeping phase all used blocks count as live. */
  lemma ClosedIsHeapOk(s: Gc)
    requires Tiled(s.heap, s.area.chunks) && FieldCounts(s.heap) && s.phase != Sweep
    ensures Closed(s) <==> HeapOk(s.heap, s.area) && forall i :: 0 <= i < |s.roots| ==>
            GoodVal(s.heap, s.area, s.roots[i])
  {
    assert forall v :: LiveVal(s, v) <==> GoodVal(s.heap, s.area, v);
    assert forall x :: Live(s, x) <==> Used(s.heap, x);
    forall x | x in s.heap ensures LiveFields(s, x) <==> GoodFields(s.heap, s.area, x) {
    }
  }

  // ----- Reachability -----

  ghost predicate IsRoot(s: Gc, a: nat) {
    InHeap(s.area.chunks, a) && exists i :: 0 <= i < |s.roots| && s.roots[i].Ptr? && s.roots[i].hp == a
  }

  ghost predicate ReachPath(s: Gc, p: seq<nat>) {
    && |p| > 0
    && if |p| == 1 then IsRoot(s, p[0])
       else ReachPath(s, p[..|p| - 1]) && Edge(s.heap, p[|p| - 2], p[|p| - 1])
  }

  ghost predicate Reach(s: Gc, a: nat) {
    exists p :: ReachPath(s, p) && p[|p| - 1] == a
  }

  lemma {:induction false} PathIsLive(s: Gc, p: seq<nat>)
    requires Inv(s) && ReachPath(s, p)
    ensures Live(s, p[|p| - 1]) && s.heap[p[|p| - 1]].wosize > 0
    ensures s.phase == Mark ==> Safe(s.heap, p[|p| - 1])
  {
    var c := p[|p| - 1];
    if |p| > 1 {
      var x := p[|p| - 2];
      PathIsLive(s, p[..|p| - 1]);
      BlockInHeap(s.heap, s.area.chunks, c);
      assert LiveFields(s, x);
      var i :| PointsTo(s.heap[x].fields, i, c);
      if s.phase == Mark {
        if s.heap[x].color == Black {
          assert IsColor(s.heap, x, Black) && SafeFields(s.heap, s.area, x);
        } else {
          SafeStep(s.heap, x, c);
        }
      }
    }
  }

  /** Reachable blocks are live, and safe while marking goes on. */
  lemma ReachIsLive(s: Gc, a: nat)
    requires Inv(s) && Reach(s, a)
    ensures Live(s, a) && s.heap[a].wosize > 0
    ensures s.phase == Mark ==> Safe(s.heap, a)
  {
    var p :| ReachPath(s, p) && p[|p| - 1] == a;
    PathIsLive(s, p);
  }

  /** The safety theorem at one state: what the sweeper is about to merge into the
      free list is not reachable. */
  lemma MergedIsUnreachable(s: Gc)
    requires Inv(s) && SweepMerges(s)
    ensures !Reach(s, s.sweep.hp)
  {
    if Reach(s, s.sweep.hp) {
      ReachIsLive(s, s.sweep.hp);
    }
  }

  // ----- The collector's steps keep the invariant -----

  lemma {:induction false} DarkenRootsOk(m: Marker, area: Area, roots: seq<Value>, n: nat, outs: nat -> Outcome)
    requires MarkerOk(m, area, NoCursor) && n <= |roots|
    requires forall i :: 0 <= i < |roots| ==> GoodVal(m.heap, area, roots[i])
    ensures var m' := DarkenRoots(m, area, roots, n, outs);
            && MarkerOk(m', area, NoCursor)
            && (forall i :: 0 <= i < |roots| ==> GoodVal(m'.heap, area, roots[i]))
            && (forall i :: 0 <= i < n ==> SafeVal(m'.heap, area, roots[i]))
  {
    if n > 0 {
      var m1 := DarkenRoots(m, area, roots, n - 1, outs);
      DarkenRootsOk(m, area, roots, n - 1, outs);
      DarkenOk(m1, area, NoCursor, roots[n - 1], outs(n - 1));
      var m' := DarkenRoots(m, area, roots, n, outs);
      forall i | 0 <= i < n ensures SafeVal(m'.heap, area, roots[i]) {
        if i < n - 1 {
          SafeValKept(m1.heap, m'.heap, area, roots[i]);
        }
      }
    }
  }

  lemma StartCycleOk(s: Gc, outs: nat -> Outcome)
    requires Inv(s) && s.phase == Idle
    ensures Inv(StartCycle(s, outs))
  {
    ClosedIsHeapOk(s);
    var m := Marker(s.heap, s.stack);
    assert forall x :: !IsColor(s.heap, x, Gray) && !IsColor(s.heap, x, Black) by {
      forall x | x in s.heap && s.heap[x].color in {Gray, Black} ensures false {
        assert Used(s.heap, x);
      }
    }
    assert MarkerOk(m, s.area, NoCursor);
    DarkenRootsOk(m, s.area, s.roots, |s.roots|, outs);
    ClosedIsHeapOk(StartCycle(s, outs));
  }

  lemma MarkBlockStepOk(s: Gc, outs: nat -> Outcome)
    requires Inv(s) && s.phase == Mark && |s.stack.vals| > 0
    ensures Inv(WithMarker(s, MarkBlock(Marker(s.heap, s.stack), s.area, outs)))
  {
    var m := Marker(s.heap, s.stack);
    var m' := MarkBlock(m, s.area, outs);
    ClosedIsHeapOk(s);
    MarkBlockOk(m, s.area, s.markhp, outs);
    var s' := WithMarker(s, m');
    ClosedIsHeapOk(s');
    forall i | 0 <= i < |s.roots| ensures SafeVal(s'.heap, s.area, s.roots[i]) {
      SafeValKept(s.heap, s'.heap, s.area, s.roots[i]);
    }
    if s.markhp.Cursor? {
      MarkBlockKeys(m, s.area, outs);
      CursorKept(s.heap, s'.heap, s.area.chunks, s.markhp);
    }
  }

  lemma CursorKept(h: Heap, h': Heap, chunks: seq<Chunk>, cur: Cursor)
    requires CursorOk(h, chunks, cur) && (cur.hp in h ==> cur.hp in h')
    ensures CursorOk(h', chunks, cur)
  {
    var e :| CursorIn(h, chunks, cur, e);
    assert CursorIn(h', chunks, cur, e);
  }

  lemma {:induction false} MarkFieldsKeys(m: Marker, area: Area, v: nat, n: nat, outs: nat -> Outcome)
    requires v in m.heap && n <= |m.heap[v].fields| && StackOk(m.stack)
    ensures forall a :: a in m.heap ==> a in MarkFields(m, area, v, n, outs).heap
  {
    if n > 0 {
      MarkFieldsKeys(m, area, v, n - 1, outs);
    }
  }

  lemma MarkBlockKeys(m: Marker, area: Area, outs: nat -> Outcome)
    requires |m.stack.vals| > 0 && m.stack.vals[|m.stack.vals| - 1] in m.heap && StackOk(m.stack)
    ensures forall a :: a in m.heap ==> a in MarkBlock(m, area, outs).heap
  {
    var n := |m.stack.vals| - 1;
    var v := m.stack.vals[n];
    var m1 := m.(stack := m.stack.(vals := m.stack.vals[..n]));
    if m.heap[v].tag < NO_SCAN_TAG {
      MarkFieldsKeys(m1, area, v, |m.heap[v].fields|, outs);
    }
  }

  /** No block lies between the end of a chunk and the start of the next one. */
  lemma GapIsEmpty(h: Heap, chunks: seq<Chunk>, e: nat, a: nat)
    requires Tiled(h, chunks) && e < |chunks| && a in h && a >= ChunkEnd(chunks[e])
    ensures var c := NextChunk(chunks, ChunkEnd(chunks[e]), 0); c < |chunks| && chunks[c].start <= a
  {
    var limit := ChunkEnd(chunks[e]);
    var c := NextChunk(chunks, limit, 0);
    assert Fits(h, chunks, a);
    var d: nat :| FitsIn(h, chunks, d, a);
    assert d < e ==> ChunkBefore(chunks, d, e);
    assert e < d ==> ChunkBefore(chunks, e, d);
    assert chunks[d].start >= limit;
    assert c < d ==> ChunkBefore(chunks, c, d);
  }

  lemma ChunkCursorOk(h: Heap, chunks: seq<Chunk>, c: nat)
    requires Tiled(h, chunks) && c < |chunks|
    ensures CursorOk(h, chunks, ChunkCursor(chunks, c))
  {
    assert CursorIn(h, chunks, ChunkCursor(chunks, c), c);
  }

  lemma RescanCovered(s: Gc)
    requires Inv(s) && s.phase == Mark && s.stack.vals == [] && s.markhp.Cursor?
    ensures StackInv(s.heap, RescanStep(s).stack, RescanStep(s).markhp, -1)
  {
    var s', hp := RescanStep(s), s.markhp.hp;
    var e :| CursorIn(s.heap, s.area.chunks, s.markhp, e);
    forall a: nat | IsColor(s.heap, a, Gray)
      ensures a in s'.stack.vals || !s'.stack.pure || (s'.markhp.Cursor? && a >= s'.markhp.hp)
    {
      if s.stack.pure {
        assert a >= hp;
        if hp == s.markhp.limit {
          GapIsEmpty(s.heap, s.area.chunks, e, a);
        } else {
          assert a != hp ==> Before(s.heap, hp, a);
        }
      }
    }
  }

  lemma RescanCursor(s: Gc)
    requires Inv(s) && s.phase == Mark && s.markhp.Cursor? && RescanStep(s).markhp.Cursor?
    ensures CursorOk(s.heap, s.area.chunks, RescanStep(s).markhp)
  {
    var hp, chunks := s.markhp.hp, s.area.chunks;
    var e :| CursorIn(s.heap, chunks, s.markhp, e);
    if hp == s.markhp.limit {
      ChunkCursorOk(s.heap, chunks, NextChunk(chunks, s.markhp.limit, 0));
    } else {
      NextInChunk(s.heap, chunks, e, hp);
      assert CursorIn(s.heap, chunks, RescanStep(s).markhp, e);
    }
  }

  /** A block in chunk `e` is followed in that chunk by a block or its end. */
  lemma NextInChunk(h: Heap, chunks: seq<Chunk>, e: nat, a: nat)
    requires Tiled(h, chunks) && e < |chunks| && a in h && chunks[e].start <= a < ChunkEnd(chunks[e])
    ensures FitsIn(h, chunks, e, a)
  {
    assert Fits(h, chunks, a);
    var d: nat :| FitsIn(h, chunks, d, a);
    assert d < e ==> ChunkBefore(chunks, d, e);
    assert e < d ==> ChunkBefore(chunks, e, d);
  }

  lemma RescanStepOk(s: Gc)
    requires Inv(s) && s.phase == Mark && s.stack.vals == [] && s.markhp.Cursor?
    ensures Inv(RescanStep(s))
  {
    var s' := RescanStep(s);
    RescanCovered(s);
    if s'.markhp.Cursor? {
      RescanCursor(s);
    }
    SameHeapClosed(s, s');
  }

  lemma SameHeapClosed(s: Gc, s': Gc)
    requires Closed(s) && s'.heap == s.heap && s'.area == s.area && s'.roots == s.roots && s.phase != Sweep
             && s'.phase != Sweep
    ensures Closed(s')
  {
    assert forall v :: LiveVal(s, v) <==> LiveVal(s', v);
    forall x | Live(s', x) && s'.heap[x].tag < NO_SCAN_TAG ensures LiveFields(s', x) {
      assert Live(s, x);
    }
  }

  lemma StartRescanOk(s: Gc)
    requires Inv(s) && s.phase == Mark && s.stack.vals == [] && !s.stack.pure
    ensures Inv(s.(stack := s.stack.(pure := true), markhp := ChunkCursor(s.area.chunks, 0)))
  {
    var s' := s.(stack := s.stack.(pure := true), markhp := ChunkCursor(s.area.chunks, 0));
    forall a: nat | IsColor(s.heap, a, Gray) ensures a >= s.area.chunks[0].start {
      AboveFirst(s.heap, s.area.chunks, a);
    }
    ChunkCursorOk(s.heap, s.area.chunks, 0);
    SameHeapClosed(s, s');
  }

  lemma AboveFirst(h: Heap, chunks: seq<Chunk>, a: nat)
    requires Tiled(h, chunks) && a in h
    ensures chunks[0].start <= a
  {
    assert Fits(h, chunks, a);
    var d: nat :| FitsIn(h, chunks, d, a);
    assert 0 < d ==> ChunkBefore(chunks, 0, d);
  }

  /** When marking is over no gray block is left. */
  lemma NoGrayLeft(s: Gc, a: nat)
    requires MarkOk(s) && s.stack.vals == [] && s.stack.pure && s.markhp.NoCursor?
    ensures !IsColor(s.heap, a, Gray)
  {
  }

  /** When marking is over, the blocks that used or root values denote are black. */
  lemma MarkedValIsBlack(s: Gc, v: Value)
    requires Inv(s) && s.phase == Mark && s.stack.vals == [] && s.stack.pure && s.markhp.NoCursor?
    requires GoodVal(s.heap, s.area, v) && SafeVal(s.heap, s.area, v)
    ensures v.Ptr? && InHeap(s.area.chunks, v.hp) ==> IsColor(s.heap, v.hp, Black) && s.heap[v.hp].wosize > 0
  {
    if v.Ptr? && InHeap(s.area.chunks, v.hp) {
      NoGrayLeft(s, v.hp);
      if s.heap[v.hp].color == White {
        var g := SafeWhiteNeedsGray(s.heap, v.hp);
        NoGrayLeft(s, g);
      }
    }
  }

  lemma StartSweepOk(s: Gc)
    requires Inv(s) && s.phase == Mark && s.stack.vals == [] && s.stack.pure && s.markhp.NoCursor?
    ensures Inv(s.(phase := Sweep, sweep := ChunkCursor(s.area.chunks, 0), frag := -1))
  {
    var s' := s.(phase := Sweep, sweep := ChunkCursor(s.area.chunks, 0), frag := -1);
    ClosedIsHeapOk(s);
    ChunkCursorOk(s.heap, s.area.chunks, 0);
    forall x: nat | Used(s.heap, x) ensures x >= s'.sweep.hp && s.heap[x].color != Gray {
      AboveFirst(s.heap, s.area.chunks, x);
      NoGrayLeft(s, x);
    }
    forall x | Live(s', x) && s'.heap[x].tag < NO_SCAN_TAG ensures LiveFields(s', x) {
      assert IsColor(s.heap, x, Black) && SafeFields(s.heap, s.area, x) && Used(s.heap, x)
             && GoodFields(s.heap, s.area, x);
      forall i | 0 <= i < |s.heap[x].fields| ensures LiveVal(s', s.heap[x].fields[i]) {
        MarkedValIsBlack(s, s.heap[x].fields[i]);
      }
    }
    forall i | 0 <= i < |s.roots| ensures LiveVal(s', s.roots[i]) {
      MarkedValIsBlack(s, s.roots[i]);
    }
  }

  lemma MarkStepOk(s: Gc, outs: nat -> Outcome)
    requires Inv(s) && s.phase == Mark
    ensures Inv(MarkStep(s, outs))
  {
    if |s.stack.vals| > 0 {
      MarkBlockStepOk(s, outs);
    } else if s.markhp.Cursor? {
      RescanStepOk(s);
    } else if !s.stack.pure {
      StartRescanOk(s);
    } else if s.sub == Final {
      StartSweepOk(s);
    } else {
      SameHeapClosed(s, MarkStep(s, outs));
    }
  }

  /** The block at the sweeper: in its chunk, ahead of all that is swept. */
  lemma SweepAt(s: Gc) returns (e: nat)
    requires Inv(s) && s.phase == Sweep && s.sweep.hp < s.sweep.limit
    ensures s.sweep.hp in s.heap && CursorIn(s.heap, s.area.chunks, s.sweep, e)
    ensures FitsIn(s.heap, s.area.chunks, e, s.sweep.hp)
  {
    e :| CursorIn(s.heap, s.area.chunks, s.sweep, e);
    NextInChunk(s.heap, s.area.chunks, e, s.sweep.hp);
  }

  /** Live blocks survive a sweeping step unchanged but for their colour. */
  ghost predicate Survives(s: Gc, s': Gc, x: nat) {
    && Live(s', x) && x in s.heap && s'.heap[x].wosize == s.heap[x].wosize
    && s'.heap[x].tag == s.heap[x].tag && s'.heap[x].fields == s.heap[x].fields
  }

  ghost predicate NoPointers(fields: seq<Value>) {
    forall i :: 0 <= i < |fields| ==> fields[i].Long?
  }

  /** It is enough that live blocks survive, and that a block that becomes live
      has no pointers. */
  lemma ClosedAfter(s: Gc, s': Gc)
    requires Closed(s) && s'.area == s.area
    requires forall i :: 0 <= i < |s'.roots| ==>
               || (i < |s.roots| && s'.roots[i] == s.roots[i])
               || LiveVal(s', s'.roots[i])
    requires forall x {:trigger Live(s, x)} :: Live(s, x) && s.heap[x].wosize > 0 ==> Survives(s, s', x)
    requires forall x {:trigger Live(s', x)} :: Live(s', x) ==>
               NoPointers(s'.heap[x].fields)
                 || (Live(s, x) && s'.heap[x].tag == s.heap[x].tag && s'.heap[x].fields == s.heap[x].fields)
    ensures Closed(s')
  {
    assert forall v :: LiveVal(s, v) ==> LiveVal(s', v);
    forall x | Live(s', x) && s'.heap[x].tag < NO_SCAN_TAG ensures LiveFields(s', x) {
      if !NoPointers(s'.heap[x].fields) {
        assert LiveFields(s, x);
      }
    }
  }

  lemma SweepMergeLive(s: Gc, prev: Prev, x: nat)
    requires Inv(s) && SweepMerges(s) && (prev.Prev? ==> JoinsPrev(s.heap, s.sweep.hp, s.frag, prev.hp))
    requires Live(s, x) && s.heap[x].wosize > 0
    ensures Survives(s, SweepStep(s, prev), x)
  {
    MergeKeeps(s.heap, s.area.chunks, s.sweep.hp, s.frag, prev, x);
  }

  /** A used block after the merge is an old block outside the merged stretch, or
      the lone header that stays. */
  lemma SweepMergeOld(s: Gc, prev: Prev, x: nat)
    requires Inv(s) && SweepMerges(s) && (prev.Prev? ==> JoinsPrev(s.heap, s.sweep.hp, s.frag, prev.hp))
    requires Used(SweepStep(s, prev).heap, x)
    ensures Used(s.heap, x) && SweepStep(s, prev).heap[x] == s.heap[x]
    ensures x < s.sweep.hp || x >= SweepStep(s, prev).sweep.hp || (x == s.sweep.hp && s.heap[x].wosize == 0)
  {
    var a := s.sweep.hp;
    if StaysFragment(s.heap, a, s.frag, prev) && a < x {
      assert Before(s.heap, a, x);
    }
  }

  lemma SweepMergeCursor(s: Gc, prev: Prev)
    requires Inv(s) && SweepMerges(s) && (prev.Prev? ==> JoinsPrev(s.heap, s.sweep.hp, s.frag, prev.hp))
    ensures CursorOk(SweepStep(s, prev).heap, s.area.chunks, SweepStep(s, prev).sweep)
    ensures SweepStep(s, prev).sweep.hp > s.sweep.hp
  {
    var e := SweepAt(s);
    var a, s' := s.sweep.hp, SweepStep(s, prev);
    var c := MergeInChunk(s.heap, s.area.chunks, a, s.frag, prev);
    assert c < e ==> ChunkBefore(s.area.chunks, c, e);
    assert e < c ==> ChunkBefore(s.area.chunks, e, c);
    assert CursorIn(s'.heap, s.area.chunks, s'.sweep, e);
  }

  lemma SweepMergeOk(s: Gc, prev: Prev)
    requires Inv(s) && SweepMerges(s) && (prev.Prev? ==> JoinsPrev(s.heap, s.sweep.hp, s.frag, prev.hp))
    ensures Inv(SweepStep(s, prev))
  {
    var s' := SweepStep(s, prev);
    MergeTiled(s.heap, s.area.chunks, s.sweep.hp, s.frag, prev);
    SweepMergeCursor(s, prev);
    forall x: nat | Used(s'.heap, x)
      ensures |s'.heap[x].fields| == s'.heap[x].wosize
      ensures if x < s'.sweep.hp then s'.heap[x].color == White else s'.heap[x].color != Gray
    {
      SweepMergeOld(s, prev, x);
      assert Used(s.heap, x);
    }
    forall x | Live(s, x) && s.heap[x].wosize > 0 ensures Survives(s, s', x) {
      SweepMergeLive(s, prev, x);
    }
    forall x | Live(s', x)
      ensures s'.heap[x].fields == [] || (Live(s, x) && s'.heap[x].tag == s.heap[x].tag
              && s'.heap[x].fields == s.heap[x].fields)
    {
      SweepMergeOld(s, prev, x);
      assert Used(s.heap, x);
    }
    ClosedAfter(s, s');
  }

  lemma SweepSkipClosed(s: Gc)
    requires Inv(s) && s.phase == Sweep && s.sweep.hp < s.sweep.limit && s.sweep.hp in s.heap
    requires s.heap[s.sweep.hp].color != White
    ensures Closed(SweepStep(s, NoPrev))
  {
    var s', a := SweepStep(s, NoPrev), s.sweep.hp;
    forall x | Live(s, x) && s.heap[x].wosize > 0 ensures Survives(s, s', x) {
      assert a < x ==> Before(s.heap, a, x);
    }
    forall x | Live(s', x)
      ensures Live(s, x) && s'.heap[x].tag == s.heap[x].tag && s'.heap[x].fields == s.heap[x].fields
    {
      assert Used(s.heap, x);
      assert a < x ==> Before(s.heap, a, x);
    }
    ClosedAfter(s, s');
  }

  lemma SweepSkipOk(s: Gc)
    requires Inv(s) && s.phase == Sweep && s.sweep.hp < s.sweep.limit && s.sweep.hp in s.heap
    requires s.heap[s.sweep.hp].color != White
    ensures Inv(SweepStep(s, NoPrev))
  {
    var e := SweepAt(s);
    var s', a := SweepStep(s, NoPrev), s.sweep.hp;
    SameTiling(s.heap, s'.heap, s.area.chunks);
    assert CursorIn(s'.heap, s.area.chunks, s'.sweep, e);
    forall x: nat | Used(s'.heap, x)
      ensures |s'.heap[x].fields| == s'.heap[x].wosize
      ensures if x < s'.sweep.hp then s'.heap[x].color == White else s'.heap[x].color != Gray
    {
      assert Used(s.heap, x);
      assert a < x ==> Before(s.heap, a, x);
    }
    SweepSkipClosed(s);
  }

  lemma SweepNextChunkOk(s: Gc)
    requires Inv(s) && s.phase == Sweep && s.sweep.hp == s.sweep.limit
    ensures Inv(SweepStep(s, NoPrev))
  {
    var e :| CursorIn(s.heap, s.area.chunks, s.sweep, e);
    var s', c := SweepStep(s, NoPrev), NextChunk(s.area.chunks, s.sweep.limit, 0);
    if c < |s.area.chunks| {
      ChunkCursorOk(s.heap, s.area.chunks, c);
    }
    forall x: nat | Used(s.heap, x) && x >= s.sweep.limit
      ensures c < |s.area.chunks| && x >= s'.sweep.hp
    {
      GapIsEmpty(s.heap, s.area.chunks, e, x);
    }
    forall x: nat | Used(s.heap, x) ensures Live(s', x) <==> Live(s, x) {
    }
    ClosedAfter(s, s');
  }

  /** Every sweeping step keeps the invariant. */
  lemma SweepStepOk(s: Gc, prev: Prev)
    requires Inv(s) && s.phase == Sweep
    requires SweepMerges(s) && prev.Prev? ==> JoinsPrev(s.heap, s.sweep.hp, s.frag, prev.hp)
    ensures s.sweep.hp < s.sweep.limit ==> s.sweep.hp in s.heap
    ensures Inv(SweepStep(s, prev))
  {
    var e :| CursorIn(s.heap, s.area.chunks, s.sweep, e);
    if s.sweep.hp == s.sweep.limit {
      SweepNextChunkOk(s);
    } else if s.heap[s.sweep.hp].color == White {
      SweepMergeOk(s, prev);
    } else {
      SweepSkipOk(s);
    }
  }
}
