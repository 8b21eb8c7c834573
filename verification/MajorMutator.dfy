/**
 The mutator's steps keep the collector's invariant, and the safety theorem over
 every interleaving of mutator steps with mark and sweep steps.
 */
module MajorMutator {
  import opened Mlvalues
  import opened Blocks
  import opened Tricolor
  import opened MajorGc
  import opened MajorInv
  import opened MajorSafety

  /** A value the mutator can get hold of. */
  ghost predicate Usable(s: Gc, v: Value) {
    v.Ptr? && InHeap(s.area.chunks, v.hp) ==> Reach(s, v.hp)
  }

  lemma UsableIsLive(s: Gc, v: Value)
    requires Inv(s) && Usable(s, v)
    ensures LiveVal(s, v)
    ensures s.phase == Mark ==> SafeVal(s.heap, s.area, v)
  {
    if v.Ptr? && InHeap(s.area.chunks, v.hp) {
      ReachIsLive(s, v.hp);
    }
  }

  // ----- Changing the roots -----

  lemma SetRootsOk(s: Gc, roots: seq<Value>)
    requires Inv(s) && forall i :: 0 <= i < |roots| ==> Usable(s, roots[i])
    ensures Inv(s.(roots := roots))
  {
    var s' := s.(roots := roots);
    assert forall v :: LiveVal(s', v) <==> LiveVal(s, v);
    forall i | 0 <= i < |roots|
      ensures LiveVal(s', roots[i]) && (s.phase == Mark ==> SafeVal(s.heap, s.area, roots[i]))
    {
      UsableIsLive(s, roots[i]);
    }
    forall x | Live(s', x) && s'.heap[x].tag < NO_SCAN_TAG ensures LiveFields(s', x) {
      assert Live(s, x);
    }
  }

  // ----- Storing into a field -----

  lemma StoreClosed(s: Gc, x: nat, i: nat, val: Value)
    requires Inv(s) && Live(s, x) && i < |s.heap[x].fields| && LiveVal(s, val)
    ensures var s' := s.(heap := Store(s.heap, x, i, val));
            Tiled(s'.heap, s.area.chunks) && FieldCounts(s'.heap) && Closed(s')
  {
    var s' := s.(heap := Store(s.heap, x, i, val));
    SameTiling(s.heap, s'.heap, s.area.chunks);
    forall y | Used(s'.heap, y) ensures |s'.heap[y].fields| == s'.heap[y].wosize {
      assert Used(s.heap, y);
    }
    assert forall v :: LiveVal(s, v) ==> LiveVal(s', v);
    forall y | Live(s', y) && s'.heap[y].tag < NO_SCAN_TAG ensures LiveFields(s', y) {
      assert Live(s, y) && LiveFields(s, y);
    }
  }

  /** A store into a field whose old target, if any, is not white. */
  lemma StoreMarkerOk(m: Marker, area: Area, cur: Cursor, x: nat, i: nat, val: Value)
    requires MarkerOk(m, area, cur) && Used(m.heap, x) && i < |m.heap[x].fields|
    requires Darkened(m.heap, area, m.heap[x].fields[i])
    requires GoodVal(m.heap, area, val) && SafeVal(m.heap, area, val)
    ensures var h := Store(m.heap, x, i, val);
            MarkerOk(Marker(h, m.stack), area, cur) && KeepsSafe(m.heap, h)
  {
    var h := Store(m.heap, x, i, val);
    StoreOk(m.heap, area, x, i, val);
    StoreInv(m.heap, m.stack, cur, -1, x, i, val);
    forall c | Edge(m.heap, x, c) && m.heap[c].color == White ensures Edge(h, x, c) {
      var j: nat :| PointsTo(m.heap[x].fields, j, c);
      BlockInHeap(m.heap, area.chunks, c);
      assert j != i;
      assert PointsTo(h[x].fields, j, c);
    }
    WriteRespects(m.heap, x, h[x].fields);
    RespectsKeepsSafe(m.heap, h);
    forall y | IsColor(h, y, Black) && h[y].tag < NO_SCAN_TAG ensures SafeFields(h, area, y) {
      assert IsColor(m.heap, y, Black) && SafeFields(m.heap, area, y) && Used(m.heap, y) && GoodFields(m.heap, area, y);
      forall j | 0 <= j < |h[y].fields| ensures SafeVal(h, area, h[y].fields[j]) {
        SafeValKept(m.heap, h, area, h[y].fields[j]);
      }
    }
  }

  lemma StoreMarkOk(s: Gc, x: nat, i: nat, val: Value)
    requires Inv(s) && s.phase == Mark && Live(s, x) && i < |s.heap[x].fields|
    requires Darkened(s.heap, s.area, s.heap[x].fields[i])
    requires LiveVal(s, val) && SafeVal(s.heap, s.area, val)
    ensures Inv(s.(heap := Store(s.heap, x, i, val)))
  {
    var s' := s.(heap := Store(s.heap, x, i, val));
    ClosedIsHeapOk(s);
    StoreMarkerOk(Marker(s.heap, s.stack), s.area, s.markhp, x, i, val);
    StoreClosed(s, x, i, val);
    forall j | 0 <= j < |s.roots| ensures SafeVal(s'.heap, s.area, s.roots[j]) {
      SafeValKept(s.heap, s'.heap, s.area, s.roots[j]);
    }
    if s.markhp.Cursor? {
      CursorKept(s.heap, s'.heap, s.area.chunks, s.markhp);
    }
  }

  lemma StoreQuietOk(s: Gc, x: nat, i: nat, val: Value)
    requires Inv(s) && s.phase != Mark && Live(s, x) && i < |s.heap[x].fields| && LiveVal(s, val)
    ensures Inv(s.(heap := Store(s.heap, x, i, val)))
  {
    var s' := s.(heap := Store(s.heap, x, i, val));
    StoreClosed(s, x, i, val);
    if s.phase == Sweep {
      CursorKept(s.heap, s'.heap, s.area.chunks, s.sweep);
    }
    forall y: nat | Used(s'.heap, y) ensures s'.heap[y].color == s.heap[y].color && Used(s.heap, y) {
    }
  }

  /** `caml_initialize_r`, into a field that holds no heap pointer. */
  lemma InitializeOk(s: Gc, x: nat, i: nat, val: Value)
    requires Inv(s) && Reach(s, x) && x in s.heap && i < |s.heap[x].fields| && Usable(s, val)
    requires !HeapBlock(s.heap, s.area, s.heap[x].fields[i]) && s.heap[x].tag < NO_SCAN_TAG
    ensures Inv(Initialize(s, x, i, val))
  {
    ReachIsLive(s, x);
    UsableIsLive(s, val);
    assert LiveFields(s, x);
    if s.phase == Mark {
      StoreMarkOk(s, x, i, val);
    } else {
      StoreQuietOk(s, x, i, val);
    }
  }

  lemma DarkenStore(m: Marker, area: Area, x: nat, i: nat, val: Value, v: Value, out: Outcome)
    requires x in m.heap && i < |m.heap[x].fields| && StackOk(m.stack)
    ensures var m1 := Darken(m, area, v, out);
            && x in m1.heap && i < |m1.heap[x].fields|
            && Darken(Marker(Store(m.heap, x, i, val), m.stack), area, v, out) ==
              Marker(Store(m1.heap, x, i, val), m1.stack)
  {
  }

  lemma DarkenStepOk(s: Gc, v: Value, out: Outcome)
    requires Inv(s) && s.phase == Mark && GoodVal(s.heap, s.area, v)
    ensures var s' := WithMarker(s, Darken(Marker(s.heap, s.stack), s.area, v, out));
            && Inv(s') && KeepsSafe(s.heap, s'.heap) && KeepsGood(s.heap, s'.heap, s.area)
            && Darkened(s'.heap, s.area, v) && SameButColors(s.heap, s'.heap)
  {
    var m := Marker(s.heap, s.stack);
    var s' := WithMarker(s, Darken(m, s.area, v, out));
    ClosedIsHeapOk(s);
    DarkenOk(m, s.area, s.markhp, v, out);
    ClosedIsHeapOk(s');
    forall j | 0 <= j < |s.roots| ensures SafeVal(s'.heap, s.area, s.roots[j]) {
      SafeValKept(s.heap, s'.heap, s.area, s.roots[j]);
    }
    if s.markhp.Cursor? {
      CursorKept(s.heap, s'.heap, s.area.chunks, s.markhp);
    }
  }

  /** `Modify` of a reachable block with a usable value. */
  lemma ModifyOk(s: Gc, x: nat, i: nat, val: Value, out: Outcome)
    requires Inv(s) && Reach(s, x) && x in s.heap && i < |s.heap[x].fields| && Usable(s, val)
    requires s.heap[x].tag < NO_SCAN_TAG
    ensures StackOk(s.stack) && Inv(Modify(s, x, i, val, out))
  {
    ReachIsLive(s, x);
    UsableIsLive(s, val);
    assert LiveFields(s, x);
    if s.phase == Mark {
      var previous := s.heap[x].fields[i];
      assert GoodVal(s.heap, s.area, previous) && GoodVal(s.heap, s.area, val);
      DarkenStepOk(s, previous, out);
      var s1 := WithMarker(s, Darken(Marker(s.heap, s.stack), s.area, previous, out));
      DarkenStore(Marker(s.heap, s.stack), s.area, x, i, val, previous, out);
      SafeValKept(s.heap, s1.heap, s.area, val);
      assert Used(s1.heap, x);
      StoreMarkOk(s1, x, i, val);
    } else {
      StoreQuietOk(s, x, i, val);
    }
  }

  // ----- Allocation -----

  /** What a split leaves of the other blocks. */
  lemma AllocOld(s: Gc, a: nat, wosize: nat, tag: nat, x: nat)
    requires Inv(s) && CanSplit(s.heap, a, wosize)
    ensures var s', hp := AllocShr(s, a, wosize, tag), SplitHp(s.heap, a, wosize);
            && (Used(s.heap, x) ==> Used(s'.heap, x) && s'.heap[x] == s.heap[x] && x != hp)
            && (Used(s'.heap, x) && x != hp ==>
                || (Used(s.heap, x) && s'.heap[x] == s.heap[x])
                || s'.heap[x] == Block(0, 0, White, []))
  {
    SplitFresh(s.heap, s.area.chunks, a, wosize);
  }

  lemma AllocClosed(s: Gc, a: nat, wosize: nat, tag: nat)
    requires Inv(s) && CanSplit(s.heap, a, wosize)
    ensures FieldCounts(AllocShr(s, a, wosize, tag).heap) && Closed(AllocShr(s, a, wosize, tag))
  {
    var s', hp := AllocShr(s, a, wosize, tag), SplitHp(s.heap, a, wosize);
    forall x | Used(s'.heap, x) ensures |s'.heap[x].fields| == s'.heap[x].wosize {
      AllocOld(s, a, wosize, tag, x);
      assert Used(s.heap, x) ==> |s.heap[x].fields| == s.heap[x].wosize;
    }
    forall x | Live(s, x) && s.heap[x].wosize > 0 ensures Survives(s, s', x) {
      AllocOld(s, a, wosize, tag, x);
    }
    forall x | Live(s', x)
      ensures NoPointers(s'.heap[x].fields)
              || (Live(s, x) && s'.heap[x].tag == s.heap[x].tag && s'.heap[x].fields == s.heap[x].fields)
    {
      AllocOld(s, a, wosize, tag, x);
    }
    ClosedAfter(s, s');
  }

  lemma AllocMark(s: Gc, a: nat, wosize: nat, tag: nat)
    requires Inv(s) && CanSplit(s.heap, a, wosize) && s.phase == Mark
    ensures MarkOk(AllocShr(s, a, wosize, tag))
  {
    var s', hp := AllocShr(s, a, wosize, tag), SplitHp(s.heap, a, wosize);
    forall x ensures Used(s.heap, x) ==> Used(s'.heap, x) && s'.heap[x] == s.heap[x] && x != hp {
      AllocOld(s, a, wosize, tag, x);
    }
    FreeRespects(s.heap, s'.heap);
    RespectsKeepsSafe(s.heap, s'.heap);
    ClosedIsHeapOk(s);
    forall i | 0 <= i < |s'.roots| ensures SafeVal(s'.heap, s.area, s'.roots[i]) {
      if i < |s.roots| {
        SafeValKept(s.heap, s'.heap, s.area, s.roots[i]);
      }
    }
    forall x: nat | IsColor(s'.heap, x, Gray) ensures IsColor(s.heap, x, Gray) {
      AllocOld(s, a, wosize, tag, x);
    }
    AllocBlackSafe(s, a, wosize, tag);
    if s.markhp.Cursor? {
      CursorKept(s.heap, s'.heap, s.area.chunks, s.markhp);
    }
  }

  lemma AllocBlackSafe(s: Gc, a: nat, wosize: nat, tag: nat)
    requires Inv(s) && CanSplit(s.heap, a, wosize) && s.phase == Mark
    requires KeepsSafe(s.heap, AllocShr(s, a, wosize, tag).heap)
    ensures BlackSafe(AllocShr(s, a, wosize, tag).heap, s.area)
  {
    var s' := AllocShr(s, a, wosize, tag);
    ClosedIsHeapOk(s);
    forall x | IsColor(s'.heap, x, Black) && s'.heap[x].tag < NO_SCAN_TAG ensures SafeFields(s'.heap, s.area, x) {
      AllocOld(s, a, wosize, tag, x);
      if x != SplitHp(s.heap, a, wosize) {
        assert IsColor(s.heap, x, Black) && SafeFields(s.heap, s.area, x) && Used(s.heap, x)
               && GoodFields(s.heap, s.area, x);
        forall i | 0 <= i < |s'.heap[x].fields| ensures SafeVal(s'.heap, s.area, s'.heap[x].fields[i]) {
          SafeValKept(s.heap, s'.heap, s.area, s.heap[x].fields[i]);
        }
      }
    }
  }

  lemma AllocSweep(s: Gc, a: nat, wosize: nat, tag: nat)
    requires Inv(s) && CanSplit(s.heap, a, wosize) && s.phase == Sweep
    ensures SweepOk(AllocShr(s, a, wosize, tag))
  {
    var s' := AllocShr(s, a, wosize, tag);
    CursorKept(s.heap, s'.heap, s.area.chunks, s.sweep);
    SplitFresh(s.heap, s.area.chunks, a, wosize);
    forall x: nat | Used(s'.heap, x)
      ensures if x < s'.sweep.hp then s'.heap[x].color == White else s'.heap[x].color != Gray
    {
      AllocOld(s, a, wosize, tag, x);
    }
  }

  /** Allocation from any free block that is large enough. */
  lemma AllocShrOk(s: Gc, a: nat, wosize: nat, tag: nat)
    requires Inv(s) && CanSplit(s.heap, a, wosize)
    ensures Inv(AllocShr(s, a, wosize, tag))
  {
    var s', hp := AllocShr(s, a, wosize, tag), SplitHp(s.heap, a, wosize);
    SplitTiled(s.heap, s.area.chunks, a, s'.heap[hp]);
    AllocClosed(s, a, wosize, tag);
    if s.phase == Mark {
      AllocMark(s, a, wosize, tag);
    } else if s.phase == Sweep {
      AllocSweep(s, a, wosize, tag);
    } else {
      forall x | Used(s'.heap, x) ensures s'.heap[x].color == White {
        AllocOld(s, a, wosize, tag, x);
      }
    }
  }

  // ----- A new chunk -----

  /** Fresh memory: apart from the other chunks, and nothing points into it. */
  ghost predicate FreshChunk(s: Gc, chunk: Chunk) {
    && chunk.size > 0
    && (forall c :: 0 <= c < |s.area.chunks| ==> OffChunk(s.area.chunks[c], chunk))
    && (forall x {:trigger Live(s, x)} :: Live(s, x) && s.heap[x].tag < NO_SCAN_TAG ==>
      OffFields(s.heap[x].fields, chunk))
    && OffFields(s.roots, chunk)
  }

  ghost predicate OffChunk(c: Chunk, chunk: Chunk) {
    ChunkEnd(c) < chunk.start || ChunkEnd(chunk) < c.start
  }

  ghost predicate OffFields(fields: seq<Value>, chunk: Chunk) {
    forall i :: 0 <= i < |fields| ==> OffVal(fields[i], chunk)
  }

  ghost predicate OffVal(v: Value, chunk: Chunk) {
    v.Ptr? ==> v.hp < chunk.start || v.hp >= ChunkEnd(chunk)
  }

  /** Where chunk `c` goes when the new one is inserted at `k`. */
  function Shifted(k: nat, c: nat): nat { if c < k then c else c + 1 }

  lemma InsertedAt(chunks: seq<Chunk>, chunk: Chunk, c: nat)
    requires c < |chunks|
    ensures var k, r := NextChunk(chunks, chunk.start, 0), Inserted(chunks, chunk);
            |r| == |chunks| + 1 && r[k] == chunk && r[Shifted(k, c)] == chunks[c]
  {
  }

  lemma InsertedBefore(chunks: seq<Chunk>, chunk: Chunk, c: nat)
    requires SortedChunks(chunks) && c < |chunks| && OffChunk(chunks[c], chunk)
    ensures if c < NextChunk(chunks, chunk.start, 0) then ChunkEnd(chunks[c]) < chunk.start
            else ChunkEnd(chunk) < chunks[c].start
  {
    var k := NextChunk(chunks, chunk.start, 0);
    assert k < c ==> ChunkBefore(chunks, k, c);
  }

  lemma InsertedSorted(chunks: seq<Chunk>, chunk: Chunk)
    requires SortedChunks(chunks) && chunk.size > 0 && forall c :: 0 <= c < |chunks| ==> OffChunk(chunks[c], chunk)
    ensures SortedChunks(Inserted(chunks, chunk))
  {
    var k, r := NextChunk(chunks, chunk.start, 0), Inserted(chunks, chunk);
    forall c: nat, d: nat | c < d < |r| ensures ChunkBefore(r, c, d) {
      var c0: nat := if c <= k then c else c - 1;
      var d0: nat := if d <= k then d else d - 1;
      if c == k {
        InsertedBefore(chunks, chunk, d0);
      } else if d == k {
        InsertedBefore(chunks, chunk, c0);
      } else {
        assert ChunkBefore(chunks, c0, d0);
      }
    }
  }

  lemma InsertedInHeap(chunks: seq<Chunk>, chunk: Chunk, a: nat)
    ensures InHeap(Inserted(chunks, chunk), a) <==> InHeap(chunks, a) || chunk.start <= a < ChunkEnd(chunk)
  {
    var k, r := NextChunk(chunks, chunk.start, 0), Inserted(chunks, chunk);
    if InHeap(r, a) {
      var c: nat :| c < |r| && r[c].start <= a < ChunkEnd(r[c]);
      assert c < k ==> r[c] == chunks[c];
      assert c > k ==> r[c] == chunks[c - 1];
    }
    if InHeap(chunks, a) {
      var c: nat :| c < |chunks| && chunks[c].start <= a < ChunkEnd(chunks[c]);
      InsertedAt(chunks, chunk, c);
    }
    assert r[k] == chunk;
  }

  lemma NewIsOff(s: Gc, chunk: Chunk, a: nat)
    requires Tiled(s.heap, s.area.chunks) && FreshChunk(s, chunk) && a in s.heap
    ensures End(s.heap, a) < chunk.start || ChunkEnd(chunk) < a
  {
    assert Fits(s.heap, s.area.chunks, a);
    var c: nat :| FitsIn(s.heap, s.area.chunks, c, a);
    assert OffChunk(s.area.chunks[c], chunk);
  }

  lemma ExpandFits(s: Gc, chunk: Chunk, a: nat)
    requires Tiled(s.heap, s.area.chunks) && FreshChunk(s, chunk) && a in ExpandHeap(s, chunk).heap
    ensures Fits(ExpandHeap(s, chunk).heap, ExpandHeap(s, chunk).area.chunks, a)
  {
    var s', k := ExpandHeap(s, chunk), NextChunk(s.area.chunks, chunk.start, 0);
    if a == chunk.start {
      InsertedAt(s.area.chunks, chunk, 0);
      assert FitsIn(s'.heap, s'.area.chunks, k, a);
    } else {
      assert Fits(s.heap, s.area.chunks, a);
      var c: nat :| FitsIn(s.heap, s.area.chunks, c, a);
      InsertedAt(s.area.chunks, chunk, c);
      assert FitsIn(s'.heap, s'.area.chunks, Shifted(k, c), a);
    }
  }

  lemma ExpandBefore(s: Gc, chunk: Chunk, a: nat, b: nat)
    requires Tiled(s.heap, s.area.chunks) && FreshChunk(s, chunk)
    requires a in ExpandHeap(s, chunk).heap && b in ExpandHeap(s, chunk).heap && a < b
    ensures Before(ExpandHeap(s, chunk).heap, a, b)
  {
    if a in s.heap { NewIsOff(s, chunk, a); }
    if b in s.heap { NewIsOff(s, chunk, b); }
    assert a != chunk.start && b != chunk.start ==> Before(s.heap, a, b);
  }

  lemma ExpandTiled(s: Gc, chunk: Chunk)
    requires Tiled(s.heap, s.area.chunks) && FreshChunk(s, chunk)
    ensures var s' := ExpandHeap(s, chunk); Tiled(s'.heap, s'.area.chunks)
  {
    var s', k := ExpandHeap(s, chunk), NextChunk(s.area.chunks, chunk.start, 0);
    InsertedSorted(s.area.chunks, chunk);
    forall a | a in s'.heap ensures Fits(s'.heap, s'.area.chunks, a) {
      ExpandFits(s, chunk, a);
    }
    forall a, b | a in s'.heap && b in s'.heap && a < b ensures Before(s'.heap, a, b) {
      ExpandBefore(s, chunk, a, b);
    }
    forall c: nat | c < |s'.area.chunks| ensures s'.area.chunks[c].start in s'.heap {
      var c0: nat := if c < k then c else if c > k then c - 1 else 0;
      InsertedAt(s.area.chunks, chunk, c0);
    }
  }

  lemma ExpandCursor(s: Gc, chunk: Chunk, cur: Cursor)
    requires Tiled(s.heap, s.area.chunks) && FreshChunk(s, chunk) && CursorOk(s.heap, s.area.chunks, cur)
    ensures CursorOk(ExpandHeap(s, chunk).heap, ExpandHeap(s, chunk).area.chunks, cur)
  {
    var s', k := ExpandHeap(s, chunk), NextChunk(s.area.chunks, chunk.start, 0);
    var e: nat :| CursorIn(s.heap, s.area.chunks, cur, e);
    InsertedAt(s.area.chunks, chunk, e);
    assert CursorIn(s'.heap, s'.area.chunks, cur, Shifted(k, e));
  }

  /** Used blocks are the same before and after. */
  lemma ExpandUsed(s: Gc, chunk: Chunk, x: nat)
    requires Inv(s) && FreshChunk(s, chunk)
    ensures var s' := ExpandHeap(s, chunk);
            && (Used(s'.heap, x) <==> Used(s.heap, x)) && (Used(s.heap, x) ==> s'.heap[x] == s.heap[x])
            && (Live(s', x) <==> Live(s, x))
  {
    if x in s.heap {
      NewIsOff(s, chunk, x);
    }
  }

  lemma ExpandVal(s: Gc, chunk: Chunk, v: Value)
    requires Inv(s) && FreshChunk(s, chunk) && LiveVal(s, v) && OffVal(v, chunk)
    ensures var s' := ExpandHeap(s, chunk);
            && LiveVal(s', v)
            && (KeepsSafe(s.heap, s'.heap) && SafeVal(s.heap, s.area, v) ==> SafeVal(s'.heap, s'.area, v))
  {
    if v.Ptr? {
      InsertedInHeap(s.area.chunks, chunk, v.hp);
      ExpandUsed(s, chunk, v.hp);
    }
  }

  lemma ExpandClosed(s: Gc, chunk: Chunk)
    requires Inv(s) && FreshChunk(s, chunk)
    ensures FieldCounts(ExpandHeap(s, chunk).heap) && Closed(ExpandHeap(s, chunk))
  {
    var s' := ExpandHeap(s, chunk);
    forall x | Used(s'.heap, x) ensures |s'.heap[x].fields| == s'.heap[x].wosize {
      ExpandUsed(s, chunk, x);
    }
    forall x | Live(s', x) && s'.heap[x].tag < NO_SCAN_TAG ensures LiveFields(s', x) {
      ExpandUsed(s, chunk, x);
      assert Live(s, x) && LiveFields(s, x);
      forall i | 0 <= i < |s'.heap[x].fields| ensures LiveVal(s', s'.heap[x].fields[i]) {
        ExpandVal(s, chunk, s.heap[x].fields[i]);
      }
    }
    forall i | 0 <= i < |s'.roots| ensures LiveVal(s', s'.roots[i]) {
      ExpandVal(s, chunk, s.roots[i]);
    }
  }

  lemma ExpandMark(s: Gc, chunk: Chunk)
    requires Inv(s) && FreshChunk(s, chunk) && s.phase == Mark
    ensures MarkOk(ExpandHeap(s, chunk))
  {
    var s' := ExpandHeap(s, chunk);
    forall x ensures (Used(s'.heap, x) <==> Used(s.heap, x)) && (Used(s.heap, x) ==> s'.heap[x] == s.heap[x]) {
      ExpandUsed(s, chunk, x);
    }
    FreeRespects(s.heap, s'.heap);
    RespectsKeepsSafe(s.heap, s'.heap);
    forall x: nat | IsColor(s'.heap, x, Gray) ensures IsColor(s.heap, x, Gray) {
      assert Used(s'.heap, x);
    }
    forall x | IsColor(s'.heap, x, Black) && s'.heap[x].tag < NO_SCAN_TAG ensures SafeFields(s'.heap, s'.area, x) {
      assert Used(s'.heap, x) && IsColor(s.heap, x, Black) && SafeFields(s.heap, s.area, x);
      assert Live(s, x) && LiveFields(s, x);
      forall i | 0 <= i < |s'.heap[x].fields| ensures SafeVal(s'.heap, s'.area, s'.heap[x].fields[i]) {
        ExpandVal(s, chunk, s.heap[x].fields[i]);
      }
    }
    forall i | 0 <= i < |s'.roots| ensures SafeVal(s'.heap, s'.area, s'.roots[i]) {
      ExpandVal(s, chunk, s.roots[i]);
    }
    if s.markhp.Cursor? {
      ExpandCursor(s, chunk, s.markhp);
    }
  }

  lemma ExpandHeapOk(s: Gc, chunk: Chunk)
    requires Inv(s) && FreshChunk(s, chunk)
    ensures Inv(ExpandHeap(s, chunk))
  {
    var s' := ExpandHeap(s, chunk);
    ExpandTiled(s, chunk);
    ExpandClosed(s, chunk);
    if s.phase == Mark {
      ExpandMark(s, chunk);
    } else {
      forall x: nat ensures (Used(s'.heap, x) <==> Used(s.heap, x)) && (Used(s.heap, x) ==> s'.heap[x] == s.heap[x]) {
        ExpandUsed(s, chunk, x);
      }
      if s.phase == Sweep {
        ExpandCursor(s, chunk, s.sweep);
        assert s.frag >= 0 && s.frag in s.heap ==> s'.heap[s.frag] == s.heap[s.frag] by {
          if s.frag >= 0 && s.frag in s.heap {
            NewIsOff(s, chunk, s.frag);
          }
        }
      }
    }
  }
}
