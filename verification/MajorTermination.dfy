/**
 Marking terminates, although a full gray stack drops entries and the heap is
 scanned again: a lexicographic measure on white blocks, impurity, gray blocks,
 the distance that the rescan has still to go and the subphase decreases.
 */
module MajorTermination {
  import opened Mlvalues
  import opened Blocks
  import opened Tricolor
  import opened MajorGc
  import opened MajorSafety

  ghost function Colored(h: Heap, color: Color): set<nat> {
    set x | x in h && h[x].color == color
  }

  ghost function Impurity(g: Stack): nat { if g.pure then 0 else 1 }

  /** How far the rescan is from the end of the last chunk. */
  ghost function ScanDistance(s: Gc): int {
    if s.markhp.NoCursor? || |s.area.chunks| == 0 then 0
    else ChunkEnd(s.area.chunks[|s.area.chunks| - 1]) + 1 - s.markhp.hp
  }

  ghost function Remaining(s: Gc): nat {
    if s.phase != Mark then 0 else match s.sub case Main => 4 case Weak1 => 3 case Weak2 => 2 case Final => 1
  }

  ghost predicate Decreases(s: Gc, s': Gc) {
    var w, w' := |Colored(s.heap, White)|, |Colored(s'.heap, White)|;
    var g, g' := |Colored(s.heap, Gray)|, |Colored(s'.heap, Gray)|;
    || w' < w
    || (w' == w && Impurity(s'.stack) < Impurity(s.stack))
    || (w' == w && s'.stack.pure == s.stack.pure && g' < g)
    || (w' == w && s'.stack.pure == s.stack.pure && g' == g && 0 <= ScanDistance(s') < ScanDistance(s))
    || (w' == w && s'.stack.pure == s.stack.pure && g' == g && ScanDistance(s') == ScanDistance(s)
      && Remaining(s') < Remaining(s))
  }

  /** No block turns white; and if none stops being white, nothing is pushed. */
  ghost predicate Whitens(m: Marker, m': Marker) {
    && (forall a :: a in m.heap <==> a in m'.heap)
    && (forall a :: a in m.heap && m'.heap[a].color == White ==> m.heap[a].color == White)
    && (Quiet(m, m') || exists a :: a in m.heap && m.heap[a].color == White && m'.heap[a].color != White)
  }

  ghost predicate Quiet(m: Marker, m': Marker) {
    m'.stack == m.stack && forall a :: a in m.heap && a in m'.heap ==> m'.heap[a].color == m.heap[a].color
  }

  lemma WhitensTrans(m: Marker, m1: Marker, m2: Marker)
    requires Whitens(m, m1) && Whitens(m1, m2)
    ensures Whitens(m, m2)
  {
    if !Quiet(m, m1) {
      var a :| a in m.heap && m.heap[a].color == White && m1.heap[a].color != White;
      assert m2.heap[a].color != White;
    } else if !Quiet(m1, m2) {
      var a :| a in m1.heap && m1.heap[a].color == White && m2.heap[a].color != White;
      assert m.heap[a].color == White;
    }
  }

  lemma MarkChildWhitens(m: Marker, m1: Marker, area: Area, v: nat, i: nat, out: Outcome)
    requires Whitens(m, m1) && v in m1.heap && i < |m1.heap[v].fields| && StackOk(m1.stack)
    ensures Whitens(m, MarkChild(m1, area, v, i, out))
  {
    var child, m2 := m1.heap[v].fields[i], MarkChild(m1, area, v, i, out);
    if HeapBlock(m1.heap, area, child) && m1.heap[child.hp].color == White {
      assert m2.heap[child.hp].color == Gray;
    }
    WhitensTrans(m, m1, m2);
  }

  lemma {:induction false} MarkFieldsWhitens(m: Marker, area: Area, v: nat, n: nat, outs: nat -> Outcome)
    requires v in m.heap && n <= |m.heap[v].fields| && StackOk(m.stack)
    ensures Whitens(m, MarkFields(m, area, v, n, outs)) == true
  {
    if n > 0 {
      MarkFieldsWhitens(m, area, v, n - 1, outs);
      MarkChildWhitens(m, MarkFields(m, area, v, n - 1, outs), area, v, n - 1, outs(n - 1));
    }
  }

  lemma MarkBlockDecreases(s: Gc, outs: nat -> Outcome)
    requires Inv(s) && s.phase == Mark && |s.stack.vals| > 0
    ensures Decreases(s, MarkStep(s, outs))
  {
    var n := |s.stack.vals| - 1;
    var v, m := s.stack.vals[n], Marker(s.heap, s.stack.(vals := s.stack.vals[..n]));
    assert IsColor(s.heap, v, Gray);
    var m1 := if s.heap[v].tag < NO_SCAN_TAG then MarkFields(m, s.area, v, |s.heap[v].fields|, outs) else m;
    if s.heap[v].tag < NO_SCAN_TAG {
      MarkFieldsWhitens(m, s.area, v, |s.heap[v].fields|, outs);
    }
    assert Whitens(m, m1);
    BlackenDecreases(s.heap, m, m1, v);
  }

  lemma BlackenDecreases(h: Heap, m: Marker, m1: Marker, v: nat)
    requires m.heap == h && Whitens(m, m1) && IsColor(h, v, Gray)
    ensures v in m1.heap
    ensures var h' := Recolor(m1.heap, v, Black);
            || |Colored(h', White)| < |Colored(h, White)|
            || (m1.stack == m.stack && |Colored(h', White)| == |Colored(h, White)|
              && |Colored(h', Gray)| < |Colored(h, Gray)|)
  {
    var h' := Recolor(m1.heap, v, Black);
    if Quiet(m, m1) {
      assert Colored(h', White) == Colored(h, White);
      assert Colored(h', Gray) == Colored(h, Gray) - {v};
    } else {
      var a :| a in m.heap && m.heap[a].color == White && m1.heap[a].color != White;
      assert a in Colored(h, White) && a !in Colored(h', White);
      SubsetSize(Colored(h', White), Colored(h, White));
    }
  }

  lemma InLastChunk(chunks: seq<Chunk>, c: nat)
    requires SortedChunks(chunks) && c < |chunks|
    ensures ChunkEnd(chunks[c]) <= ChunkEnd(chunks[|chunks| - 1])
  {
    assert c < |chunks| - 1 ==> ChunkBefore(chunks, c, |chunks| - 1);
  }

  lemma RescanDecreases(s: Gc)
    requires Inv(s) && s.phase == Mark && s.stack.vals == [] && s.markhp.Cursor?
    ensures 0 <= ScanDistance(RescanStep(s)) < ScanDistance(s)
  {
    var s', chunks := RescanStep(s), s.area.chunks;
    var e: nat :| CursorIn(s.heap, chunks, s.markhp, e);
    InLastChunk(chunks, e);
    if s.markhp.hp == s.markhp.limit {
      var c := NextChunk(chunks, s.markhp.limit, 0);
      if c < |chunks| {
        InLastChunk(chunks, c);
        assert c < e ==> ChunkBefore(chunks, c, e);
        assert e < c ==> ChunkBefore(chunks, e, c);
      }
    } else {
      NextInChunk(s.heap, chunks, e, s.markhp.hp);
    }
  }

  /** Every iteration of `mark_slice_r` decreases the measure. */
  lemma MarkStepDecreases(s: Gc, outs: nat -> Outcome)
    requires Inv(s) && s.phase == Mark
    ensures Decreases(s, MarkStep(s, outs))
  {
    if |s.stack.vals| > 0 {
      MarkBlockDecreases(s, outs);
    } else if s.markhp.Cursor? {
      RescanDecreases(s);
    }
  }

  lemma MarkAdvances(s: Gc, outs: nat -> Outcome)
    requires Inv(s) && s.phase == Mark
    ensures Inv(MarkStep(s, outs)) == true && Decreases(s, MarkStep(s, outs)) == true
    ensures MarkStep(s, outs).phase in {Mark, Sweep} && MarkStep(s, outs).area == s.area
            && MarkStep(s, outs).roots == s.roots
    ensures ScanDistance(s) >= 0
  {
    MarkStepOk(s, outs);
    MarkStepDecreases(s, outs);
    if s.markhp.Cursor? {
      var e: nat :| CursorIn(s.heap, s.area.chunks, s.markhp, e);
      InLastChunk(s.area.chunks, e);
    }
  }

  /** Mark until sweeping starts, whatever the outcomes of stack overflows are:
      this is well defined because marking terminates. */
  ghost function FinishMarking(s: Gc, outs: nat -> nat -> Outcome, k: nat): (s': Gc)
    requires Inv(s) && s.phase == Mark
    ensures Inv(s') && s'.phase == Sweep && s'.area == s.area && s'.roots == s.roots
    decreases |Colored(s.heap, White)|, Impurity(s.stack), |Colored(s.heap, Gray)|, ScanDistance(s), Remaining(s)
  {
    MarkAdvances(s, outs(k));
    var s1 := MarkStep(s, outs(k));
    if s1.phase == Mark then FinishMarking(s1, outs, k + 1) else s1
  }

  lemma DecreasesTrans(s: Gc, s1: Gc, s2: Gc)
    requires Decreases(s, s1) && Decreases(s1, s2)
    ensures Decreases(s, s2)
  {
  }

  // ----- Sweeping -----

  ghost function SweepDistance(s: Gc): int {
    if s.sweep.NoCursor? || |s.area.chunks| == 0 then 0
    else ChunkEnd(s.area.chunks[|s.area.chunks| - 1]) + 1 - s.sweep.hp
  }

  /** Every iteration of `sweep_slice_r` moves on, or ends the cycle. */
  lemma SweepAdvances(s: Gc, prev: Prev)
    requires Inv(s) && s.phase == Sweep
    requires SweepMerges(s) && prev.Prev? ==> JoinsPrev(s.heap, s.sweep.hp, s.frag, prev.hp)
    ensures s.sweep.hp < s.sweep.limit ==> s.sweep.hp in s.heap
    ensures Inv(SweepStep(s, prev)) == true
    ensures SweepStep(s, prev).phase == Idle
            || (SweepStep(s, prev).phase == Sweep && 0 <= SweepDistance(SweepStep(s, prev)) < SweepDistance(s))
  {
    SweepStepOk(s, prev);
    if s.sweep.hp == s.sweep.limit {
      NextChunkAdvances(s, prev);
    } else {
      BlockAdvances(s, prev);
    }
  }

  /** The sweep cursor is within the chunks. */
  lemma SweepWithin(s: Gc) returns (e: nat)
    requires Inv(s) && s.phase == Sweep
    ensures CursorIn(s.heap, s.area.chunks, s.sweep, e) && SweepDistance(s) >= 0
  {
    e :| CursorIn(s.heap, s.area.chunks, s.sweep, e);
    InLastChunk(s.area.chunks, e);
  }

  lemma NextChunkAdvances(s: Gc, prev: Prev)
    requires Inv(s) && s.phase == Sweep && s.sweep.hp == s.sweep.limit && Inv(SweepStep(s, prev))
    ensures SweepStep(s, prev).phase == Idle
            || (SweepStep(s, prev).phase == Sweep && 0 <= SweepDistance(SweepStep(s, prev)) < SweepDistance(s))
  {
    var s', chunks := SweepStep(s, prev), s.area.chunks;
    var e := SweepWithin(s);
    if s'.phase == Sweep {
      var e' := SweepWithin(s');
      var c := NextChunk(chunks, s.sweep.limit, 0);
      assert c < e ==> ChunkBefore(chunks, c, e);
      assert e < c ==> ChunkBefore(chunks, e, c);
    }
  }

  lemma BlockAdvances(s: Gc, prev: Prev)
    requires Inv(s) && s.phase == Sweep && s.sweep.hp != s.sweep.limit
    requires SweepMerges(s) && prev.Prev? ==> JoinsPrev(s.heap, s.sweep.hp, s.frag, prev.hp)
    requires s.sweep.hp < s.sweep.limit ==> s.sweep.hp in s.heap
    requires Inv(SweepStep(s, prev))
    ensures SweepStep(s, prev).phase == Sweep && 0 <= SweepDistance(SweepStep(s, prev)) < SweepDistance(s)
  {
    var e := SweepWithin(s);
    if SweepMerges(s) {
      SweepMergeCursor(s, prev);
    }
    var e' := SweepWithin(SweepStep(s, prev));
  }
}
