/**
 A major cycle without mutator steps is exact: the blocks that it leaves in use
 are the blocks that were reachable when it started.
 */
module MajorExact {
  import opened Mlvalues
  import opened Blocks
  import opened Tricolor
  import opened MajorGc
  import opened MajorInv
  import opened MajorSafety
  import opened MajorRuns

  /** The blocks that were reachable in state `s`. */
  ghost function Reached(s: Gc): iset<nat> {
    iset x: nat | Reach(s, x)
  }

  ghost predicate ValIn(area: Area, r: iset<nat>, v: Value) {
    v.Ptr? && InHeap(area.chunks, v.hp) ==> v.hp in r
  }

  ghost predicate FieldsIn(h: Heap, area: Area, r: iset<nat>, x: nat) {
    x in h && h[x].tag < NO_SCAN_TAG ==> forall i :: 0 <= i < |h[x].fields| ==> ValIn(area, r, h[x].fields[i])
  }

  /** Blocks of `r` point into `r` only. */
  ghost predicate ClosedSet(h: Heap, area: Area, r: iset<nat>) {
    forall x {:trigger FieldsIn(h, area, r, x)} :: x in r ==> FieldsIn(h, area, r, x)
  }

  /** Only blocks of `r` are gray or black. */
  ghost predicate DarkIn(h: Heap, r: iset<nat>) {
    forall x {:trigger h[x]} :: x in h && h[x].color in {Gray, Black} ==> x in r
  }

  // ----- Marking darkens reachable blocks only -----

  lemma MarkChildIn(m: Marker, area: Area, v: nat, i: nat, out: Outcome, r: iset<nat>)
    requires v in m.heap && i < |m.heap[v].fields| && StackOk(m.stack) && m.heap[v].tag < NO_SCAN_TAG
    requires v in r && ClosedSet(m.heap, area, r) && DarkIn(m.heap, r)
    ensures var h' := MarkChild(m, area, v, i, out).heap;
            h'[v].tag == m.heap[v].tag && ClosedSet(h', area, r) && DarkIn(h', r)
  {
    var child, h' := m.heap[v].fields[i], MarkChild(m, area, v, i, out).heap;
    assert FieldsIn(m.heap, area, r, v) && ValIn(area, r, child);
    if HeapBlock(m.heap, area, child) {
      assert FieldsIn(m.heap, area, r, child.hp);
      assert Shortcut(m.heap, area, child) ==> ValIn(area, r, m.heap[child.hp].fields[0]);
    }
    forall x | x in r ensures FieldsIn(h', area, r, x) {
      assert FieldsIn(m.heap, area, r, x);
    }
  }

  lemma {:induction false} MarkFieldsIn(m: Marker, area: Area, v: nat, n: nat, outs: nat -> Outcome, r: iset<nat>)
    requires v in m.heap && n <= |m.heap[v].fields| && StackOk(m.stack) && m.heap[v].tag < NO_SCAN_TAG
    requires v in r && ClosedSet(m.heap, area, r) && DarkIn(m.heap, r)
    ensures var h' := MarkFields(m, area, v, n, outs).heap;
            h'[v].tag == m.heap[v].tag && ClosedSet(h', area, r) && DarkIn(h', r)
  {
    if n > 0 {
      MarkFieldsIn(m, area, v, n - 1, outs, r);
      MarkChildIn(MarkFields(m, area, v, n - 1, outs), area, v, n - 1, outs(n - 1), r);
    }
  }

  lemma MarkBlockIn(m: Marker, area: Area, outs: nat -> Outcome, r: iset<nat>)
    requires |m.stack.vals| > 0 && IsColor(m.heap, m.stack.vals[|m.stack.vals| - 1], Gray) && StackOk(m.stack)
    requires ClosedSet(m.heap, area, r) && DarkIn(m.heap, r)
    ensures ClosedSet(MarkBlock(m, area, outs).heap, area, r) && DarkIn(MarkBlock(m, area, outs).heap, r)
  {
    var n := |m.stack.vals| - 1;
    var v, m1 := m.stack.vals[n], m.(stack := m.stack.(vals := m.stack.vals[..n]));
    assert v in r;
    if m.heap[v].tag < NO_SCAN_TAG {
      MarkFieldsIn(m1, area, v, |m.heap[v].fields|, outs, r);
    }
    var h := if m.heap[v].tag < NO_SCAN_TAG then MarkFields(m1, area, v, |m.heap[v].fields|, outs).heap else m.heap;
    forall x | x in r ensures FieldsIn(Recolor(h, v, Black), area, r, x) {
      assert FieldsIn(h, area, r, x);
    }
  }

  // ----- The invariant of an exact cycle -----

  /** What must end the cycle in use. */
  ghost predicate Kept(s: Gc, x: nat) {
    Live(s, x) && s.heap[x].wosize > 0 && (s.phase == Mark ==> Safe(s.heap, x))
  }

  /** What may end the cycle in use. */
  ghost predicate Marked(s: Gc, x: nat) {
    && Used(s.heap, x) && s.heap[x].wosize > 0
    && (s.phase == Mark ==> s.heap[x].color != White)
    && (s.phase == Sweep && s.sweep.Cursor? && x >= s.sweep.hp ==> s.heap[x].color == Black)
  }

  ghost predicate Exact(s: Gc, r: iset<nat>) {
    && (forall x {:trigger Kept(s, x)} :: x in r ==> Kept(s, x))
    && (forall x {:trigger Marked(s, x)} :: Marked(s, x) ==> x in r)
    && (s.phase == Mark ==> ClosedSet(s.heap, s.area, r) && DarkIn(s.heap, r))
  }

  // ----- The cycle starts -----

  lemma {:induction false} SamePaths(s: Gc, s': Gc, p: seq<nat>)
    requires SameButColors(s.heap, s'.heap) && s'.roots == s.roots && s'.area == s.area && ReachPath(s, p)
    ensures ReachPath(s', p)
  {
    if |p| > 1 {
      SamePaths(s, s', p[..|p| - 1]);
      assert Edge(s'.heap, p[|p| - 2], p[|p| - 1]);
    }
  }

  lemma {:induction false} DarkenRootsIn(m: Marker, area: Area, roots: seq<Value>, n: nat, outs: nat -> Outcome,
                                         r: iset<nat>)
    requires n <= |roots| && StackOk(m.stack) && DarkIn(m.heap, r)
    requires forall i :: 0 <= i < |roots| ==> ValIn(area, r, roots[i])
    ensures DarkIn(DarkenRoots(m, area, roots, n, outs).heap, r)
  {
    if n > 0 {
      DarkenRootsIn(m, area, roots, n - 1, outs, r);
    }
  }

  lemma ReachedClosed(s: Gc)
    requires Inv(s)
    ensures ClosedSet(s.heap, s.area, Reached(s))
    ensures forall i :: 0 <= i < |s.roots| ==> ValIn(s.area, Reached(s), s.roots[i])
  {
    forall i | 0 <= i < |s.roots| ensures ValIn(s.area, Reached(s), s.roots[i]) {
      if s.roots[i].Ptr? && InHeap(s.area.chunks, s.roots[i].hp) {
        assert ReachPath(s, [s.roots[i].hp]);
      }
    }
    forall x | x in Reached(s) ensures FieldsIn(s.heap, s.area, Reached(s), x) {
      ReachIsLive(s, x);
      assert s.heap[x].tag < NO_SCAN_TAG ==> LiveFields(s, x);
      if s.heap[x].tag < NO_SCAN_TAG {
        forall i: nat | i < |s.heap[x].fields| ensures ValIn(s.area, Reached(s), s.heap[x].fields[i]) {
          ReachedField(s, x, i);
        }
      }
    }
  }

  lemma ReachedField(s: Gc, x: nat, i: nat)
    requires Reach(s, x) && x in s.heap && s.heap[x].tag < NO_SCAN_TAG && i < |s.heap[x].fields|
    requires LiveVal(s, s.heap[x].fields[i])
    ensures ValIn(s.area, Reached(s), s.heap[x].fields[i])
  {
    var v := s.heap[x].fields[i];
    if v.Ptr? && InHeap(s.area.chunks, v.hp) {
      var p :| ReachPath(s, p) && p[|p| - 1] == x;
      assert PointsTo(s.heap[x].fields, i, v.hp) && Edge(s.heap, x, v.hp);
      assert (p + [v.hp])[..|p|] == p;
      assert ReachPath(s, p + [v.hp]);
    }
  }

  lemma BeginExact(s: Gc, outs: nat -> Outcome)
    requires Inv(s) && s.phase == Idle
    ensures Exact(StartCycle(s, outs), Reached(s))
  {
    var s', r, m := StartCycle(s, outs), Reached(s), Marker(s.heap, s.stack);
    StartCycleOk(s, outs);
    DarkenRootsTags(m, s.area, s.roots, |s.roots|, outs);
    ReachedClosed(s);
    forall x | x in s.heap && s.heap[x].color in {Gray, Black} ensures false {
      assert Used(s.heap, x);
    }
    DarkenRootsIn(m, s.area, s.roots, |s.roots|, outs, r);
    forall x | x in r ensures Kept(s', x) {
      var p :| ReachPath(s, p) && p[|p| - 1] == x;
      SamePaths(s, s', p);
      ReachIsLive(s', x);
    }
    forall x | x in r ensures FieldsIn(s'.heap, s.area, r, x) {
      assert FieldsIn(s.heap, s.area, r, x);
    }
  }

  // ----- Marking -----

  lemma MarkStepKept(s: Gc, outs: nat -> Outcome, x: nat)
    requires Inv(s) && s.phase == Mark && Kept(s, x)
    ensures Kept(MarkStep(s, outs), x)
  {
    var s' := MarkStep(s, outs);
    BlockInHeap(s.heap, s.area.chunks, x);
    if |s.stack.vals| > 0 {
      ClosedIsHeapOk(s);
      MarkBlockOk(Marker(s.heap, s.stack), s.area, s.markhp, outs);
      MarkKeepsShape(s, outs, x);
    } else if s'.phase == Sweep {
      ClosedIsHeapOk(s);
      MarkedValIsBlack(s, Ptr(x, 0));
    }
  }

  lemma MarkStepExact(s: Gc, outs: nat -> Outcome, r: iset<nat>)
    requires Inv(s) && s.phase == Mark && Exact(s, r)
    ensures Exact(MarkStep(s, outs), r)
  {
    var s' := MarkStep(s, outs);
    forall x | x in r ensures Kept(s', x) {
      assert Kept(s, x);
      MarkStepKept(s, outs, x);
    }
    if |s.stack.vals| > 0 {
      assert IsColor(s.heap, s.stack.vals[|s.stack.vals| - 1], Gray);
      MarkBlockIn(Marker(s.heap, s.stack), s.area, outs, r);
    }
    if s'.phase == Sweep {
      forall x | Marked(s', x) ensures x in r {
        AboveFirst(s.heap, s.area.chunks, x);
        assert Marked(s, x);
      }
    }
  }

  // ----- Sweeping -----

  lemma SweepStepMarked(s: Gc, prev: Prev, x: nat)
    requires Inv(s) && Enabled(s, SweepOne(prev)) && Marked(SweepStep(s, prev), x)
    ensures Marked(s, x)
  {
    var e :| CursorIn(s.heap, s.area.chunks, s.sweep, e);
    if SweepMerges(s) {
      SweepMergeOld(s, prev, x);
    } else if s.sweep.hp < s.sweep.limit {
      assert s.sweep.hp < x ==> Before(s.heap, s.sweep.hp, x);
    } else if x >= s.sweep.limit {
      GapIsEmpty(s.heap, s.area.chunks, e, x);
    }
  }

  lemma SweepStepKept(s: Gc, prev: Prev, x: nat)
    requires Inv(s) && Enabled(s, SweepOne(prev)) && Kept(s, x)
    ensures Kept(SweepStep(s, prev), x)
  {
    if SweepMerges(s) {
      SweepMergeLive(s, prev, x);
    } else if s.sweep.hp < s.sweep.limit {
      assert s.sweep.hp < x ==> Before(s.heap, s.sweep.hp, x);
    } else {
      var e :| CursorIn(s.heap, s.area.chunks, s.sweep, e);
    }
  }

  lemma SweepStepExact(s: Gc, prev: Prev, r: iset<nat>)
    requires Inv(s) && Enabled(s, SweepOne(prev)) && Exact(s, r)
    ensures Exact(SweepStep(s, prev), r)
  {
    var s' := SweepStep(s, prev);
    forall x | x in r ensures Kept(s', x) {
      assert Kept(s, x);
      SweepStepKept(s, prev, x);
    }
    forall x | Marked(s', x) ensures x in r {
      SweepStepMarked(s, prev, x);
    }
  }

  // ----- Whole cycles -----

  /** A run of one cycle: it begins, and then only marks and sweeps. */
  ghost predicate OneCycle(acts: seq<Action>) {
    |acts| > 0 && acts[0].BeginCycle? && forall i :: 1 <= i < |acts| ==> acts[i].MarkOne? || acts[i].SweepOne?
  }

  lemma {:induction false} CycleExact(states: seq<Gc>, acts: seq<Action>, i: nat)
    requires IsRun(states, acts) && OneCycle(acts) && Inv(states[0]) && 1 <= i < |states|
    ensures Inv(states[i]) && Exact(states[i], Reached(states[0]))
  {
    IncrementalSafety(states, acts, i);
    assert Step(states[i - 1], acts[i - 1], states[i]);
    if i == 1 {
      BeginExact(states[0], acts[0].outs);
    } else {
      CycleExact(states, acts, i - 1);
      match acts[i - 1]
      case MarkOne(outs) => MarkStepExact(states[i - 1], outs, Reached(states[0]));
      case SweepOne(prev) => SweepStepExact(states[i - 1], prev, Reached(states[0]));
    }
  }

  /** A full cycle keeps exactly the reachable blocks; everything else is free or a
      one-word fragment. */
  lemma FullCycleIsExact(states: seq<Gc>, acts: seq<Action>, x: nat)
    requires IsRun(states, acts) && OneCycle(acts) && Inv(states[0]) && states[|acts|].phase == Idle
    ensures var h := states[|acts|].heap; x in h && h[x].color != Blue && h[x].wosize > 0 <==> Reach(states[0], x)
  {
    CycleExact(states, acts, |acts|);
    var s := states[|acts|];
    assert Marked(s, x) <==> Used(s.heap, x) && s.heap[x].wosize > 0;
    assert Kept(s, x) <==> Used(s.heap, x) && s.heap[x].wosize > 0;
    assert x in Reached(states[0]) <==> Reach(states[0], x);
  }
}
