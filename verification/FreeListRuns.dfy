/**
 Runs of the first-fit policy: allocations, extensions of the heap and the steps of the
 sweeper, each with what it does to the table. As long as each step leaves an exact table,
 which can be told before the step, every allocation takes the lowest block that is large
 enough.
 */
module FreeListRuns {
  import opened Blocks
  import opened FreeList
  import opened FreeListMerge
  import opened FreeListSteps
  import opened FreeListIndex
  import opened FreeListPick
  import opened FreeListTable

  /** The free blocks, the table and `beyond` in memory, and the positions that they stand for. */
  datatype TableState = TableState(free: FreeState, flp: seq<Link>, beyond: Link, rec: seq<nat>, bp: int)

  ghost function SizesOf(s: TableState): seq<nat> { Sizes(s.free.h, s.free.fl) }

  ghost predicate Represented(s: TableState) {
    Places(s.free.fl, s.flp, s.rec) && s.beyond == LinkOf(s.free.fl, s.bp)
  }

  ghost predicate TableInv(s: TableState) {
    Inv(s.free) && Represented(s) && TableOk(SizesOf(s), s.rec, s.bp)
  }

  ghost predicate IsExact(s: TableState) {
    Exact(SizesOf(s), s.rec, s.bp)
  }

  // ----- Steps -----

  /** Take `b` from element `c`; a request that cannot be met, for which the chunk `a` of one free
      block of `wosize` words is added and then `b` taken; a request that cannot be met although
      the heap cannot grow; or what the sweeper and the mutator do. */
  datatype TableStep =
    | Take(b: Block, c: nat, hp: nat)
    | Grow(a: nat, wosize: nat, at: nat, atEnd: bool, mid: FreeState, b: Block, c: nat, hp: nat)
    | Miss(w: nat)
    | Other(step: Step)

  ghost predicate Takes(z: seq<nat>, rec: seq<nat>, bp: int, free: FreeState, b: Block, c: nat, hp: nat,
                        s': TableState) {
    && Ready(z, rec, bp, b.wosize) && Allocate(z, rec, bp, b.wosize) == Pick(c, s'.rec, s'.bp)
    && Allocates(free, b, c, hp, s'.free)
  }

  /** `caml_fl_add_blocks_r`, once the request for `w` words has failed with table `r` and
      position `q`, and then the allocation. */
  ghost predicate Grows(s: TableState, step: TableStep, r: seq<nat>, q: int, s': TableState)
    requires step.Grow?
  {
    && 1 <= step.b.wosize <= step.wosize && step.at <= |s.free.fl| && (step.atEnd ==> step.at == |s.free.fl|)
    && Extends(s.free, step.a, step.wosize, step.at, step.mid)
    && Takes(Inserted(SizesOf(s), step.at, step.wosize), GrownTable(SizesOf(s), r, step.at, step.atEnd),
             GrownBeyond(q, step.at, step.atEnd), step.mid, step.b, step.c, step.hp, s')
  }

  ghost predicate Fails(s: TableState, w: nat, r: seq<nat>, q: int) {
    Ready(SizesOf(s), s.rec, s.bp, w) && Allocate(SizesOf(s), s.rec, s.bp, w) == Fail(r, q)
  }

  /** The sweeper gives a dead block back, and the table is cut where that may change the list;
      the other steps leave the table alone. */
  ghost predicate Sweeps(s: TableState, step: Step, s': TableState) {
    && !step.Alloc? && !step.AddChunk? && Does(s.free, step, s'.free)
    && (step.Reclaim? ==>
          s'.rec == EntriesBefore(s.rec, CutAt(s.free.m)) && s'.bp == BeyondBefore(s.bp, CutAt(s.free.m)))
    && (!step.Reclaim? ==> s'.rec == s.rec && s'.bp == s.bp)
  }

  ghost predicate Moves(s: TableState, step: TableStep, s': TableState) {
    && Represented(s')
    && match step
       case Take(b, c, hp) => Takes(SizesOf(s), s.rec, s.bp, s.free, b, c, hp, s')
       case Grow(_, _, _, _, _, b, _, _) => exists r, q :: Fails(s, b.wosize, r, q) && Grows(s, step, r, q, s')
       case Miss(w) => Fails(s, w, s'.rec, s'.bp) && s'.free == s.free
       case Other(t) => Sweeps(s, t, s')
  }

  // ----- Every step keeps the invariant -----

  lemma TakeKeeps(z: seq<nat>, rec: seq<nat>, bp: int, free: FreeState, b: Block, c: nat, hp: nat, s': TableState)
    requires Inv(free) && z == Sizes(free.h, free.fl) && Takes(z, rec, bp, free, b, c, hp, s')
    ensures Inv(s'.free) && c < |z| && z[c] >= b.wosize && SizesOf(s') == Taken(z, c, b.wosize)
    ensures TableOk(SizesOf(s'), s'.rec, s'.bp) == true
  {
    AllocKeeps(free, b, c, hp, s'.free);
    SplitSizes(free.h, free.chunks, free.fl, c, b);
    AllocateKeeps(z, rec, bp, b.wosize);
  }

  lemma GrowKeeps(s: TableState, step: TableStep, r: seq<nat>, q: int, s': TableState)
    requires TableInv(s) && step.Grow? && Fails(s, step.b.wosize, r, q) && Grows(s, step, r, q, s')
    ensures Inv(s'.free) && TableOk(SizesOf(s'), s'.rec, s'.bp) == true
  {
    ExtendKeeps(s.free, step.a, step.wosize, step.at, step.mid);
    AddedSizes(s.free.h, s.free.fl, step.at, step.a, step.wosize);
    TakeKeeps(Inserted(SizesOf(s), step.at, step.wosize), GrownTable(SizesOf(s), r, step.at, step.atEnd),
              GrownBeyond(q, step.at, step.atEnd), step.mid, step.b, step.c, step.hp, s');
  }

  /** The sizes, and the table as the sweeper leaves it. */
  lemma SweepTable(s: TableState, step: Step, s': TableState)
    requires TableInv(s) && Sweeps(s, step, s')
    ensures Inv(s'.free) && TableOk(SizesOf(s'), s'.rec, s'.bp) && (IsExact(s) ==> IsExact(s'))
  {
    StepKeeps(s.free, step, s'.free);
    match step
    case Reclaim(p) =>
      ReclaimedFront(s.free, p, s'.free);
      CutKeeps(SizesOf(s), s.rec, s.bp, CutAt(s.free.m), SizesOf(s'));
    case SkipLive => SameShapeSizes(s.free.h, s.free.fl, s'.free.h);
    case Mutate => SameShapeSizes(s.free.h, s.free.fl, s'.free.h);
    case _ =>
  }

  lemma MoveKeeps(s: TableState, step: TableStep, s': TableState)
    requires TableInv(s) && Moves(s, step, s')
    ensures TableInv(s')
  {
    match step
    case Take(b, c, hp) => TakeKeeps(SizesOf(s), s.rec, s.bp, s.free, b, c, hp, s');
    case Grow(_, _, _, _, _, b, _, _) =>
      var r, q :| Fails(s, b.wosize, r, q) && Grows(s, step, r, q, s');
      GrowKeeps(s, step, r, q, s');
    case Miss(w) => AllocateKeeps(SizesOf(s), s.rec, s.bp, w);
    case Other(t) => SweepTable(s, t, s');
  }

  // ----- When a step keeps the table exact -----

  /** The condition, on the state before the step. */
  ghost predicate KeepsExact(s: TableState, step: TableStep) {
    step.Take? && Ready(SizesOf(s), s.rec, s.bp, step.b.wosize) ==>
      StaysExact(SizesOf(s), s.rec, s.bp, step.b.wosize)
  }

  lemma GrowExact(s: TableState, step: TableStep, r: seq<nat>, q: int, s': TableState)
    requires TableInv(s) && IsExact(s) && step.Grow? && Fails(s, step.b.wosize, r, q) && Grows(s, step, r, q, s')
    ensures IsExact(s')
    ensures FirstFit(Sizes(step.mid.h, step.mid.fl), step.b.wosize, step.c) && NoFit(SizesOf(s), step.b.wosize)
  {
    var z, w := SizesOf(s), step.b.wosize;
    AllocateKeeps(z, s.rec, s.bp, w);
    AllocateExact(z, s.rec, s.bp, w);
    AllocateIsFirst(z, s.rec, s.bp, w);
    GrownReady(z, r, q, w, step.at, step.atEnd, step.wosize);
    ExtendKeeps(s.free, step.a, step.wosize, step.at, step.mid);
    AddedSizes(s.free.h, s.free.fl, step.at, step.a, step.wosize);
    var z', r', q' := Inserted(z, step.at, step.wosize), GrownTable(z, r, step.at, step.atEnd),
                      GrownBeyond(q, step.at, step.atEnd);
    AllocateExact(z', r', q', w);
    AllocateIsFirst(z', r', q', w);
    TakeKeeps(z', r', q', step.mid, step.b, step.c, step.hp, s');
  }

  /** An exact table is exact after a step if and only if the condition holds. */
  lemma MoveExact(s: TableState, step: TableStep, s': TableState)
    requires TableInv(s) && IsExact(s) && Moves(s, step, s')
    ensures IsExact(s') <==> KeepsExact(s, step)
  {
    match step
    case Take(b, c, hp) =>
      AllocateExact(SizesOf(s), s.rec, s.bp, b.wosize);
      TakeKeeps(SizesOf(s), s.rec, s.bp, s.free, b, c, hp, s');
    case Grow(_, _, _, _, _, b, _, _) =>
      var r, q :| Fails(s, b.wosize, r, q) && Grows(s, step, r, q, s');
      GrowExact(s, step, r, q, s');
    case Miss(w) => AllocateExact(SizesOf(s), s.rec, s.bp, w);
    case Other(t) => SweepTable(s, t, s');
  }

  // ----- Runs -----

  ghost predicate IsTableRun(states: seq<TableState>, steps: seq<TableStep>) {
    && |states| == |steps| + 1 && TableInv(states[0]) && IsExact(states[0])
    && forall i :: 0 <= i < |steps| ==> Moves(states[i], steps[i], states[i + 1])
  }

  lemma {:induction false} RunTables(states: seq<TableState>, steps: seq<TableStep>, k: nat)
    requires IsTableRun(states, steps) && k < |states|
    ensures TableInv(states[k])
  {
    if k > 0 {
      RunTables(states, steps, k - 1);
      assert Moves(states[k - 1], steps[k - 1], states[k - 1 + 1]);
      MoveKeeps(states[k - 1], steps[k - 1], states[k]);
    }
  }

  lemma {:induction false} RunExact(states: seq<TableState>, steps: seq<TableStep>, k: nat)
    requires IsTableRun(states, steps) && k < |states| && forall i :: 0 <= i < k ==> KeepsExact(states[i], steps[i])
    ensures TableInv(states[k]) && IsExact(states[k])
  {
    if k > 0 {
      RunExact(states, steps, k - 1);
      assert Moves(states[k - 1], steps[k - 1], states[k - 1 + 1]);
      MoveKeeps(states[k - 1], steps[k - 1], states[k]);
      MoveExact(states[k - 1], steps[k - 1], states[k]);
    }
  }

  /** Block `x` comes first: it is free and large enough, and no free block before it is. */
  ghost predicate Lowest(free: FreeState, w: nat, x: nat) {
    && IsFree(free.h, x) && free.h[x].wosize >= w
    && forall y {:trigger IsFree(free.h, y)} :: IsFree(free.h, y) && free.h[y].wosize >= w ==> x <= y
  }

  ghost predicate NoneFits(free: FreeState, w: nat) {
    forall y {:trigger IsFree(free.h, y)} :: IsFree(free.h, y) ==> free.h[y].wosize < w
  }

  lemma FirstIsLowest(free: FreeState, w: nat, c: nat)
    requires Inv(free) && FirstFit(Sizes(free.h, free.fl), w, c)
    ensures Lowest(free, w, free.fl[c])
  {
    ListedSize(free.h, free.fl, c);
    forall y | IsFree(free.h, y) && free.h[y].wosize >= w ensures free.fl[c] <= y {
      var i := ListedIndex(free.h, free.fl, y);
      ListedSize(free.h, free.fl, i);
      SortedIndex(free.fl, c, i);
    }
  }

  lemma NoFitIsNone(free: FreeState, w: nat)
    requires Inv(free) && NoFit(Sizes(free.h, free.fl), w)
    ensures NoneFits(free, w)
  {
    forall y | IsFree(free.h, y) ensures free.h[y].wosize < w {
      var i := ListedIndex(free.h, free.fl, y);
      ListedSize(free.h, free.fl, i);
    }
  }

  /** What a step takes, by first fit. */
  ghost predicate ByFirstFit(s: TableState, step: TableStep) {
    match step
    case Take(b, c, _) => c < |s.free.fl| && Lowest(s.free, b.wosize, s.free.fl[c])
    case Grow(_, _, _, _, mid, b, c, _) =>
      NoneFits(s.free, b.wosize) && c < |mid.fl| && Lowest(mid, b.wosize, mid.fl[c])
    case Miss(w) => NoneFits(s.free, w)
    case Other(_) => true
  }

  lemma ExactFirstFit(s: TableState, step: TableStep, s': TableState)
    requires TableInv(s) && IsExact(s) && Moves(s, step, s')
    ensures ByFirstFit(s, step)
  {
    match step
    case Take(b, c, hp) =>
      AllocateIsFirst(SizesOf(s), s.rec, s.bp, b.wosize);
      FirstIsLowest(s.free, b.wosize, c);
    case Grow(a, wosize, at, _, mid, b, c, _) =>
      var r, q :| Fails(s, b.wosize, r, q) && Grows(s, step, r, q, s');
      GrowExact(s, step, r, q, s');
      ExtendKeeps(s.free, a, wosize, at, mid);
      NoFitIsNone(s.free, b.wosize);
      FirstIsLowest(mid, b.wosize, c);
    case Miss(w) =>
      AllocateIsFirst(SizesOf(s), s.rec, s.bp, w);
      NoFitIsNone(s.free, w);
    case Other(_) =>
  }

  /** In every run in which no step before has left a table that is not exact, an allocation
      takes the free block with the lowest address among those that are large enough, and the
      heap is extended only when there is none. */
  lemma FirstFitInRuns(states: seq<TableState>, steps: seq<TableStep>, k: nat)
    requires IsTableRun(states, steps) && k < |steps| && forall i :: 0 <= i < k ==> KeepsExact(states[i], steps[i])
    ensures ByFirstFit(states[k], steps[k])
  {
    RunExact(states, steps, k);
    assert Moves(states[k], steps[k], states[k + 1]);
    ExactFirstFit(states[k], steps[k], states[k + 1]);
  }

  lemma FewBlocks(s: TableState, step: TableStep)
    requires TableInv(s) && IsExact(s) && |s.free.fl| <= FLP_MAX
    ensures KeepsExact(s, step)
  {
    if step.Take? && Ready(SizesOf(s), s.rec, s.bp, step.b.wosize) {
      FewBlocksExact(SizesOf(s), s.rec, s.bp, step.b.wosize);
    }
  }

  lemma {:induction false} FewBlocksKeep(states: seq<TableState>, steps: seq<TableStep>, k: nat)
    requires IsTableRun(states, steps) && k < |states| && forall i :: 0 <= i < k ==> |states[i].free.fl| <= FLP_MAX
    ensures TableInv(states[k]) && IsExact(states[k])
    ensures forall i :: 0 <= i < k ==> KeepsExact(states[i], steps[i])
  {
    if k > 0 {
      FewBlocksKeep(states, steps, k - 1);
      FewBlocks(states[k - 1], steps[k - 1]);
      RunExact(states, steps, k);
    }
  }

  /** In particular this is so in every run in which there have never been more free blocks than
      the table has room for; and then no buffer overflows. */
  lemma FirstFitWithFewBlocks(states: seq<TableState>, steps: seq<TableStep>, k: nat, w: nat)
    requires IsTableRun(states, steps) && k < |steps| && forall i :: 0 <= i <= k ==> |states[i].free.fl| <= FLP_MAX
    ensures ByFirstFit(states[k], steps[k])
    ensures w >= 1 ==> var s := states[k];
                       Ready(SizesOf(s), s.rec, s.bp, w) && !Allocate(SizesOf(s), s.rec, s.bp, w).Overrun?
  {
    FewBlocksKeep(states, steps, k);
    FirstFitInRuns(states, steps, k);
    if w >= 1 {
      FewBlocksExact(SizesOf(states[k]), states[k].rec, states[k].bp, w);
    }
  }
}
