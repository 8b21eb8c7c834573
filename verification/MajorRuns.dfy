/**
 Runs of the incremental collector: every interleaving of mutator steps with mark
 and sweep steps is safe, marking follows forwarding blocks and changes no block
 otherwise, and marking terminates.
 */
module MajorRuns {
  import opened Mlvalues
  import opened Blocks
  import opened Tricolor
  import opened MajorGc
  import opened MajorInv
  import opened MajorSafety
  import opened MajorMutator

  // ----- Steps and runs -----

  datatype Action =
    | BeginCycle(outs: nat -> Outcome)
    | MarkOne(outs: nat -> Outcome)
    | SweepOne(prev: Prev)
    | Allocate(a: nat, wosize: nat, tag: nat)
    | SetNew(x: nat, i: nat, val: Value)
    | Assign(x: nat, i: nat, val: Value, out: Outcome)
    | UseRoots(roots: seq<Value>)
    | AddChunk(chunk: Chunk)

  /** The collector may take any step of its current phase; the mutator works on
      what it can reach. */
  ghost predicate Enabled(s: Gc, act: Action) {
    match act
    case BeginCycle(_) => s.phase == Idle && StackOk(s.stack)
    case MarkOne(_) => s.phase == Mark && CanMark(s)
    case SweepOne(prev) => s.phase == Sweep && CanSweep(s, prev)
    case Allocate(a, wosize, tag) => CanSplit(s.heap, a, wosize)
    case SetNew(x, i, val) => CanStore(s, x, i, val) && !HeapBlock(s.heap, s.area, s.heap[x].fields[i])
    case Assign(x, i, val, _) => CanStore(s, x, i, val) && StackOk(s.stack)
    case UseRoots(roots) => forall i :: 0 <= i < |roots| ==> Usable(s, roots[i])
    case AddChunk(chunk) => FreshChunk(s, chunk)
  }

  ghost predicate CanMark(s: Gc) {
    |s.area.chunks| > 0 && StackOk(s.stack) && forall i :: 0 <= i < |s.stack.vals| ==> s.stack.vals[i] in s.heap
  }

  ghost predicate CanSweep(s: Gc, prev: Prev) {
    && s.sweep.Cursor? && (s.sweep.hp < s.sweep.limit ==> s.sweep.hp in s.heap)
    && (SweepMerges(s) && prev.Prev? ==> JoinsPrev(s.heap, s.sweep.hp, s.frag, prev.hp))
  }

  ghost predicate CanStore(s: Gc, x: nat, i: nat, val: Value) {
    Reach(s, x) && x in s.heap && i < |s.heap[x].fields| && s.heap[x].tag < NO_SCAN_TAG && Usable(s, val)
  }

  ghost function Apply(s: Gc, act: Action): Gc
    requires Enabled(s, act)
  {
    match act
    case BeginCycle(outs) => StartCycle(s, outs)
    case MarkOne(outs) => MarkStep(s, outs)
    case SweepOne(prev) => SweepStep(s, prev)
    case Allocate(a, wosize, tag) => AllocShr(s, a, wosize, tag)
    case SetNew(x, i, val) => Initialize(s, x, i, val)
    case Assign(x, i, val, out) => Modify(s, x, i, val, out)
    case UseRoots(roots) => s.(roots := roots)
    case AddChunk(chunk) => ExpandHeap(s, chunk)
  }

  ghost predicate Step(s: Gc, act: Action, s': Gc) {
    Enabled(s, act) && s' == Apply(s, act)
  }

  ghost predicate IsRun(states: seq<Gc>, acts: seq<Action>) {
    |states| == |acts| + 1 && forall i :: 0 <= i < |acts| ==> Step(states[i], acts[i], states[i + 1])
  }

  lemma StepKeepsInv(s: Gc, act: Action)
    requires Inv(s) && Enabled(s, act)
    ensures Inv(Apply(s, act))
  {
    match act
    case BeginCycle(outs) => StartCycleOk(s, outs);
    case MarkOne(outs) => MarkStepOk(s, outs);
    case SweepOne(prev) => SweepStepOk(s, prev);
    case Allocate(a, wosize, tag) => AllocShrOk(s, a, wosize, tag);
    case SetNew(x, i, val) => InitializeOk(s, x, i, val);
    case Assign(x, i, val, out) => ModifyOk(s, x, i, val, out);
    case UseRoots(roots) => SetRootsOk(s, roots);
    case AddChunk(chunk) => ExpandHeapOk(s, chunk);
  }

  /** Safety over whole runs: the invariant holds throughout, and a block that is
      given to `caml_fl_merge_block_r` is not reachable from the roots. */
  lemma {:induction false} IncrementalSafety(states: seq<Gc>, acts: seq<Action>, i: nat)
    requires IsRun(states, acts) && Inv(states[0]) && i < |states|
    ensures Inv(states[i])
    ensures SweepMerges(states[i]) ==> !Reach(states[i], states[i].sweep.hp)
  {
    if i > 0 {
      IncrementalSafety(states, acts, i - 1);
      assert Step(states[i - 1], acts[i - 1], states[i]);
      StepKeepsInv(states[i - 1], acts[i - 1]);
    }
    if SweepMerges(states[i]) {
      MergedIsUnreachable(states[i]);
    }
  }

  /** The state that `caml_init_major_heap_r` sets up satisfies the invariant. */
  lemma InitialInv(chunk: Chunk, statics: map<nat, nat>, roots: seq<Value>, size: nat)
    requires chunk.size > 0 && size >= 2 && OffFields(roots, chunk)
    ensures Inv(Gc(map[chunk.start := Block(chunk.size - 1, 0, Blue, [])], Stack([], size, true),
            Area([chunk], statics),
                   roots, Idle, Main, NoCursor, NoCursor, -1))
  {
    var h: Heap := map[chunk.start := Block(chunk.size - 1, 0, Blue, [])];
    assert FitsIn(h, [chunk], 0, chunk.start);
    forall i | 0 <= i < |roots| ensures roots[i].Ptr? ==> !InHeap([chunk], roots[i].hp) {
      assert OffVal(roots[i], chunk);
    }
  }

  /** The collector never gets stuck. */
  lemma CollectorProgress(s: Gc, outs: nat -> Outcome)
    requires Inv(s)
    ensures Enabled(s, match s.phase
                       case Idle => BeginCycle(outs) case Mark => MarkOne(outs) case Sweep => SweepOne(NoPrev))
  {
    if s.phase == Sweep {
      var e :| CursorIn(s.heap, s.area.chunks, s.sweep, e);
    }
  }

  /** When sweeping starts no block is gray, and black blocks point to black ones. */
  lemma NoBlackToWhite(s: Gc, outs: nat -> Outcome, x: nat, c: nat)
    requires Inv(s) && Enabled(s, MarkOne(outs)) && MarkStep(s, outs).phase == Sweep
    ensures !IsColor(s.heap, x, Gray)
    ensures IsColor(s.heap, x, Black) && Edge(s.heap, x, c) ==> IsColor(s.heap, c, Black)
    ensures Reach(s, x) ==> IsColor(s.heap, x, Black)
  {
    NoGrayLeft(s, x);
    ClosedIsHeapOk(s);
    if IsColor(s.heap, x, Black) && Edge(s.heap, x, c) {
      assert SafeFields(s.heap, s.area, x) && Used(s.heap, x) && GoodFields(s.heap, s.area, x);
      var i: nat :| PointsTo(s.heap[x].fields, i, c);
      BlockInHeap(s.heap, s.area.chunks, c);
      MarkedValIsBlack(s, s.heap[x].fields[i]);
    }
    if Reach(s, x) {
      ReachIsLive(s, x);
      BlockInHeap(s.heap, s.area.chunks, x);
      MarkedValIsBlack(s, Ptr(x, 0));
    }
  }

  // ----- What the steps do to reachable blocks -----

  ghost predicate ForwardLink(h: Heap, area: Area, u: Value, w: Value) {
    && HeapBlock(h, area, u) && u.ofs == 0 && h[u.hp].tag == FORWARD_TAG
    && |h[u.hp].fields| > 0 && w == h[u.hp].fields[0]
  }

  ghost predicate ForwardChain(h: Heap, area: Area, p: seq<Value>) {
    |p| > 0 && forall k :: 0 <= k < |p| - 1 ==> ForwardLink(h, area, p[k], p[k + 1])
  }

  /** `w` is what `u` stands for: itself, or the target of its forwarding blocks,
      if that need not stay behind them. */
  ghost predicate Follows(h: Heap, area: Area, u: Value, w: Value) {
    && (u == w || !KeepsForward(h, area, w))
    && exists p :: ForwardChain(h, area, p) && p[0] == u && p[|p| - 1] == w
  }

  lemma FollowsRefl(h: Heap, area: Area, u: Value)
    ensures Follows(h, area, u, u)
  {
    assert ForwardChain(h, area, [u]);
  }

  lemma FollowsLink(h: Heap, area: Area, u: Value, v: Value, w: Value)
    requires ForwardLink(h, area, u, v) && Follows(h, area, v, w) && !KeepsForward(h, area, w)
    ensures Follows(h, area, u, w)
  {
    var p :| ForwardChain(h, area, p) && p[0] == v && p[|p| - 1] == w;
    var q := [u] + p;
    forall k | 0 <= k < |q| - 1 ensures ForwardLink(h, area, q[k], q[k + 1]) {
      assert k > 0 ==> q[k] == p[k - 1] && q[k + 1] == p[k];
    }
    assert ForwardChain(h, area, q) && q[|q| - 1] == w;
  }

  /** Same blocks with the same tags. */
  ghost predicate SameTags(h: Heap, h': Heap) {
    (forall a :: a in h <==> a in h') && forall a :: a in h ==> h'[a].wosize == h[a].wosize && h'[a].tag == h[a].tag
  }

  /** Nothing but colours and the fields of `v` differs. */
  ghost predicate OnlyFieldsOf(h: Heap, h': Heap, v: nat) {
    SameTags(h, h') && forall x :: x in h && x != v ==> h'[x].fields == h[x].fields
  }

  lemma OnlyFieldsTrans(h: Heap, h1: Heap, h2: Heap, v: nat)
    requires OnlyFieldsOf(h, h1, v) && OnlyFieldsOf(h1, h2, v)
    ensures OnlyFieldsOf(h, h2, v)
  {
  }

  lemma SameTagsKeeps(h: Heap, h': Heap, area: Area, v: Value)
    requires SameTags(h, h')
    ensures KeepsForward(h', area, v) == KeepsForward(h, area, v)
  {
    if v.Ptr? {
      assert TagOf(h, area, v) == TagOf(h', area, v);
    }
  }

  /** The fields of `v` after its first `n` children are marked. */
  ghost predicate FieldsFollow(h: Heap, area: Area, before: seq<Value>, after: seq<Value>, n: nat) {
    && |after| == |before|
    && (forall i :: n <= i < |before| ==> after[i] == before[i])
    && (forall i :: 0 <= i < n && i < |before| ==> Follows(h, area, before[i], after[i]))
  }

  lemma MarkedFieldFollows(h: Heap, area: Area, h1: Heap, v: nat, n: nat)
    requires v in h && OnlyFieldsOf(h, h1, v) && FieldsFollow(h, area, h[v].fields, h1[v].fields, n)
             && n < |h[v].fields|
    ensures Follows(h, area, h[v].fields[n], MarkedField(h1, area, h[v].fields[n]))
  {
    var child := h[v].fields[n];
    FollowsRefl(h, area, child);
    if Shortcut(h1, area, child) {
      var w, w0 := h1[child.hp].fields[0], h[child.hp].fields[0];
      SameTagsKeeps(h, h1, area, w);
      FollowsRefl(h, area, w0);
      assert Follows(h, area, w0, w);
      FollowsLink(h, area, child, w0, w);
    }
  }

  /** The only field that marking a child changes. */
  lemma MarkChildField(m: Marker, area: Area, v: nat, i: nat, out: Outcome)
    requires v in m.heap && i < |m.heap[v].fields| && StackOk(m.stack)
    ensures var h' := MarkChild(m, area, v, i, out).heap;
            && OnlyFieldsOf(m.heap, h', v)
            && h'[v].fields == m.heap[v].fields[i := MarkedField(m.heap, area, m.heap[v].fields[i])]
  {
  }

  lemma FieldsFollowStep(h: Heap, area: Area, h1: Heap, v: nat, n: nat)
    requires v in h && OnlyFieldsOf(h, h1, v) && FieldsFollow(h, area, h[v].fields, h1[v].fields, n)
             && n < |h[v].fields|
    ensures h1[v].fields[n] == h[v].fields[n]
    ensures FieldsFollow(h, area, h[v].fields, h1[v].fields[n := MarkedField(h1, area, h[v].fields[n])], n + 1)
  {
    MarkedFieldFollows(h, area, h1, v, n);
  }

  /** `h'` is the heap when the first `n` children of `v` are marked. */
  ghost predicate MarkedUpTo(h: Heap, h': Heap, area: Area, v: nat, n: nat) {
    v in h && OnlyFieldsOf(h, h', v) && FieldsFollow(h, area, h[v].fields, h'[v].fields, n)
  }

  lemma MarkChildFollows(h: Heap, m: Marker, area: Area, v: nat, n: nat, out: Outcome)
    requires MarkedUpTo(h, m.heap, area, v, n) && n < |h[v].fields| && StackOk(m.stack)
    ensures MarkedUpTo(h, MarkChild(m, area, v, n, out).heap, area, v, n + 1)
  {
    MarkChildField(m, area, v, n, out);
    OnlyFieldsTrans(h, m.heap, MarkChild(m, area, v, n, out).heap, v);
    FieldsFollowStep(h, area, m.heap, v, n);
  }

  lemma {:induction false} MarkFieldsFollow(m: Marker, area: Area, v: nat, n: nat, outs: nat -> Outcome)
    requires v in m.heap && n <= |m.heap[v].fields| && StackOk(m.stack)
    ensures MarkedUpTo(m.heap, MarkFields(m, area, v, n, outs).heap, area, v, n) == true
  {
    if n > 0 {
      MarkFieldsFollow(m, area, v, n - 1, outs);
      MarkChildFollows(m.heap, MarkFields(m, area, v, n - 1, outs), area, v, n - 1, outs(n - 1));
    }
  }

  lemma SameFollows(h: Heap, area: Area, fields: seq<Value>)
    ensures FieldsFollow(h, area, fields, fields, |fields|)
  {
    forall i | 0 <= i < |fields| ensures Follows(h, area, fields[i], fields[i]) {
      FollowsRefl(h, area, fields[i]);
    }
  }

  lemma MarkBlockFollows(m: Marker, area: Area, outs: nat -> Outcome)
    requires |m.stack.vals| > 0 && m.stack.vals[|m.stack.vals| - 1] in m.heap && StackOk(m.stack)
    ensures var v := m.stack.vals[|m.stack.vals| - 1];
            MarkedUpTo(m.heap, MarkBlock(m, area, outs).heap, area, v, |m.heap[v].fields|)
  {
    var n := |m.stack.vals| - 1;
    var v := m.stack.vals[n];
    SameFollows(m.heap, area, m.heap[v].fields);
    if m.heap[v].tag < NO_SCAN_TAG {
      MarkFieldsFollow(m.(stack := m.stack.(vals := m.stack.vals[..n])), area, v, |m.heap[v].fields|, outs);
    }
  }

  /** Marking keeps all blocks, and their fields up to forwarding. */
  lemma MarkKeepsFields(s: Gc, outs: nat -> Outcome, x: nat)
    requires Inv(s) && s.phase == Mark && x in s.heap
    ensures var h' := MarkStep(s, outs).heap;
            && SameTags(s.heap, h')
            && FieldsFollow(s.heap, s.area, s.heap[x].fields, h'[x].fields, |s.heap[x].fields|)
  {
    SameFollows(s.heap, s.area, s.heap[x].fields);
    if |s.stack.vals| > 0 {
      MarkBlockFollows(Marker(s.heap, s.stack), s.area, outs);
    }
  }

  /** Sweeping keeps every reachable block whole. */
  lemma SweepKeepsReachable(s: Gc, prev: Prev, x: nat)
    requires Inv(s) && Enabled(s, SweepOne(prev)) && Reach(s, x)
    ensures Survives(s, SweepStep(s, prev), x)
  {
    ReachIsLive(s, x);
    if s.sweep.hp < s.sweep.limit {
      if s.heap[s.sweep.hp].color == White {
        SweepMergeLive(s, prev, x);
      } else {
        assert s.sweep.hp < x ==> Before(s.heap, s.sweep.hp, x);
      }
    } else {
      var e :| CursorIn(s.heap, s.area.chunks, s.sweep, e);
    }
  }

  ghost predicate SameShape(s: Gc, s': Gc, x: nat) {
    x in s.heap && Used(s'.heap, x) && s'.heap[x].wosize == s.heap[x].wosize && s'.heap[x].tag == s.heap[x].tag
  }

  /** Whatever the step, reachable blocks stay in place with their size and tag. */
  lemma StepKeepsReachable(s: Gc, act: Action, x: nat)
    requires Inv(s) && Enabled(s, act) && Reach(s, x)
    ensures SameShape(s, Apply(s, act), x)
  {
    ReachIsLive(s, x);
    match act
    case BeginCycle(outs) => DarkenRootsTags(Marker(s.heap, s.stack), s.area, s.roots, |s.roots|, outs);
    case MarkOne(outs) => MarkKeepsShape(s, outs, x);
    case SweepOne(prev) => SweepKeepsReachable(s, prev, x);
    case Allocate(a, wosize, tag) => AllocOld(s, a, wosize, tag, x);
    case AddChunk(chunk) => ExpandUsed(s, chunk, x);
    case SetNew(_, _, _) =>
    case Assign(y, i, val, out) => ModifyKeepsShape(s, y, i, val, out, x);
    case UseRoots(_) =>
  }

  lemma ModifyKeepsShape(s: Gc, y: nat, i: nat, val: Value, out: Outcome, x: nat)
    requires y in s.heap && i < |s.heap[y].fields| && StackOk(s.stack) && Used(s.heap, x)
    ensures SameShape(s, Modify(s, y, i, val, out), x)
  {
  }

  lemma {:induction false} DarkenRootsTags(m: Marker, area: Area, roots: seq<Value>, n: nat, outs: nat -> Outcome)
    requires n <= |roots| && StackOk(m.stack)
    ensures var h' := DarkenRoots(m, area, roots, n, outs).heap;
            SameButColors(m.heap, h') && forall x :: Used(m.heap, x) ==> Used(h', x)
  {
    if n > 0 {
      DarkenRootsTags(m, area, roots, n - 1, outs);
    }
  }

  lemma MarkKeepsShape(s: Gc, outs: nat -> Outcome, x: nat)
    requires Inv(s) && s.phase == Mark && Used(s.heap, x)
    ensures SameShape(s, MarkStep(s, outs), x)
  {
    MarkKeepsFields(s, outs, x);
    if |s.stack.vals| > 0 {
      ClosedIsHeapOk(s);
      MarkBlockOk(Marker(s.heap, s.stack), s.area, s.markhp, outs);
    }
  }
}
