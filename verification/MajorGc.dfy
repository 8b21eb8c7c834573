/**
 The incremental mark-and-sweep collector (byterun/major_gc.c) with its bounded
 gray stack, and the mutator's side of it: allocation, initialization and the
 `Modify` write barrier (byterun/memory.c, byterun/memory.h).

 A state is a value; each step of the collector or the mutator is a function on
 states.  The slices that loop over these steps are in MajorSlices.dfy.
 */
module MajorGc {
  import opened Mlvalues
  import opened Blocks

  datatype Phase = Idle | Mark | Sweep

  datatype Subphase = Main | Weak1 | Weak2 | Final

  /** A position in a chunk (`markhp` or `caml_gc_sweep_hp`) and its limit. */
  datatype Cursor = NoCursor | Cursor(hp: nat, limit: nat)

  /** `gray_vals` up to `gray_vals_cur`, `gray_vals_size` and `heap_is_pure`. */
  datatype Stack = Stack(vals: seq<nat>, size: nat, pure: bool)

  /** Where addresses lie: the chunks of the major heap, and the tags of the
      static data blocks. */
  datatype Area = Area(chunks: seq<Chunk>, statics: map<nat, nat>)

  /** `roots` are the values the mutator can use directly, the fields of young
      blocks included. */
  datatype Gc = Gc(heap: Heap, stack: Stack, area: Area, roots: seq<Value>,
                   phase: Phase, sub: Subphase, markhp: Cursor, sweep: Cursor, frag: int)

  /** The part of the state that darkening changes. */
  datatype Marker = Marker(heap: Heap, stack: Stack)

  // ----- The gray stack -----

  /** The ways out of a full gray stack in `realloc_gray_vals_r`: `realloc`
      succeeds, `realloc` fails, or the stack is large enough already. */
  datatype Outcome = Grow | NoRoom | LargeEnough

  predicate StackOk(g: Stack) {
    |g.vals| < g.size && g.size >= 2
  }

  /** Grow the full stack, or drop entries and note that the heap is not pure. */
  function Overflow(g: Stack, out: Outcome): Stack
    requires |g.vals| == g.size
  {
    match out
    case Grow => g.(size := 2 * g.size)
    case NoRoom => g.(vals := [], pure := false)
    case LargeEnough => g.(vals := g.vals[..g.size / 2], pure := false)
  }

  function Push(g: Stack, a: nat, out: Outcome): (g': Stack)
    requires StackOk(g)
    ensures StackOk(g')
    ensures g'.pure ==> g.pure && g'.vals == g.vals + [a]
    ensures g'.vals <= g.vals + [a]
  {
    var g1 := g.(vals := g.vals + [a]);
    if |g1.vals| >= g1.size then Overflow(g1, out) else g1
  }

  function Recolor(h: Heap, a: nat, color: Color): Heap
    requires a in h
  {
    h[a := h[a].(color := color)]
  }

  function Store(h: Heap, a: nat, i: nat, v: Value): Heap
    requires a in h && i < |h[a].fields|
  {
    h[a := h[a].(fields := h[a].fields[i := v])]
  }

  /** The value is a block of the major heap. */
  predicate HeapBlock(h: Heap, area: Area, v: Value) {
    v.Ptr? && InHeap(area.chunks, v.hp) && v.hp in h
  }

  /** `caml_darken_r`. */
  function Darken(m: Marker, area: Area, v: Value, out: Outcome): (m': Marker)
    requires StackOk(m.stack)
    ensures StackOk(m'.stack)
  {
    if HeapBlock(m.heap, area, v) && m.heap[v.hp].color == White then
      if m.heap[v.hp].tag < NO_SCAN_TAG then Marker(Recolor(m.heap, v.hp, Gray), Push(m.stack, v.hp, out))
      else Marker(Recolor(m.heap, v.hp, Black), m.stack)
    else m
  }

  // ----- Marking -----

  function TagOf(h: Heap, area: Area, v: Value): nat
    requires v.Ptr?
  {
    if v.ofs > 0 then INFIX_TAG
    else if v.hp in h then h[v.hp].tag
    else if v.hp in area.statics then area.statics[v.hp]
    else 0
  }

  predicate InValueArea(h: Heap, area: Area, v: Value)
    requires v.Ptr?
  {
    v.hp in h || v.hp in area.statics
  }

  /** A forwarded value that must stay behind its forwarding block. */
  predicate KeepsForward(h: Heap, area: Area, f: Value) {
    f.Ptr? && (!InValueArea(h, area, f) || TagOf(h, area, f) in {FORWARD_TAG, LAZY_TAG, DOUBLE_TAG})
  }

  predicate Shortcut(h: Heap, area: Area, child: Value) {
    && HeapBlock(h, area, child) && child.ofs == 0 && h[child.hp].tag == FORWARD_TAG
    && |h[child.hp].fields| > 0 && !KeepsForward(h, area, h[child.hp].fields[0])
  }

  /** What field `i` of `v` holds after it has been marked. */
  function MarkedField(h: Heap, area: Area, child: Value): Value {
    if Shortcut(h, area, child) then h[child.hp].fields[0] else child
  }

  /** The marking of field `i` of block `v`: short-circuit a forwarding block, and
      darken the child whatever its tag. */
  function MarkChild(m: Marker, area: Area, v: nat, i: nat, out: Outcome): (m': Marker)
    requires v in m.heap && i < |m.heap[v].fields| && StackOk(m.stack)
    ensures v in m'.heap && |m'.heap[v].fields| == |m.heap[v].fields| && StackOk(m'.stack)
  {
    var child := m.heap[v].fields[i];
    if !HeapBlock(m.heap, area, child) then m
    else
      var h := Store(m.heap, v, i, MarkedField(m.heap, area, child));
      if h[child.hp].color == White then Marker(Recolor(h, child.hp, Gray), Push(m.stack, child.hp, out))
      else Marker(h, m.stack)
  }

  /** The first `n` fields of `v`; `outs` are the outcomes of stack overflows. */
  function MarkFields(m: Marker, area: Area, v: nat, n: nat, outs: nat -> Outcome): (m': Marker)
    requires v in m.heap && n <= |m.heap[v].fields| && StackOk(m.stack)
    ensures v in m'.heap && |m'.heap[v].fields| == |m.heap[v].fields| && StackOk(m'.stack)
  {
    if n == 0 then m
    else MarkChild(MarkFields(m, area, v, n - 1, outs), area, v, n - 1, outs(n - 1))
  }

  /** Pop a gray block, mark its children and blacken it. */
  function MarkBlock(m: Marker, area: Area, outs: nat -> Outcome): Marker
    requires |m.stack.vals| > 0 && m.stack.vals[|m.stack.vals| - 1] in m.heap && StackOk(m.stack)
  {
    var n := |m.stack.vals| - 1;
    var v := m.stack.vals[n];
    var m1 := m.(stack := m.stack.(vals := m.stack.vals[..n]));
    var m2 := if m.heap[v].tag < NO_SCAN_TAG then MarkFields(m1, area, v, |m.heap[v].fields|, outs) else m1;
    m2.(heap := Recolor(m2.heap, v, Black))
  }

  /** The first chunk at or above address `a`, or the number of chunks. */
  function NextChunk(chunks: seq<Chunk>, a: nat, c: nat): (r: nat)
    requires c <= |chunks|
    ensures c <= r <= |chunks|
    ensures r < |chunks| ==> chunks[r].start >= a
    ensures forall d :: c <= d < r ==> chunks[d].start < a
    decreases |chunks| - c
  {
    if c == |chunks| || chunks[c].start >= a then c else NextChunk(chunks, a, c + 1)
  }

  function ChunkCursor(chunks: seq<Chunk>, c: nat): Cursor
    requires c < |chunks|
  {
    Cursor(chunks[c].start, ChunkEnd(chunks[c]))
  }

  /** One step of the rescan for gray blocks that the stack has lost. */
  function RescanStep(s: Gc): Gc
    requires s.markhp.Cursor?
  {
    var Cursor(hp, limit) := s.markhp;
    if hp == limit then
      var c := NextChunk(s.area.chunks, limit, 0);
      s.(markhp := if c == |s.area.chunks| then NoCursor else ChunkCursor(s.area.chunks, c))
    else if hp in s.heap then
      s.(stack := if s.heap[hp].color == Gray then s.stack.(vals := s.stack.vals + [hp]) else s.stack,
         markhp := Cursor(End(s.heap, hp), limit))
    else s
  }

  function WithMarker(s: Gc, m: Marker): Gc {
    s.(heap := m.heap, stack := m.stack)
  }

  /** One iteration of the loop of `mark_slice_r`; weak arrays are not modelled. */
  function MarkStep(s: Gc, outs: nat -> Outcome): Gc
    requires |s.area.chunks| > 0 && StackOk(s.stack)
    requires forall i :: 0 <= i < |s.stack.vals| ==> s.stack.vals[i] in s.heap
  {
    if |s.stack.vals| > 0 then WithMarker(s, MarkBlock(Marker(s.heap, s.stack), s.area, outs))
    else if s.markhp.Cursor? then RescanStep(s)
    else if !s.stack.pure then s.(stack := s.stack.(pure := true), markhp := ChunkCursor(s.area.chunks, 0))
    else match s.sub
      case Main => s.(sub := Weak1)
      case Weak1 => s.(sub := Weak2)
      case Weak2 => s.(sub := Final)
      case Final => s.(phase := Sweep, sweep := ChunkCursor(s.area.chunks, 0), frag := -1)
  }

  /** Darken the first `n` roots. */
  function DarkenRoots(m: Marker, area: Area, roots: seq<Value>, n: nat, outs: nat -> Outcome): (m': Marker)
    requires n <= |roots| && StackOk(m.stack)
    ensures StackOk(m'.stack)
  {
    if n == 0 then m else Darken(DarkenRoots(m, area, roots, n - 1, outs), area, roots[n - 1], outs(n - 1))
  }

  /** `start_cycle_r`. */
  function StartCycle(s: Gc, outs: nat -> Outcome): Gc
    requires StackOk(s.stack)
  {
    WithMarker(s, DarkenRoots(Marker(s.heap, s.stack), s.area, s.roots, |s.roots|, outs))
      .(phase := Mark, sub := Main, markhp := NoCursor)
  }

  // ----- Sweeping -----

  /** One iteration of the loop of `sweep_slice_r`. */
  function SweepStep(s: Gc, prev: Prev): Gc
    requires s.phase == Sweep && s.sweep.Cursor? && (s.sweep.hp < s.sweep.limit ==> s.sweep.hp in s.heap)
    requires SweepMerges(s) && prev.Prev? ==> JoinsPrev(s.heap, s.sweep.hp, s.frag, prev.hp)
  {
    var Cursor(hp, limit) := s.sweep;
    if hp < limit then
      match s.heap[hp].color
      case White =>
        s.(heap := Merge(s.heap, hp, s.frag, prev),
           sweep := Cursor(JoinedEnd(s.heap, hp, s.frag), limit),
           frag := if StaysFragment(s.heap, hp, s.frag, prev) then hp else s.frag)
      case Blue => s.(sweep := Cursor(End(s.heap, hp), limit))
      case _ => s.(heap := Recolor(s.heap, hp, White), sweep := Cursor(End(s.heap, hp), limit))
    else
      var c := NextChunk(s.area.chunks, limit, 0);
      if c == |s.area.chunks| then s.(phase := Idle) else s.(sweep := ChunkCursor(s.area.chunks, c))
  }

  /** The next sweeping step gives a block to `caml_fl_merge_block_r`. */
  predicate SweepMerges(s: Gc) {
    && s.phase == Sweep && s.sweep.Cursor? && s.sweep.hp < s.sweep.limit
    && s.sweep.hp in s.heap && s.heap[s.sweep.hp].color == White
  }

  // ----- The mutator -----

  /** `caml_allocation_color_r`. */
  function AllocationColor(s: Gc, hp: nat): Color {
    if s.phase == Mark || (s.phase == Sweep && s.sweep.Cursor? && hp >= s.sweep.hp) then Black else White
  }

  /** `caml_alloc_shr_r` from the free block `a`, with the fields cleared as
      `caml_alloc_r` does. */
  function AllocShr(s: Gc, a: nat, wosize: nat, tag: nat): Gc
    requires CanSplit(s.heap, a, wosize)
  {
    var hp := SplitHp(s.heap, a, wosize);
    s.(heap := Split(s.heap, a, Block(wosize, tag, AllocationColor(s, hp), seq(wosize, _ => Long(0)))),
       roots := s.roots + [Ptr(hp, 0)])
  }

  /** `Modify`: the deletion barrier of the marking phase. */
  function Modify(s: Gc, x: nat, i: nat, val: Value, out: Outcome): Gc
    requires x in s.heap && i < |s.heap[x].fields| && StackOk(s.stack)
  {
    var previous := s.heap[x].fields[i];
    var s1 := s.(heap := Store(s.heap, x, i, val));
    if s.phase == Mark then WithMarker(s1, Darken(Marker(s1.heap, s1.stack), s.area, previous, out)) else s1
  }

  /** `caml_initialize_r`. */
  function Initialize(s: Gc, x: nat, i: nat, val: Value): Gc
    requires x in s.heap && i < |s.heap[x].fields|
  {
    s.(heap := Store(s.heap, x, i, val))
  }

  /** `caml_add_to_heap_r`: the chunks are chained in address order. */
  function Inserted(chunks: seq<Chunk>, chunk: Chunk): seq<Chunk> {
    var c := NextChunk(chunks, chunk.start, 0);
    chunks[..c] + [chunk] + chunks[c..]
  }

  /** A new chunk made of one free block. */
  function ExpandHeap(s: Gc, chunk: Chunk): Gc
    requires chunk.size > 0
  {
    s.(area := s.area.(chunks := Inserted(s.area.chunks, chunk)),
       heap := s.heap[chunk.start := Block(chunk.size - 1, 0, Blue, [])])
  }
}
