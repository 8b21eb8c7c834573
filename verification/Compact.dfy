/**
 Heap compaction (byterun/compact.c): pointer inversion (threading), virtual
 reallocation, reversion and sliding, over a flat memory of words.  Addresses
 count words; a root slot is a word outside the chunks.
 */
module Compact {
  import opened Mlvalues

  /** A word as the compactor sees it.  A `Pointer` is either a value (the
      address of a block's first field) or an inverted pointer (the address of a
      slot): the two are indistinguishable, as in the source. */
  datatype Word =
    | Pointer(adr: nat)
    | Encoded(ewosize: nat, etag: nat)
    | Header(wosize: nat, tag: nat, color: Color)
    | Data(bits: nat)

  /** The two low bits of a word.  A plain header shows the low bits of its tag,
      which is why headers are encoded before pointers are inverted. */
  function Ecolor(w: Word): nat {
    match w
    case Pointer(_) => 0
    case Encoded(_, _) => 3
    case Header(_, t, _) => t % 4
    case Data(b) => b % 4
  }

  /** A block of the initial heap; `free` stands for a blue header. */
  datatype Blk = Blk(hp: nat, wosize: nat, tag: nat, free: bool, chunk: nat)

  function End(b: Blk): nat { b.hp + 1 + b.wosize }

  /** The tag that the encoding pass gives to a block. */
  function EncTag(b: Blk): nat { if b.free then STRING_TAG else b.tag }

  // ----- Tiling -----

  ghost predicate Follows(chunks: seq<Chunk>, b: Blk, b': Blk)
    requires b.chunk < |chunks| && b'.chunk < |chunks|
  {
    if b'.chunk == b.chunk then b'.hp == End(b)
    else b'.chunk == b.chunk + 1 && End(b) == ChunkEnd(chunks[b.chunk]) && b'.hp == chunks[b'.chunk].start
  }

  ghost predicate Apart(chunks: seq<Chunk>, c: nat, d: nat)
    requires c < |chunks| && d < |chunks|
  {
    ChunkEnd(chunks[c]) <= chunks[d].start || ChunkEnd(chunks[d]) <= chunks[c].start
  }

  ghost predicate Adjacent(chunks: seq<Chunk>, bl: seq<Blk>, k: nat)
    requires k + 1 < |bl| && bl[k].chunk < |chunks| && bl[k + 1].chunk < |chunks|
  {
    Follows(chunks, bl[k], bl[k + 1])
  }

  /** The chunks are pairwise disjoint and each is exactly tiled by its blocks. */
  ghost predicate Tiled(chunks: seq<Chunk>, bl: seq<Blk>) {
    TiledBy(chunks, bl) == true
  }

  ghost predicate TiledBy(chunks: seq<Chunk>, bl: seq<Blk>) {
    && |chunks| > 0 && |bl| > 0
    && (forall c :: 0 <= c < |chunks| ==> chunks[c].size > 4)
    && (forall c, d {:trigger Apart(chunks, c, d)} :: 0 <= c < d < |chunks| ==> Apart(chunks, c, d))
    && (forall k :: 0 <= k < |bl| ==> bl[k].chunk < |chunks|)
    && bl[0].chunk == 0 && bl[0].hp == chunks[0].start
    && bl[|bl| - 1].chunk == |chunks| - 1 && End(bl[|bl| - 1]) == ChunkEnd(chunks[|chunks| - 1])
    && (forall k {:trigger Adjacent(chunks, bl, k)} :: 0 <= k < |bl| - 1 ==> Adjacent(chunks, bl, k))
  }

  lemma {:induction false} InChunk(chunks: seq<Chunk>, bl: seq<Blk>, k: nat)
    requires Tiled(chunks, bl) && k < |bl|
    ensures chunks[bl[k].chunk].start <= bl[k].hp
    ensures End(bl[k]) <= ChunkEnd(chunks[bl[k].chunk])
  {
    InChunkLow(chunks, bl, k);
    InChunkHigh(chunks, bl, k);
  }

  lemma {:induction false} InChunkLow(chunks: seq<Chunk>, bl: seq<Blk>, k: nat)
    requires Tiled(chunks, bl) && k < |bl|
    ensures chunks[bl[k].chunk].start <= bl[k].hp
  {
    if k > 0 {
      InChunkLow(chunks, bl, k - 1);
      assert Adjacent(chunks, bl, k - 1);
    }
  }

  lemma {:induction false} InChunkHigh(chunks: seq<Chunk>, bl: seq<Blk>, k: nat)
    requires Tiled(chunks, bl) && k < |bl|
    ensures End(bl[k]) <= ChunkEnd(chunks[bl[k].chunk])
    decreases |bl| - k
  {
    if k < |bl| - 1 {
      InChunkHigh(chunks, bl, k + 1);
      assert Adjacent(chunks, bl, k);
    }
  }

  /** Blocks come in chunk order, and in address order within a chunk. */
  lemma {:induction false} Ordered(chunks: seq<Chunk>, bl: seq<Blk>, k: nat, l: nat)
    requires Tiled(chunks, bl) && k < l < |bl|
    ensures bl[k].chunk <= bl[l].chunk
    ensures bl[k].chunk == bl[l].chunk ==> End(bl[k]) <= bl[l].hp
  {
    assert Adjacent(chunks, bl, l - 1);
    if k < l - 1 {
      Ordered(chunks, bl, k, l - 1);
    }
  }

  lemma {:induction false} Disjoint(chunks: seq<Chunk>, bl: seq<Blk>, k: nat, l: nat)
    requires Tiled(chunks, bl) && k < l < |bl|
    ensures End(bl[k]) <= bl[l].hp || End(bl[l]) <= bl[k].hp
  {
    Ordered(chunks, bl, k, l);
    InChunk(chunks, bl, k);
    InChunk(chunks, bl, l);
    if bl[k].chunk < bl[l].chunk {
      assert Apart(chunks, bl[k].chunk, bl[l].chunk);
    }
  }

  // ----- The slots that are visited, in order -----

  ghost predicate Scanned(b: Blk) { EncTag(b) < NO_SCAN_TAG }

  ghost function Range(a: nat, n: nat): (r: seq<nat>)
    ensures |r| == n && forall i :: 0 <= i < n ==> r[i] == a + i
  {
    seq(n, i requires i >= 0 => a + i)
  }

  /** The fields of the scanned blocks, in heap order. */
  ghost function FieldSlots(bl: seq<Blk>): seq<nat> {
    if bl == [] then []
    else
      var b := bl[|bl| - 1];
      FieldSlots(bl[..|bl| - 1]) + (if Scanned(b) then Range(b.hp + 1, b.wosize) else [])
  }

  ghost function Slots(roots: seq<nat>, bl: seq<Blk>): seq<nat> {
    roots + FieldSlots(bl)
  }

  lemma {:induction false} FieldSlotsPrefix(bl: seq<Blk>, k: nat)
    requires k <= |bl|
    ensures FieldSlots(bl[..k]) <= FieldSlots(bl)
    decreases |bl| - k
  {
    if k < |bl| {
      FieldSlotsPrefix(bl, k + 1);
      assert bl[..k + 1][..k] == bl[..k];
    } else {
      assert bl[..k] == bl;
    }
  }

  lemma {:induction false} FieldSlotAt(bl: seq<Blk>, k: nat, i: nat)
    requires k < |bl| && Scanned(bl[k]) && i < bl[k].wosize
    ensures |FieldSlots(bl[..k])| + i < |FieldSlots(bl)|
    ensures FieldSlots(bl)[|FieldSlots(bl[..k])| + i] == bl[k].hp + 1 + i
  {
    FieldSlotsPrefix(bl, k + 1);
    assert bl[..k + 1][..k] == bl[..k];
  }

  /** Every field slot belongs to a scanned block. */
  lemma {:induction false} FieldSlotOwner(bl: seq<Blk>, j: nat) returns (k: nat)
    requires j < |FieldSlots(bl)|
    ensures k < |bl| && Scanned(bl[k]) && bl[k].hp < FieldSlots(bl)[j] < End(bl[k])
    ensures j == |FieldSlots(bl[..k])| + (FieldSlots(bl)[j] - bl[k].hp - 1)
  {
    var n := |bl| - 1;
    if j < |FieldSlots(bl[..n])| {
      k := FieldSlotOwner(bl[..n], j);
      assert bl[..n][..k] == bl[..k];
    } else {
      k := n;
    }
  }

  /** Root slots lie outside the chunks and are visited once. */
  ghost predicate RootsOk(chunks: seq<Chunk>, roots: seq<nat>) {
    && (forall i, j :: 0 <= i < j < |roots| ==> roots[i] != roots[j])
    && (forall i :: 0 <= i < |roots| ==> !InHeap(chunks, roots[i]))
  }

  lemma {:induction false} SlotOutsideHeaders(chunks: seq<Chunk>, roots: seq<nat>, bl: seq<Blk>, j: nat, k: nat)
    requires Tiled(chunks, bl) && RootsOk(chunks, roots)
    requires j < |Slots(roots, bl)| && k < |bl|
    ensures Slots(roots, bl)[j] != bl[k].hp
  {
    InChunk(chunks, bl, k);
    if j < |roots| {
      assert InHeap(chunks, bl[k].hp);
    } else {
      var o := FieldSlotOwner(bl, j - |roots|);
      if o < k { Disjoint(chunks, bl, o, k); } else if k < o { Disjoint(chunks, bl, k, o); }
    }
  }

  lemma {:induction false} SlotsDistinct(chunks: seq<Chunk>, roots: seq<nat>, bl: seq<Blk>, i: nat, j: nat)
    requires Tiled(chunks, bl) && RootsOk(chunks, roots)
    requires i < j < |Slots(roots, bl)|
    ensures Slots(roots, bl)[i] != Slots(roots, bl)[j]
  {
    if j >= |roots| {
      var o := FieldSlotOwner(bl, j - |roots|);
      InChunk(chunks, bl, o);
      if i < |roots| {
        var c := bl[o].chunk;
        assert chunks[c].start <= Slots(roots, bl)[j] < ChunkEnd(chunks[c]);
      } else {
        var o' := FieldSlotOwner(bl, i - |roots|);
        if o < o' { Disjoint(chunks, bl, o, o'); } else if o' < o { Disjoint(chunks, bl, o', o); }
      }
    }
  }

  // ----- The compacting allocator -----

  /** `Chunk_alloc` of every chunk, and the index of `compact_fl`.  The index
      `|chunks|` plays the NULL chunk. */
  datatype Alloc = Alloc(used: seq<nat>, fl: nat)

  ghost predicate AllocOk(chunks: seq<Chunk>, st: Alloc) {
    && |st.used| == |chunks| && st.fl < |chunks|
    && forall c :: 0 <= c < |chunks| ==> st.used[c] <= chunks[c].size
  }

  function Left(chunks: seq<Chunk>, used: seq<nat>, c: nat): int
    requires c < |chunks| == |used|
  {
    chunks[c].size - used[c]
  }

  /** Where the first loop of `compact_allocate_r` stops; `|chunks|` if it reads
      the size of the chunk after the last one. */
  function SkipFull(chunks: seq<Chunk>, used: seq<nat>, fl: nat): (r: nat)
    requires fl < |chunks| == |used|
    ensures fl <= r <= |chunks|
    ensures forall d :: fl <= d < r ==> Left(chunks, used, d) <= 4
    ensures r < |chunks| ==>
              Left(chunks, used, r) > 4 || (r + 1 < |chunks| && Left(chunks, used, r + 1) > 4)
    decreases |chunks| - fl
  {
    if Left(chunks, used, fl) > 4 then fl
    else if fl + 1 == |chunks| then |chunks|
    else if Left(chunks, used, fl + 1) > 4 then fl
    else SkipFull(chunks, used, fl + 1)
  }

  /** The first chunk from `c` on with `size` words left. */
  function FirstFit(chunks: seq<Chunk>, used: seq<nat>, c: nat, size: nat): (r: nat)
    requires c <= |chunks| == |used|
    ensures c <= r <= |chunks|
    ensures forall d :: c <= d < r ==> Left(chunks, used, d) < size
    ensures r < |chunks| ==> Left(chunks, used, r) >= size
    decreases |chunks| - c
  {
    if c == |chunks| || Left(chunks, used, c) >= size then c else FirstFit(chunks, used, c + 1, size)
  }

  ghost function PlaceChunk(chunks: seq<Chunk>, st: Alloc, size: nat): (c: nat)
    requires AllocOk(chunks, st)
    ensures c <= |chunks|
  {
    FirstFit(chunks, st.used, SkipFull(chunks, st.used, st.fl), size)
  }

  ghost function Place(chunks: seq<Chunk>, st: Alloc, size: nat): (st': Alloc)
    requires AllocOk(chunks, st)
    ensures AllocOk(chunks, st')
  {
    var c := PlaceChunk(chunks, st, size);
    if c == |chunks| then st
    else Alloc(st.used[c := st.used[c] + size], SkipFull(chunks, st.used, st.fl))
  }

  ghost function PlaceIf(chunks: seq<Chunk>, st: Alloc, size: nat, live: bool): (st': Alloc)
    requires AllocOk(chunks, st)
    ensures AllocOk(chunks, st')
  {
    if live then Place(chunks, st, size) else st
  }

  /** The address that `compact_allocate_r` returns (0 if it runs past the chunks). */
  ghost function PlaceAdr(chunks: seq<Chunk>, st: Alloc, size: nat): nat
    requires AllocOk(chunks, st)
  {
    var c := PlaceChunk(chunks, st, size);
    if c < |chunks| then chunks[c].start + st.used[c] else 0
  }

  ghost function InitAlloc(chunks: seq<Chunk>): (st: Alloc)
    requires |chunks| > 0
    ensures AllocOk(chunks, st)
  {
    Alloc(seq(|chunks|, _ => 0), 0)
  }

  /** `plan[k]` is the allocator when block `k` is reached, `na[k]` the header
      address that block `k` gets if it is live. */
  ghost predicate StepOk(chunks: seq<Chunk>, bl: seq<Blk>, live: seq<bool>, plan: seq<Alloc>, na: seq<nat>, k: nat)
    requires k < |bl| == |live| == |na| == |plan| - 1
  {
    && AllocOk(chunks, plan[k])
    && plan[k + 1] == PlaceIf(chunks, plan[k], 1 + bl[k].wosize, live[k])
    && (live[k] ==> na[k] == PlaceAdr(chunks, plan[k], 1 + bl[k].wosize))
  }

  /** The run of the allocator over the live blocks, in heap order. */
  ghost predicate IsPlan(chunks: seq<Chunk>, bl: seq<Blk>, live: seq<bool>, plan: seq<Alloc>, na: seq<nat>) {
    && |bl| == |live| == |na| == |plan| - 1
    && |chunks| > 0 && plan[0] == InitAlloc(chunks)
    && forall k {:trigger StepOk(chunks, bl, live, plan, na, k)} :: 0 <= k < |bl| ==>
      StepOk(chunks, bl, live, plan, na, k)
  }

  /** Every heap has a plan. */
  lemma {:induction false} PlanExists(chunks: seq<Chunk>, bl: seq<Blk>, live: seq<bool>)
    returns (plan: seq<Alloc>, na: seq<nat>)
    requires |chunks| > 0 && |live| == |bl|
    ensures IsPlan(chunks, bl, live, plan, na) && AllocOk(chunks, plan[|bl|])
  {
    if bl == [] {
      plan, na := [InitAlloc(chunks)], [];
    } else {
      var n := |bl| - 1;
      var bl0, live0 := bl[..n], live[..n];
      var plan0, na0 := PlanExists(chunks, bl0, live0);
      plan := plan0 + [PlaceIf(chunks, plan0[n], 1 + bl[n].wosize, live[n])];
      na := na0 + [PlaceAdr(chunks, plan0[n], 1 + bl[n].wosize)];
      forall k | 0 <= k < |bl| ensures StepOk(chunks, bl, live, plan, na, k) {
        if k < n {
          PlanExtend(chunks, bl0, live0, plan0, na0, bl, live, plan, na, k);
        }
      }
    }
  }

  lemma PlanExtend(chunks: seq<Chunk>, bl0: seq<Blk>, live0: seq<bool>, plan0: seq<Alloc>, na0: seq<nat>,
                   bl: seq<Blk>, live: seq<bool>, plan: seq<Alloc>, na: seq<nat>, k: nat)
    requires IsPlan(chunks, bl0, live0, plan0, na0) && k < |bl0|
    requires |bl| == |live| == |na| == |plan| - 1 && bl0 <= bl && live0 <= live && plan0 <= plan && na0 <= na
    ensures StepOk(chunks, bl, live, plan, na, k)
  {
    assert StepOk(chunks, bl0, live0, plan0, na0, k);
    assert bl[k] == bl0[k] && live[k] == live0[k] && na[k] == na0[k] && plan[k] == plan0[k]
           && plan[k + 1] == plan0[k + 1];
  }

  /** No placement of a live block reads past the last chunk. */
  ghost predicate NullFree(chunks: seq<Chunk>, live: seq<bool>, plan: seq<Alloc>) {
    forall k {:trigger NullFreeAt(chunks, plan[k])} ::
      0 <= k < |live| && k < |plan| && live[k] ==> AllocOk(chunks, plan[k]) && NullFreeAt(chunks, plan[k])
  }

  ghost predicate NullFreeAt(chunks: seq<Chunk>, st: Alloc)
    requires AllocOk(chunks, st)
  {
    SkipFull(chunks, st.used, st.fl) < |chunks|
  }

  /** `compact_allocate_r` finds room without reading past the last chunk. */
  ghost predicate CanPlace(chunks: seq<Chunk>, st: Alloc, size: nat)
    requires AllocOk(chunks, st)
  {
    NullFreeAt(chunks, st) && PlaceChunk(chunks, st, size) < |chunks|
  }

  /** The cursor before block `k`: its chunk and its offset in that chunk. */
  ghost function CurChunk(chunks: seq<Chunk>, bl: seq<Blk>, k: nat): nat
    requires Tiled(chunks, bl) && k <= |bl|
  {
    if k < |bl| then bl[k].chunk else |chunks| - 1
  }

  ghost function CurOffset(chunks: seq<Chunk>, bl: seq<Blk>, k: nat): int
    requires Tiled(chunks, bl) && k <= |bl|
  {
    if k < |bl| then bl[k].hp - chunks[bl[k].chunk].start else chunks[|chunks| - 1].size
  }

  /** The allocator never overtakes the cursor. */
  ghost predicate Behind(chunks: seq<Chunk>, bl: seq<Blk>, st: Alloc, k: nat)
    requires Tiled(chunks, bl) && k <= |bl| && AllocOk(chunks, st)
  {
    && st.fl <= CurChunk(chunks, bl, k)
    && st.used[CurChunk(chunks, bl, k)] <= CurOffset(chunks, bl, k)
    && forall d :: CurChunk(chunks, bl, k) < d < |chunks| ==> st.used[d] == 0
  }

  /** A live block is placed in its own chunk or an earlier one, not beyond its
      present position. */
  lemma PlaceBehind(chunks: seq<Chunk>, bl: seq<Blk>, st: Alloc, k: nat)
    requires Tiled(chunks, bl) && k < |bl| && AllocOk(chunks, st) && Behind(chunks, bl, st, k)
    requires NullFreeAt(chunks, st)
    ensures PlaceChunk(chunks, st, 1 + bl[k].wosize) <= bl[k].chunk
    ensures SkipFull(chunks, st.used, st.fl) <= bl[k].chunk
  {
    var c := bl[k].chunk;
    InChunk(chunks, bl, k);
    var r := SkipFull(chunks, st.used, st.fl);
    assert Left(chunks, st.used, c) >= 1 + bl[k].wosize;
    if r > c {
      assert Left(chunks, st.used, r) > 4;
      SkipStops(chunks, st.used, st.fl, c);
    }
  }

  /** The skipping loop does not pass a chunk whose successor has room. */
  lemma {:induction false} SkipStops(chunks: seq<Chunk>, used: seq<nat>, fl: nat, c: nat)
    requires fl <= c < |chunks| == |used|
    requires c + 1 < |chunks| && Left(chunks, used, c + 1) > 4
    ensures SkipFull(chunks, used, fl) <= c
    decreases c - fl
  {
    if fl < c && Left(chunks, used, fl) <= 4 && Left(chunks, used, fl + 1) <= 4 {
      SkipStops(chunks, used, fl + 1, c);
    }
  }

  /** Advancing the cursor over block `k` keeps the allocator behind it, and only
      uses the last chunk for blocks of that chunk. */
  lemma BehindStep(chunks: seq<Chunk>, bl: seq<Blk>, st: Alloc, live: bool, k: nat)
    requires Tiled(chunks, bl) && k < |bl| && AllocOk(chunks, st)
    requires Behind(chunks, bl, st, k) && (live ==> NullFreeAt(chunks, st))
    ensures Behind(chunks, bl, PlaceIf(chunks, st, 1 + bl[k].wosize, live), k + 1)
    ensures PlaceIf(chunks, st, 1 + bl[k].wosize, live).used[|chunks| - 1] <=
            st.used[|chunks| - 1] + if live && bl[k].chunk == |chunks| - 1 then 1 + bl[k].wosize else 0
  {
    InChunk(chunks, bl, k);
    if live {
      PlaceBehind(chunks, bl, st, k);
    }
    if k + 1 < |bl| {
      assert Adjacent(chunks, bl, k);
    }
  }

  lemma {:induction false} PlanBehind(chunks: seq<Chunk>, bl: seq<Blk>, live: seq<bool>, plan: seq<Alloc>, na: seq<nat>,
                                      k: nat)
    requires Tiled(chunks, bl) && k <= |bl|
    requires IsPlan(chunks, bl, live, plan, na) && NullFree(chunks, live, plan)
    ensures AllocOk(chunks, plan[k]) && Behind(chunks, bl, plan[k], k)
  {
    if k > 0 {
      PlanBehind(chunks, bl, live, plan, na, k - 1);
      assert StepOk(chunks, bl, live, plan, na, k - 1);
      assert live[k - 1] ==> NullFreeAt(chunks, plan[k - 1]);
      BehindStep(chunks, bl, plan[k - 1], live[k - 1], k - 1);
    }
  }

  lemma PlaceMonotone(chunks: seq<Chunk>, st: Alloc, size: nat, live: bool, c: nat)
    requires AllocOk(chunks, st) && c < |chunks|
    ensures st.used[c] <= PlaceIf(chunks, st, size, live).used[c]
  {
  }

  lemma {:induction false} PlanMonotone(chunks: seq<Chunk>, bl: seq<Blk>, live: seq<bool>, plan: seq<Alloc>,
                                        na: seq<nat>, i: nat, k: nat, c: nat)
    requires IsPlan(chunks, bl, live, plan, na) && i <= k <= |bl| && c < |chunks|
    requires AllocOk(chunks, plan[i])
    ensures AllocOk(chunks, plan[k]) && plan[i].used[c] <= plan[k].used[c]
    decreases k - i
  {
    if i < k {
      PlanMonotone(chunks, bl, live, plan, na, i, k - 1, c);
      assert StepOk(chunks, bl, live, plan, na, k - 1);
      PlaceMonotone(chunks, plan[k - 1], 1 + bl[k - 1].wosize, live[k - 1], c);
    }
  }

  /** Where a live block goes: inside a chunk that is its own or precedes it, and
      not above its present address in its own chunk. */
  lemma SlidesDown(chunks: seq<Chunk>, bl: seq<Blk>, live: seq<bool>, plan: seq<Alloc>, na: seq<nat>, k: nat)
    returns (c: nat)
    requires Tiled(chunks, bl) && k < |bl|
    requires IsPlan(chunks, bl, live, plan, na) && NullFree(chunks, live, plan) && live[k]
    ensures AllocOk(chunks, plan[k]) && CanPlace(chunks, plan[k], 1 + bl[k].wosize)
    ensures c == PlaceChunk(chunks, plan[k], 1 + bl[k].wosize) <= bl[k].chunk < |chunks|
    ensures na[k] == chunks[c].start + plan[k].used[c]
    ensures na[k] + 1 + bl[k].wosize <= ChunkEnd(chunks[c])
    ensures c == bl[k].chunk ==> na[k] <= bl[k].hp
  {
    PlanBehind(chunks, bl, live, plan, na, k);
    assert NullFreeAt(chunks, plan[k]);
    assert StepOk(chunks, bl, live, plan, na, k);
    PlaceBehind(chunks, bl, plan[k], k);
    c := PlaceChunk(chunks, plan[k], 1 + bl[k].wosize);
  }

  /** Two live blocks get disjoint places. */
  lemma PlacesDisjoint(chunks: seq<Chunk>, bl: seq<Blk>, live: seq<bool>, plan: seq<Alloc>, na: seq<nat>, i: nat,
                       k: nat)
    requires Tiled(chunks, bl) && i < k < |bl|
    requires IsPlan(chunks, bl, live, plan, na) && NullFree(chunks, live, plan) && live[i] && live[k]
    ensures na[i] + 1 + bl[i].wosize <= na[k] || na[k] + 1 + bl[k].wosize <= na[i]
  {
    var c := SlidesDown(chunks, bl, live, plan, na, i);
    var d := SlidesDown(chunks, bl, live, plan, na, k);
    if c < d {
      assert Apart(chunks, c, d);
    } else if d < c {
      assert Apart(chunks, d, c);
    } else {
      assert StepOk(chunks, bl, live, plan, na, i);
      PlanMonotone(chunks, bl, live, plan, na, i + 1, k, c);
    }
  }

  // ----- Threading: what inversion leaves in memory -----

  ghost predicate SlotsIn(mem: seq<Word>, slots: seq<nat>) {
    forall j :: 0 <= j < |slots| ==> slots[j] < |mem|
  }

  ghost predicate InBounds(mem: seq<Word>, bl: seq<Blk>, slots: seq<nat>) {
    SlotsIn(mem, slots) && forall i :: 0 <= i < |bl| ==> bl[i].hp < |mem|
  }

  /** The last of the first `n` slots that held a pointer to the value `v`. */
  ghost function LastRef(mem: seq<Word>, slots: seq<nat>, n: nat, v: nat): (j: int)
    requires n <= |slots| && SlotsIn(mem, slots)
    ensures -1 <= j < n
    ensures j >= 0 ==> mem[slots[j]] == Pointer(v)
    ensures forall i :: j < i < n ==> mem[slots[i]] != Pointer(v)
  {
    if n == 0 then -1
    else if mem[slots[n - 1]] == Pointer(v) then n - 1
    else LastRef(mem, slots, n - 1, v)
  }

  /** The head of block `b`'s inverted list once the first `n` slots are inverted:
      the last slot that referred to it, or its encoded header. */
  ghost function Thread(mem: seq<Word>, slots: seq<nat>, n: nat, b: Blk): Word
    requires n <= |slots| && SlotsIn(mem, slots)
  {
    var j := LastRef(mem, slots, n, b.hp + 1);
    if j == -1 then Encoded(b.wosize, EncTag(b)) else Pointer(slots[j])
  }

  /** The block that a word denotes as a value, or -1. */
  ghost function Target(bl: seq<Blk>, w: Word): (k: int)
    ensures -1 <= k < |bl|
    ensures k >= 0 ==> w == Pointer(bl[k].hp + 1)
    ensures k == -1 ==> forall i :: 0 <= i < |bl| ==> w != Pointer(bl[i].hp + 1)
  {
    if bl == [] then -1
    else if w == Pointer(bl[|bl| - 1].hp + 1) then |bl| - 1
    else Target(bl[..|bl| - 1], w)
  }

  ghost predicate Live(mem: seq<Word>, slots: seq<nat>, b: Blk)
    requires SlotsIn(mem, slots)
  {
    LastRef(mem, slots, |slots|, b.hp + 1) != -1
  }

  /** A heap that compaction may be applied to: tiled chunks with idle-phase
      headers, and slots whose pointers into the chunks denote blocks. */
  ghost predicate WellFormed(chunks: seq<Chunk>, roots: seq<nat>, bl: seq<Blk>, m0: seq<Word>) {
    && Tiled(chunks, bl) && RootsOk(chunks, roots)
    && (forall c :: 0 <= c < |chunks| ==> ChunkEnd(chunks[c]) <= |m0|)
    && InBounds(m0, bl, Slots(roots, bl))
    && HeadersOk(m0, bl)
    && var slots := Slots(roots, bl);
      forall j :: 0 <= j < |slots| ==>
        && (Ecolor(m0[slots[j]]) == 0 ==> m0[slots[j]].Pointer?)
        && (m0[slots[j]].Pointer? ==> (InHeap(chunks, m0[slots[j]].adr) <==> Target(bl, m0[slots[j]]) >= 0))
  }

  /** Headers before compaction: white for a used block, blue for a free one. */
  ghost predicate HeadersOk(m0: seq<Word>, bl: seq<Blk>) {
    && InBounds(m0, bl, [])
    && forall k :: 0 <= k < |bl| ==>
         m0[bl[k].hp] == Header(bl[k].wosize, bl[k].tag, if bl[k].free then Blue else White)
  }

  /** Slot `j` after `n` inversions and the reversion of the first `k` blocks. */
  ghost function SlotWord(m0: seq<Word>, bl: seq<Blk>, slots: seq<nat>, n: nat, k: nat, na: seq<nat>, j: nat): Word
    requires n <= |slots| && k <= |na| && j < |slots| && SlotsIn(m0, slots)
  {
    var t := Target(bl, m0[slots[j]]);
    if j >= n || t == -1 then m0[slots[j]]
    else if t < k then Pointer(na[t] + 1)
    else Thread(m0, slots, j, bl[t])
  }

  /** The header word of block `i`, likewise. */
  ghost function HeadWord(m0: seq<Word>, bl: seq<Blk>, slots: seq<nat>, n: nat, k: nat, i: nat): Word
    requires n <= |slots| && i < |bl| && SlotsIn(m0, slots)
  {
    if i < k then Header(bl[i].wosize, EncTag(bl[i]), if Live(m0, slots, bl[i]) then White else Blue)
    else Thread(m0, slots, n, bl[i])
  }

  /** The whole memory after `n` inversions and `k` reversions. */
  ghost predicate Shape(m0: seq<Word>, mem: seq<Word>, bl: seq<Blk>, slots: seq<nat>, n: nat, k: nat, na: seq<nat>)
  {
    && InBounds(m0, bl, slots) && n <= |slots| && k <= |na| && |mem| == |m0|
    && (forall i {:trigger HeadWord(m0, bl, slots, n, k, i)} ::
          0 <= i < |bl| ==> mem[bl[i].hp] == HeadWord(m0, bl, slots, n, k, i))
    && (forall j {:trigger SlotWord(m0, bl, slots, n, k, na, j)} ::
          0 <= j < |slots| ==> mem[slots[j]] == SlotWord(m0, bl, slots, n, k, na, j))
    && (forall a {:trigger Other(bl, slots, a)} :: 0 <= a < |mem| && Other(bl, slots, a) ==> mem[a] == m0[a])
  }

  /** The allocator has a place for block `k`, if it is live; that is its new address, and
      `next` is the allocator after that. */
  ghost predicate CanRevert(chunks: seq<Chunk>, m0: seq<Word>, bl: seq<Blk>, slots: seq<nat>, na: seq<nat>, k: nat,
                            a: Alloc, next: Alloc) {
    && k < |bl| == |na| && AllocOk(chunks, a) && InBounds(m0, bl, slots)
    && next == PlaceIf(chunks, a, 1 + bl[k].wosize, Live(m0, slots, bl[k]))
    && (Live(m0, slots, bl[k]) ==>
          CanPlace(chunks, a, 1 + bl[k].wosize) && na[k] == PlaceAdr(chunks, a, 1 + bl[k].wosize))
  }

  lemma RevertReady(chunks: seq<Chunk>, m0: seq<Word>, bl: seq<Blk>, slots: seq<nat>, live: seq<bool>, plan: seq<Alloc>,
                    na: seq<nat>, k: nat)
    requires IsPlan(chunks, bl, live, plan, na) && HavePlaces(chunks, bl, live, plan) && k < |bl|
    requires InBounds(m0, bl, slots) && live[k] == Live(m0, slots, bl[k])
    ensures CanRevert(chunks, m0, bl, slots, na, k, plan[k], plan[k + 1]) == true
  {
    assert StepOk(chunks, bl, live, plan, na, k) && CanPlaceAt(chunks, bl, live, plan, k);
  }

  /** Neither a header nor a visited slot. */
  ghost predicate Other(bl: seq<Blk>, slots: seq<nat>, a: nat) {
    a !in slots && forall i :: 0 <= i < |bl| ==> bl[i].hp != a
  }

  ghost predicate At(chunks: seq<Chunk>, bl: seq<Blk>, ch: nat, p: nat, k: nat) {
    && ch < |chunks| && k <= |bl|
    && if k < |bl| && bl[k].chunk == ch then p == bl[k].hp
       else
         && p == ChunkEnd(chunks[ch])
         && if k == |bl| then ch == |chunks| - 1
            else bl[k].chunk == ch + 1 < |chunks| && bl[k].hp == chunks[ch + 1].start
  }

  ghost predicate AtChunk(chunks: seq<Chunk>, bl: seq<Blk>, ch: nat, k: nat) {
    && k <= |bl|
    && if k < |bl| then bl[k].chunk == ch < |chunks| && bl[k].hp == chunks[ch].start else ch == |chunks|
  }

  lemma Advance(chunks: seq<Chunk>, bl: seq<Blk>, ch: nat, p: nat, k: nat)
    requires Tiled(chunks, bl) && At(chunks, bl, ch, p, k) && p < ChunkEnd(chunks[ch])
    ensures k < |bl| && bl[k].chunk == ch && p == bl[k].hp
    ensures At(chunks, bl, ch, End(bl[k]), k + 1) == true
    ensures End(bl[k]) <= ChunkEnd(chunks[ch])
  {
    InChunk(chunks, bl, k);
    if k + 1 < |bl| {
      assert Adjacent(chunks, bl, k);
    }
  }

  lemma LeaveChunk(chunks: seq<Chunk>, bl: seq<Blk>, ch: nat, p: nat, k: nat)
    requires Tiled(chunks, bl) && At(chunks, bl, ch, p, k) && p >= ChunkEnd(chunks[ch])
    ensures AtChunk(chunks, bl, ch + 1, k)
  {
    if k < |bl| {
      InChunk(chunks, bl, k);
    }
  }

  /** The first `k` headers are encoded and nothing else has changed. */
  ghost predicate EncodedTo(m0: seq<Word>, mem: seq<Word>, bl: seq<Blk>, k: nat)
  {
    && |mem| == |m0| && InBounds(m0, bl, [])
    && (forall i :: 0 <= i < |bl| ==>
          mem[bl[i].hp] == if i < k then Encoded(bl[i].wosize, EncTag(bl[i])) else m0[bl[i].hp])
    && (forall a {:trigger mem[a]} :: 0 <= a < |mem| && (forall i :: 0 <= i < |bl| ==> bl[i].hp != a) ==>
      mem[a] == m0[a])
  }

  /** How many slots have been visited when block `k` is reached. */
  ghost function VisitedBefore(roots: seq<nat>, bl: seq<Blk>, k: nat): nat
    requires k <= |bl|
  {
    |roots| + |FieldSlots(bl[..k])|
  }

  /** All slots up to block `k` are inverted. */
  ghost predicate Inverted(m0: seq<Word>, mem: seq<Word>, roots: seq<nat>, bl: seq<Blk>, k: nat) {
    k <= |bl| && Shape(m0, mem, bl, Slots(roots, bl), VisitedBefore(roots, bl, k), 0, [])
  }

  lemma VisitedAll(roots: seq<nat>, bl: seq<Blk>)
    ensures VisitedBefore(roots, bl, |bl|) == |Slots(roots, bl)|
  {
    assert bl[..|bl|] == bl;
  }

  lemma VisitedNext(roots: seq<nat>, bl: seq<Blk>, k: nat)
    requires k < |bl|
    ensures VisitedBefore(roots, bl, k + 1) ==
            VisitedBefore(roots, bl, k) + if Scanned(bl[k]) then bl[k].wosize else 0
  {
    assert bl[..k + 1][..k] == bl[..k];
  }

  /** Slot `j` while block `k` is being reverted: from index `m` on, the slots of
      its list hold the new address. */
  ghost function PartWord(m0: seq<Word>, bl: seq<Blk>, slots: seq<nat>, k: nat, na: seq<nat>, m: nat, j: nat): Word
    requires k < |bl| == |na| && j < |slots| && SlotsIn(m0, slots)
  {
    if Target(bl, m0[slots[j]]) == k && j >= m then Pointer(na[k] + 1)
    else SlotWord(m0, bl, slots, |slots|, k, na, j)
  }

  ghost predicate PartReverted(m0: seq<Word>, mem: seq<Word>, bl: seq<Blk>, slots: seq<nat>, k: nat, na: seq<nat>,
                               m: nat) {
    && InBounds(m0, bl, slots) && k < |bl| == |na| && |mem| == |m0|
    && (forall i {:trigger HeadWord(m0, bl, slots, |slots|, k, i)} ::
          0 <= i < |bl| ==> mem[bl[i].hp] == HeadWord(m0, bl, slots, |slots|, k, i))
    && (forall j {:trigger PartWord(m0, bl, slots, k, na, m, j)} ::
          0 <= j < |slots| ==> mem[slots[j]] == PartWord(m0, bl, slots, k, na, m, j))
    && (forall a {:trigger Other(bl, slots, a)} :: 0 <= a < |mem| && Other(bl, slots, a) ==> mem[a] == m0[a])
  }

  /** Which blocks some visited slot refers to. */
  ghost function LiveMap(roots: seq<nat>, bl: seq<Blk>, m0: seq<Word>): (live: seq<bool>)
    requires SlotsIn(m0, Slots(roots, bl))
    ensures |live| == |bl| && forall i :: 0 <= i < |bl| ==> live[i] == Live(m0, Slots(roots, bl), bl[i])
  {
    seq(|bl|, i requires 0 <= i < |bl| => Live(m0, Slots(roots, bl), bl[i]))
  }

  /** Plain headers, white exactly on the live blocks. */
  ghost predicate Decoded(chunks: seq<Chunk>, bl: seq<Blk>, live: seq<bool>, m3: seq<Word>) {
    && |live| == |bl|
    && (forall c :: 0 <= c < |chunks| ==> ChunkEnd(chunks[c]) <= |m3|)
    && forall k :: 0 <= k < |bl| ==>
         && End(bl[k]) <= |m3| && m3[bl[k].hp].Header?
         && m3[bl[k].hp].wosize == bl[k].wosize && (m3[bl[k].hp].color == White <==> live[k])
  }

  /** `len` words now at `to` are those that were at `from`. */
  ghost predicate Kept(m3: seq<Word>, mem: seq<Word>, from: nat, to: nat, len: nat) {
    && from + len <= |m3| && to + len <= |mem|
    && forall a :: to <= a < to + len ==> mem[a] == m3[from + (a - to)]
  }

  ghost predicate Same(m3: seq<Word>, mem: seq<Word>, from: nat, len: nat) {
    && from + len <= |m3| == |mem|
    && forall a {:trigger mem[a]} :: from <= a < from + len ==> mem[a] == m3[a]
  }

  /** The live blocks before `k` are at their new places, later blocks and the
      words outside the chunks are untouched. */
  ghost predicate Moved(chunks: seq<Chunk>, bl: seq<Blk>, live: seq<bool>, na: seq<nat>, m3: seq<Word>, mem: seq<Word>,
                        k: nat) {
    && |mem| == |m3| && |live| == |bl| == |na|
    && (forall i :: 0 <= i < k && i < |bl| && live[i] ==> Kept(m3, mem, bl[i].hp, na[i], 1 + bl[i].wosize))
    && (forall l :: k <= l < |bl| ==> Same(m3, mem, bl[l].hp, 1 + bl[l].wosize))
    && (forall a {:trigger mem[a]} :: 0 <= a < |mem| && !InHeap(chunks, a) ==> mem[a] == m3[a])
  }

  /** `memmove` of `sz` words. */
  function Memmove(mem: seq<Word>, to: nat, from: nat, sz: nat): (r: seq<Word>)
    requires to + sz <= |mem| && from + sz <= |mem|
    ensures |r| == |mem|
    ensures forall a {:trigger r[a]} :: 0 <= a < |mem| ==>
            r[a] == if to <= a < to + sz then mem[from + (a - to)] else mem[a]
  {
    mem[..to] + mem[from..from + sz] + mem[to + sz..]
  }

  /** What the fourth pass needs at the block `p`. */
  ghost predicate CanMove(chunks: seq<Chunk>, st: Alloc, mem: seq<Word>, p: nat, newHp: nat) {
    && AllocOk(chunks, st)
    && p < |mem| && mem[p].Header? && p + 1 + mem[p].wosize <= |mem|
    && (mem[p].color == White ==>
          && newHp + 1 + mem[p].wosize <= |mem|
          && CanPlace(chunks, st, 1 + mem[p].wosize) && newHp == PlaceAdr(chunks, st, 1 + mem[p].wosize))
  }

  ghost function AfterMove(mem: seq<Word>, p: nat, newHp: nat): seq<Word>
    requires p < |mem| && mem[p].Header? && p + 1 + mem[p].wosize <= |mem|
    requires mem[p].color == White ==> newHp + 1 + mem[p].wosize <= |mem|
  {
    if mem[p].color == White then Memmove(mem, newHp, p, 1 + mem[p].wosize) else mem
  }

  /** A word of the old heap as it must read in the new one. */
  ghost function Relocate(bl: seq<Blk>, na: seq<nat>, w: Word): Word
    requires |na| == |bl|
  {
    var t := Target(bl, w);
    if t == -1 then w else Pointer(na[t] + 1)
  }

  /** Field `x` of block `b` as it must read in the new heap. */
  ghost function NewField(bl: seq<Blk>, na: seq<nat>, m0: seq<Word>, b: Blk, x: nat): Word
    requires |na| == |bl| && x < b.wosize && End(b) <= |m0|
  {
    var w := m0[b.hp + 1 + x];
    if Scanned(b) then Relocate(bl, na, w) else w
  }

  /** Block `b` stands at `hp` with its tag, size and relocated contents. */
  ghost predicate BlockAt(bl: seq<Blk>, na: seq<nat>, m0: seq<Word>, mem: seq<Word>, b: Blk, hp: nat) {
    && |na| == |bl| && End(b) <= |m0| && hp + 1 + b.wosize <= |mem|
    && mem[hp] == Header(b.wosize, EncTag(b), White)
    && forall a :: hp < a <= hp + b.wosize ==> mem[a] == NewField(bl, na, m0, b, a - hp - 1)
  }

  /** The compacted heap: every referenced block stands at its new address and
      every root and field denotes the block it denoted before. */
  ghost predicate Compacted(roots: seq<nat>, bl: seq<Blk>, m0: seq<Word>, mem: seq<Word>, live: seq<bool>,
                            na: seq<nat>) {
    && |mem| == |m0| && |live| == |bl| == |na|
    && (forall i :: 0 <= i < |bl| && live[i] ==> BlockAt(bl, na, m0, mem, bl[i], na[i]))
    && (forall r :: 0 <= r < |roots| ==> roots[r] < |mem| && mem[roots[r]] == Relocate(bl, na, m0[roots[r]]))
  }

  lemma SlotAt(roots: seq<nat>, bl: seq<Blk>, k: nat, i: nat)
    requires k < |bl| && Scanned(bl[k]) && i < bl[k].wosize
    ensures VisitedBefore(roots, bl, k) + i < |Slots(roots, bl)|
    ensures Slots(roots, bl)[VisitedBefore(roots, bl, k) + i] == bl[k].hp + 1 + i
  {
    FieldSlotAt(bl, k, i);
  }

  class Heap {
    const chunks: seq<Chunk>
    const roots: seq<nat>
    var mem: seq<Word>
    var chunkAlloc: seq<nat>
    var compactFl: nat

    /** `invert_pointer_at_r` on the next slot to visit. */
    method InvertPointerAt(p: nat, ghost m0: seq<Word>, ghost bl: seq<Blk>, ghost n: nat)
      requires WellFormed(chunks, roots, bl, m0)
      requires n < |Slots(roots, bl)| && p == Slots(roots, bl)[n]
      requires Shape(m0, mem, bl, Slots(roots, bl), n, 0, [])
      modifies `mem
      ensures Shape(m0, mem, bl, Slots(roots, bl), n + 1, 0, [])
    {
      ghost var slots := Slots(roots, bl);
      var q := mem[p];
      assert q == SlotWord(m0, bl, slots, n, 0, [], n) == m0[p];
      if Ecolor(q) == 0 && InHeap(chunks, q.adr) {
        ghost var t := Target(bl, q);
        var h := mem[q.adr - 1];
        assert h == HeadWord(m0, bl, slots, n, 0, t);
        mem := mem[p := h];
        mem := mem[q.adr - 1 := Pointer(p)];
        IsSeparate(chunks, roots, bl);
        InvertedShape(bl, slots, m0, old(mem), n, t);
      } else {
        UnchangedShape(bl, slots, m0, mem, n);
      }
    }

    method EncodeChunk(ch: nat, ghost m0: seq<Word>, ghost bl: seq<Blk>, ghost k0: nat) returns (ghost k: nat)
      requires HeadersOk(m0, bl) && Tiled(chunks, bl) && Separate(bl, [])
      requires ch < |chunks| && AtChunk(chunks, bl, ch, k0) && EncodedTo(m0, mem, bl, k0)
      modifies `mem
      ensures AtChunk(chunks, bl, ch + 1, k) && EncodedTo(m0, mem, bl, k)
    {
      var p, chend := chunks[ch].start, ChunkEnd(chunks[ch]);
      k := k0;
      while p < chend
        invariant p <= chend && At(chunks, bl, ch, p, k) && EncodedTo(m0, mem, bl, k)
      {
        Advance(chunks, bl, ch, p, k);
        var hd := mem[p];
        assert hd == m0[bl[k].hp];
        var sz := hd.wosize;
        if hd.color == Blue {
          mem := mem[p := Encoded(sz, STRING_TAG)];
        } else {
          mem := mem[p := Encoded(sz, hd.tag)];
        }
        p := p + 1 + sz;
        k := k + 1;
      }
      LeaveChunk(chunks, bl, ch, p, k);
    }

    /** First pass: encode all headers; free blocks get a string tag. */
    method EncodeHeaders(ghost bl: seq<Blk>)
      requires WellFormed(chunks, roots, bl, mem)
      modifies `mem
      ensures Shape(old(mem), mem, bl, Slots(roots, bl), 0, 0, [])
    {
      ghost var m0 := mem;
      IsSeparate(chunks, roots, bl);
      var ch := 0;
      ghost var k: nat := 0;
      while ch < |chunks|
        invariant AtChunk(chunks, bl, ch, k) && EncodedTo(m0, mem, bl, k)
      {
        k := EncodeChunk(ch, m0, bl, k);
        ch := ch + 1;
      }
      EncodedShape(bl, Slots(roots, bl), m0, mem);
    }

    /** Follow an inverted list to the encoded header at its end. */
    method FindHeader(p: nat, ghost m0: seq<Word>, ghost bl: seq<Blk>, ghost slots: seq<nat>, ghost n: nat,
                      ghost kk: nat, ghost na: seq<nat>, ghost k: nat)
      returns (q: Word)
      requires InBounds(m0, bl, slots) && Separate(bl, slots)
      requires n <= |slots| && kk <= |na| && kk <= k < |bl| && p == bl[k].hp
      requires Shape(m0, mem, bl, slots, n, kk, na)
      ensures q == Encoded(bl[k].wosize, EncTag(bl[k]))
    {
      ghost var m: nat := n;
      q := mem[p];
      assert q == HeadWord(m0, bl, slots, n, kk, k);
      while Ecolor(q) == 0
        invariant m <= n && q == Thread(m0, slots, m, bl[k])
        decreases m
      {
        ghost var j := LastRef(m0, slots, m, bl[k].hp + 1);
        assert j >= 0;
        m := j;
        assert Target(bl, m0[slots[m]]) == k;
        assert mem[slots[m]] == SlotWord(m0, bl, slots, n, kk, na, m);
        q := mem[q.adr];
      }
    }

    method InvertFields(p: nat, sz: nat, ghost m0: seq<Word>, ghost bl: seq<Blk>, ghost k: nat) returns (ghost n: nat)
      requires WellFormed(chunks, roots, bl, m0) && k < |bl| && p == bl[k].hp
      requires Scanned(bl[k]) && sz == 1 + bl[k].wosize
      requires Inverted(m0, mem, roots, bl, k)
      modifies `mem
      ensures n == VisitedBefore(roots, bl, k) + bl[k].wosize
      ensures Shape(m0, mem, bl, Slots(roots, bl), n, 0, [])
    {
      n := VisitedBefore(roots, bl, k);
      var i := 1;
      while i < sz
        invariant 1 <= i <= sz && n == VisitedBefore(roots, bl, k) + i - 1
        invariant Shape(m0, mem, bl, Slots(roots, bl), n, 0, [])
      {
        SlotAt(roots, bl, k, i - 1);
        InvertPointerAt(p + i, m0, bl, n);
        i, n := i + 1, n + 1;
      }
    }

    /** Thread the fields of the block at `p`, if it is scanned. */
    method InvertBlock(p: nat, ghost m0: seq<Word>, ghost bl: seq<Blk>, ghost k: nat) returns (sz: nat)
      requires WellFormed(chunks, roots, bl, m0) && k < |bl| && p == bl[k].hp
      requires Inverted(m0, mem, roots, bl, k)
      modifies `mem
      ensures sz == 1 + bl[k].wosize
      ensures Inverted(m0, mem, roots, bl, k + 1)
    {
      IsSeparate(chunks, roots, bl);
      var q := FindHeader(p, m0, bl, Slots(roots, bl), VisitedBefore(roots, bl, k), 0, [], k);
      sz := 1 + q.ewosize;
      VisitedNext(roots, bl, k);
      if q.etag < NO_SCAN_TAG {
        ghost var n := InvertFields(p, sz, m0, bl, k);
        assert n == VisitedBefore(roots, bl, k + 1);
      }
    }

    method InvertChunk(ch: nat, ghost m0: seq<Word>, ghost bl: seq<Blk>, ghost k0: nat) returns (ghost k: nat)
      requires WellFormed(chunks, roots, bl, m0)
      requires ch < |chunks| && AtChunk(chunks, bl, ch, k0) && Inverted(m0, mem, roots, bl, k0)
      modifies `mem
      ensures AtChunk(chunks, bl, ch + 1, k) && Inverted(m0, mem, roots, bl, k)
    {
      var p, chend := chunks[ch].start, ChunkEnd(chunks[ch]);
      k := k0;
      while p < chend
        invariant p <= chend && At(chunks, bl, ch, p, k) && Inverted(m0, mem, roots, bl, k)
      {
        Advance(chunks, bl, ch, p, k);
        var sz := InvertBlock(p, m0, bl, k);
        p := p + sz;
        k := k + 1;
      }
      LeaveChunk(chunks, bl, ch, p, k);
    }

    method InvertRoots(ghost m0: seq<Word>, ghost bl: seq<Blk>)
      requires WellFormed(chunks, roots, bl, m0)
      requires Shape(m0, mem, bl, Slots(roots, bl), 0, 0, [])
      modifies `mem
      ensures Inverted(m0, mem, roots, bl, 0)
    {
      var r := 0;
      while r < |roots|
        invariant r <= |roots| && Shape(m0, mem, bl, Slots(roots, bl), r, 0, [])
      {
        InvertPointerAt(roots[r], m0, bl, r);
        r := r + 1;
      }
    }

    /** Second pass: thread every root and every field of a scanned block. */
    method InvertPointers(ghost m0: seq<Word>, ghost bl: seq<Blk>)
      requires WellFormed(chunks, roots, bl, m0)
      requires Shape(m0, mem, bl, Slots(roots, bl), 0, 0, [])
      modifies `mem
      ensures Shape(m0, mem, bl, Slots(roots, bl), |Slots(roots, bl)|, 0, [])
    {
      InvertRoots(m0, bl);
      var ch := 0;
      ghost var k: nat := 0;
      while ch < |chunks|
        invariant AtChunk(chunks, bl, ch, k) && Inverted(m0, mem, roots, bl, k)
      {
        k := InvertChunk(ch, m0, bl, k);
        ch := ch + 1;
      }
      VisitedAll(roots, bl);
    }

    method InitCompactAllocate()
      requires |chunks| > 0
      modifies `chunkAlloc, `compactFl
      ensures Alloc(chunkAlloc, compactFl) == InitAlloc(chunks)
    {
      var ch := 0;
      chunkAlloc := [];
      while ch < |chunks|
        invariant ch == |chunkAlloc| <= |chunks| && forall i :: 0 <= i < ch ==> chunkAlloc[i] == 0
      {
        chunkAlloc := chunkAlloc + [0];
        ch := ch + 1;
      }
      compactFl := 0;
    }

    /** `compact_allocate_r`; the requires keep it off the NULL chunk. */
    method CompactAllocate(size: nat) returns (adr: nat)
      requires AllocOk(chunks, Alloc(chunkAlloc, compactFl))
      requires CanPlace(chunks, Alloc(chunkAlloc, compactFl), size)
      modifies `chunkAlloc, `compactFl
      ensures Alloc(chunkAlloc, compactFl) == Place(chunks, old(Alloc(chunkAlloc, compactFl)), size)
      ensures adr == PlaceAdr(chunks, old(Alloc(chunkAlloc, compactFl)), size)
    {
      while Left(chunks, chunkAlloc, compactFl) <= 4 && Left(chunks, chunkAlloc, compactFl + 1) <= 4
        invariant compactFl < |chunks| == |chunkAlloc| && chunkAlloc == old(chunkAlloc)
        invariant SkipFull(chunks, chunkAlloc, compactFl) == old(SkipFull(chunks, chunkAlloc, compactFl)) < |chunks|
        decreases |chunks| - compactFl
      {
        compactFl := compactFl + 1;
      }
      var chunk := compactFl;
      while Left(chunks, chunkAlloc, chunk) < size
        invariant chunk < |chunks| && chunkAlloc == old(chunkAlloc)
        invariant FirstFit(chunks, chunkAlloc, chunk, size) ==
                  PlaceChunk(chunks, old(Alloc(chunkAlloc, compactFl)), size)
        decreases |chunks| - chunk
      {
        chunk := chunk + 1;
      }
      adr := chunks[chunk].start + chunkAlloc[chunk];
      chunkAlloc := chunkAlloc[chunk := chunkAlloc[chunk] + size];
    }

    /** Write the new address into every slot of block `k`'s list, then give the
        block a plain white header. */
    method RevertBlock(p: nat, newadr: nat, sz: nat, t: nat, ghost m0: seq<Word>, ghost bl: seq<Blk>,
                       ghost slots: seq<nat>, ghost na: seq<nat>, ghost k: nat)
      requires InBounds(m0, bl, slots) && Separate(bl, slots)
      requires k < |bl| == |na| && p == bl[k].hp && newadr == na[k]
      requires sz == bl[k].wosize && t == EncTag(bl[k]) && Live(m0, slots, bl[k])
      requires Shape(m0, mem, bl, slots, |slots|, k, na)
      modifies `mem
      ensures Shape(m0, mem, bl, slots, |slots|, k + 1, na)
    {
      var q := mem[p];
      ghost var m: nat := |slots|;
      assert q == HeadWord(m0, bl, slots, |slots|, k, k);
      PartStart(bl, slots, m0, mem, k, na);
      while Ecolor(q) == 0
        invariant m <= |slots| && q == Thread(m0, slots, m, bl[k])
        invariant PartReverted(m0, mem, bl, slots, k, na, m)
        decreases m
      {
        ghost var j := LastRef(m0, slots, m, bl[k].hp + 1);
        assert q == Pointer(slots[j]);
        assert Target(bl, m0[slots[j]]) == k;
        assert mem[slots[j]] == PartWord(m0, bl, slots, k, na, m, j);
        var next := mem[q.adr];
        PartStep(bl, slots, m0, mem, k, na, m);
        mem := mem[q.adr := Pointer(newadr + 1)];
        q := next;
        m := j;
      }
      PartDone(bl, slots, m0, mem, k, na, m);
      mem := mem[p := Header(sz, t, White)];
    }

    /** Place the block at `p` and revert its list if it is referenced; otherwise
        turn it into a free block. */
    method RevertOne(p: nat, ghost m0: seq<Word>, ghost bl: seq<Blk>, ghost slots: seq<nat>, ghost na: seq<nat>,
                     ghost k: nat, ghost next: Alloc)
      returns (sz: nat)
      requires InBounds(m0, bl, slots) && Separate(bl, slots)
      requires CanRevert(chunks, m0, bl, slots, na, k, Alloc(chunkAlloc, compactFl), next) && p == bl[k].hp
      requires Shape(m0, mem, bl, slots, |slots|, k, na)
      modifies `mem, `chunkAlloc, `compactFl
      ensures sz == 1 + bl[k].wosize
      ensures Shape(m0, mem, bl, slots, |slots|, k + 1, na) == true
      ensures Alloc(chunkAlloc, compactFl) == next
    {
      var q := mem[p];
      assert q == HeadWord(m0, bl, slots, |slots|, k, k);
      if Ecolor(q) == 0 {
        q := FindHeader(p, m0, bl, slots, |slots|, k, na, k);
        sz := 1 + q.ewosize;
        var newadr := CompactAllocate(sz);
        RevertBlock(p, newadr, q.ewosize, q.etag, m0, bl, slots, na, k);
      } else {
        sz := 1 + q.ewosize;
        PartStart(bl, slots, m0, mem, k, na);
        PartDone(bl, slots, m0, mem, k, na, |slots|);
        mem := mem[p := Header(q.ewosize, q.etag, Blue)];
      }
    }

    method RevertChunk(ch: nat, ghost m0: seq<Word>, ghost bl: seq<Blk>, ghost slots: seq<nat>, ghost live: seq<bool>,
                       ghost plan: seq<Alloc>, ghost na: seq<nat>, ghost k0: nat)
      returns (ghost k: nat)
      requires InBounds(m0, bl, slots) && Separate(bl, slots)
      requires Tiled(chunks, bl) && IsPlan(chunks, bl, live, plan, na) && HavePlaces(chunks, bl, live, plan)
      requires forall i :: 0 <= i < |bl| ==> live[i] == Live(m0, slots, bl[i])
      requires ch < |chunks| && AtChunk(chunks, bl, ch, k0)
      requires Shape(m0, mem, bl, slots, |slots|, k0, na) && Alloc(chunkAlloc, compactFl) == plan[k0]
      modifies `mem, `chunkAlloc, `compactFl
      ensures AtChunk(chunks, bl, ch + 1, k)
      ensures Shape(m0, mem, bl, slots, |slots|, k, na) == true && Alloc(chunkAlloc, compactFl) == plan[k]
    {
      var p, chend := chunks[ch].start, ChunkEnd(chunks[ch]);
      k := k0;
      while p < chend
        invariant p <= chend && At(chunks, bl, ch, p, k) == true
        invariant Shape(m0, mem, bl, slots, |slots|, k, na) == true && k < |plan|
                  && Alloc(chunkAlloc, compactFl) == plan[k]
      {
        Advance(chunks, bl, ch, p, k);
        RevertReady(chunks, m0, bl, slots, live, plan, na, k);
        var sz := RevertOne(p, m0, bl, slots, na, k, plan[k + 1]);
        p := p + sz;
        k := k + 1;
      }
      LeaveChunk(chunks, bl, ch, p, k);
    }

    /** Third pass: reallocate virtually, revert pointers, decode headers. */
    method RevertPointers(ghost m0: seq<Word>, ghost bl: seq<Blk>, ghost live: seq<bool>, ghost plan: seq<Alloc>,
                          ghost na: seq<nat>)
      requires WellFormed(chunks, roots, bl, m0) && live == LiveMap(roots, bl, m0)
      requires IsPlan(chunks, bl, live, plan, na) && HavePlaces(chunks, bl, live, plan)
      requires Shape(m0, mem, bl, Slots(roots, bl), |Slots(roots, bl)|, 0, [])
      modifies `mem, `chunkAlloc, `compactFl
      ensures Shape(m0, mem, bl, Slots(roots, bl), |Slots(roots, bl)|, |bl|, na)
    {
      ghost var slots := Slots(roots, bl);
      IsSeparate(chunks, roots, bl);
      InitCompactAllocate();
      StartReverting(bl, slots, m0, mem, na);
      var ch := 0;
      ghost var k: nat := 0;
      while ch < |chunks|
        invariant AtChunk(chunks, bl, ch, k)
        invariant Shape(m0, mem, bl, slots, |slots|, k, na) && Alloc(chunkAlloc, compactFl) == plan[k]
      {
        k := RevertChunk(ch, m0, bl, slots, live, plan, na, k);
        ch := ch + 1;
      }
    }

    /** Move the block at `p` if it is white. */
    method MoveOne(p: nat, ghost newHp: nat) returns (sz: nat)
      requires CanMove(chunks, Alloc(chunkAlloc, compactFl), mem, p, newHp)
      modifies `mem, `chunkAlloc, `compactFl
      ensures sz == 1 + old(mem[p].wosize)
      ensures mem == AfterMove(old(mem), p, newHp)
      ensures Alloc(chunkAlloc, compactFl) ==
              PlaceIf(chunks, old(Alloc(chunkAlloc, compactFl)), sz, old(mem[p].color) == White)
    {
      var q := mem[p];
      sz := 1 + q.wosize;
      if q.color == White {
        var newadr := CompactAllocate(sz);
        mem := Memmove(mem, newadr, p, sz);
      }
    }

    method MoveBlock(p: nat, ghost m3: seq<Word>, ghost bl: seq<Blk>, ghost live: seq<bool>, ghost plan: seq<Alloc>,
                     ghost na: seq<nat>, ghost k: nat)
      returns (sz: nat)
      requires k < |bl| && p == bl[k].hp && Decoded(chunks, bl, live, m3)
      requires IsPlan(chunks, bl, live, plan, na) && HavePlaces(chunks, bl, live, plan)
               && GoodPlaces(chunks, bl, live, na)
      requires Moved(chunks, bl, live, na, m3, mem, k) && Alloc(chunkAlloc, compactFl) == plan[k]
      modifies `mem, `chunkAlloc, `compactFl
      ensures sz == 1 + bl[k].wosize
      ensures Moved(chunks, bl, live, na, m3, mem, k + 1) && Alloc(chunkAlloc, compactFl) == plan[k + 1]
    {
      MoveStep(chunks, bl, live, na, m3, mem, k);
      MoveReady(chunks, bl, live, plan, na, mem, k);
      sz := MoveOne(p, na[k]);
    }

    method MoveChunk(ch: nat, ghost m3: seq<Word>, ghost bl: seq<Blk>, ghost live: seq<bool>, ghost plan: seq<Alloc>,
                     ghost na: seq<nat>, ghost k0: nat)
      returns (ghost k: nat)
      requires Tiled(chunks, bl) && Decoded(chunks, bl, live, m3)
      requires IsPlan(chunks, bl, live, plan, na) && HavePlaces(chunks, bl, live, plan)
               && GoodPlaces(chunks, bl, live, na)
      requires ch < |chunks| && AtChunk(chunks, bl, ch, k0)
      requires Moved(chunks, bl, live, na, m3, mem, k0) && Alloc(chunkAlloc, compactFl) == plan[k0]
      modifies `mem, `chunkAlloc, `compactFl
      ensures AtChunk(chunks, bl, ch + 1, k)
      ensures Moved(chunks, bl, live, na, m3, mem, k) && Alloc(chunkAlloc, compactFl) == plan[k]
    {
      var p, chend := chunks[ch].start, ChunkEnd(chunks[ch]);
      k := k0;
      while p < chend
        invariant p <= chend && At(chunks, bl, ch, p, k)
        invariant Moved(chunks, bl, live, na, m3, mem, k) && Alloc(chunkAlloc, compactFl) == plan[k]
      {
        Advance(chunks, bl, ch, p, k);
        var sz := MoveBlock(p, m3, bl, live, plan, na, k);
        p := p + sz;
        k := k + 1;
      }
      LeaveChunk(chunks, bl, ch, p, k);
    }

    /** Fourth pass: reallocate and move, with the same allocation sequence. */
    method MoveBlocks(ghost bl: seq<Blk>, ghost live: seq<bool>, ghost plan: seq<Alloc>, ghost na: seq<nat>)
      requires Tiled(chunks, bl) && Decoded(chunks, bl, live, mem)
      requires IsPlan(chunks, bl, live, plan, na) && HavePlaces(chunks, bl, live, plan)
               && GoodPlaces(chunks, bl, live, na)
      modifies `mem, `chunkAlloc, `compactFl
      ensures Moved(chunks, bl, live, na, old(mem), mem, |bl|)
    {
      ghost var m3 := mem;
      MoveStart(chunks, bl, live, na, mem);
      InitCompactAllocate();
      var ch := 0;
      ghost var k: nat := 0;
      while ch < |chunks|
        invariant AtChunk(chunks, bl, ch, k)
        invariant Moved(chunks, bl, live, na, m3, mem, k) && Alloc(chunkAlloc, compactFl) == plan[k]
      {
        k := MoveChunk(ch, m3, bl, live, plan, na, k);
        ch := ch + 1;
      }
    }

    /** The four passes of `do_compaction_r`; `na` names the new places. */
    method DoCompaction(ghost bl: seq<Blk>, ghost plan: seq<Alloc>, ghost na: seq<nat>)
      requires WellFormed(chunks, roots, bl, mem)
      requires IsPlan(chunks, bl, LiveMap(roots, bl, mem), plan, na) && NullFree(chunks, LiveMap(roots, bl, mem), plan)
      modifies `mem, `chunkAlloc, `compactFl
      ensures GoodPlaces(chunks, bl, LiveMap(roots, bl, old(mem)), na)
      ensures Compacted(roots, bl, old(mem), mem, LiveMap(roots, bl, old(mem)), na)
      ensures Closed(roots, bl, old(mem))
    {
      ghost var m0, live := mem, LiveMap(roots, bl, mem);
      DenotedIsLive(roots, bl, mem);
      SlideSound(chunks, bl, live, plan, na);
      EncodeHeaders(bl);
      InvertPointers(m0, bl);
      RevertPointers(m0, bl, live, plan, na);
      ghost var m3 := mem;
      RevertedDecoded(chunks, roots, bl, m0, m3, na);
      MoveBlocks(bl, live, plan, na);
      CompactionCorrect(chunks, roots, bl, m0, m3, mem, na);
    }
  }

  /** Headers and visited slots are pairwise distinct words. */
  ghost predicate Separate(bl: seq<Blk>, slots: seq<nat>) {
    && (forall i, j :: 0 <= i < j < |bl| ==> bl[i].hp != bl[j].hp)
    && (forall i, j :: 0 <= i < j < |slots| ==> slots[i] != slots[j])
    && (forall i, j :: 0 <= i < |bl| && 0 <= j < |slots| ==> bl[i].hp != slots[j])
  }

  lemma IsSeparate(chunks: seq<Chunk>, roots: seq<nat>, bl: seq<Blk>)
    requires Tiled(chunks, bl) && RootsOk(chunks, roots)
    ensures Separate(bl, Slots(roots, bl))
  {
    var slots := Slots(roots, bl);
    forall i, j | 0 <= i < j < |bl| ensures bl[i].hp != bl[j].hp {
      Disjoint(chunks, bl, i, j);
    }
    forall i, j | 0 <= i < j < |slots| ensures slots[i] != slots[j] {
      SlotsDistinct(chunks, roots, bl, i, j);
    }
    forall i, j | 0 <= i < |bl| && 0 <= j < |slots| ensures bl[i].hp != slots[j] {
      SlotOutsideHeaders(chunks, roots, bl, j, i);
    }
  }

  lemma EncodedShape(bl: seq<Blk>, slots: seq<nat>, m0: seq<Word>, mem: seq<Word>)
    requires InBounds(m0, bl, slots) && Separate(bl, slots)
    requires EncodedTo(m0, mem, bl, |bl|)
    ensures Shape(m0, mem, bl, slots, 0, 0, [])
  {
  }

  lemma PartStart(bl: seq<Blk>, slots: seq<nat>, m0: seq<Word>, mem: seq<Word>, k: nat, na: seq<nat>)
    requires k < |bl| == |na| && Shape(m0, mem, bl, slots, |slots|, k, na)
    ensures PartReverted(m0, mem, bl, slots, k, na, |slots|)
  {
    forall j | 0 <= j < |slots|
      ensures mem[slots[j]] == PartWord(m0, bl, slots, k, na, |slots|, j)
    {
      assert mem[slots[j]] == SlotWord(m0, bl, slots, |slots|, k, na, j);
    }
  }

  /** One slot of the list of block `k` gets the new address. */
  lemma PartStep(bl: seq<Blk>, slots: seq<nat>, m0: seq<Word>, mem: seq<Word>, k: nat, na: seq<nat>, m: nat)
    requires Separate(bl, slots) && m <= |slots|
    requires PartReverted(m0, mem, bl, slots, k, na, m)
    requires LastRef(m0, slots, m, bl[k].hp + 1) >= 0
    ensures var j := LastRef(m0, slots, m, bl[k].hp + 1);
            PartReverted(m0, mem[slots[j] := Pointer(na[k] + 1)], bl, slots, k, na, j)
  {
    var j := LastRef(m0, slots, m, bl[k].hp + 1);
    var mem' := mem[slots[j] := Pointer(na[k] + 1)];
    forall i | 0 <= i < |bl|
      ensures mem'[bl[i].hp] == HeadWord(m0, bl, slots, |slots|, k, i)
    {
      assert mem[bl[i].hp] == HeadWord(m0, bl, slots, |slots|, k, i);
      assert bl[i].hp != slots[j];
    }
    forall i | 0 <= i < |slots|
      ensures mem'[slots[i]] == PartWord(m0, bl, slots, k, na, j, i)
    {
      assert mem[slots[i]] == PartWord(m0, bl, slots, k, na, m, i);
      if i == j {
        assert Target(bl, m0[slots[j]]) == k;
      } else {
        assert slots[i] != slots[j];
      }
    }
  }

  /** When the list is exhausted, restoring the header completes block `k`. */
  lemma PartDone(bl: seq<Blk>, slots: seq<nat>, m0: seq<Word>, mem: seq<Word>, k: nat, na: seq<nat>, m: nat)
    requires Separate(bl, slots) && m <= |slots|
    requires PartReverted(m0, mem, bl, slots, k, na, m)
    requires LastRef(m0, slots, m, bl[k].hp + 1) == -1
    ensures Shape(m0, mem[bl[k].hp := HeadWord(m0, bl, slots, |slots|, k + 1, k)], bl, slots, |slots|, k + 1, na)
  {
    var mem' := mem[bl[k].hp := HeadWord(m0, bl, slots, |slots|, k + 1, k)];
    forall i | 0 <= i < |bl|
      ensures mem'[bl[i].hp] == HeadWord(m0, bl, slots, |slots|, k + 1, i)
    {
      assert mem[bl[i].hp] == HeadWord(m0, bl, slots, |slots|, k, i);
      if i != k {
        assert bl[i].hp != bl[k].hp;
      }
    }
    forall j | 0 <= j < |slots|
      ensures mem'[slots[j]] == SlotWord(m0, bl, slots, |slots|, k + 1, na, j)
    {
      assert mem[slots[j]] == PartWord(m0, bl, slots, k, na, m, j);
      assert bl[k].hp != slots[j];
    }
  }

  lemma StartReverting(bl: seq<Blk>, slots: seq<nat>, m0: seq<Word>, mem: seq<Word>, na: seq<nat>)
    requires Shape(m0, mem, bl, slots, |slots|, 0, [])
    ensures Shape(m0, mem, bl, slots, |slots|, 0, na)
  {
    forall j | 0 <= j < |slots|
      ensures mem[slots[j]] == SlotWord(m0, bl, slots, |slots|, 0, na, j)
    {
      assert mem[slots[j]] == SlotWord(m0, bl, slots, |slots|, 0, [], j);
    }
  }

  /** The new place of block `k` overlaps no block that is still to be moved. */
  lemma PlaceClear(chunks: seq<Chunk>, bl: seq<Blk>, live: seq<bool>, plan: seq<Alloc>, na: seq<nat>, k: nat, l: nat)
    requires Tiled(chunks, bl) && k < l < |bl|
    requires IsPlan(chunks, bl, live, plan, na) && NullFree(chunks, live, plan) && live[k]
    ensures na[k] + 1 + bl[k].wosize <= bl[l].hp || End(bl[l]) <= na[k]
  {
    var c := SlidesDown(chunks, bl, live, plan, na, k);
    Ordered(chunks, bl, k, l);
    InChunk(chunks, bl, l);
    var d := bl[l].chunk;
    if c < d {
      assert Apart(chunks, c, d);
    }
  }

  ghost predicate InSomeChunk(chunks: seq<Chunk>, a: nat, len: nat) {
    exists c :: 0 <= c < |chunks| && chunks[c].start <= a && a + len <= ChunkEnd(chunks[c])
  }

  /** The new place of block `k` lies in a chunk, is disjoint from earlier places,
      and overlaps no later block of the old heap. */
  ghost predicate PlaceGood(chunks: seq<Chunk>, bl: seq<Blk>, live: seq<bool>, na: seq<nat>, k: nat)
    requires k < |bl| == |live| == |na|
  {
    live[k] ==>
      && InSomeChunk(chunks, na[k], 1 + bl[k].wosize)
      && (forall i :: 0 <= i < k && live[i] ==>
            na[i] + 1 + bl[i].wosize <= na[k] || na[k] + 1 + bl[k].wosize <= na[i])
      && (forall l :: k < l < |bl| ==> na[k] + 1 + bl[k].wosize <= bl[l].hp || End(bl[l]) <= na[k])
  }

  /** The slide is sound for every block. */
  ghost predicate GoodPlaces(chunks: seq<Chunk>, bl: seq<Blk>, live: seq<bool>, na: seq<nat>) {
    && |live| == |bl| == |na|
    && forall k {:trigger PlaceGood(chunks, bl, live, na, k)} :: 0 <= k < |bl| ==> PlaceGood(chunks, bl, live, na, k)
  }

  ghost predicate CanPlaceAt(chunks: seq<Chunk>, bl: seq<Blk>, live: seq<bool>, plan: seq<Alloc>, k: nat)
    requires k < |bl| == |live| == |plan| - 1
  {
    live[k] ==> AllocOk(chunks, plan[k]) && CanPlace(chunks, plan[k], 1 + bl[k].wosize)
  }

  ghost predicate HavePlaces(chunks: seq<Chunk>, bl: seq<Blk>, live: seq<bool>, plan: seq<Alloc>) {
    && |bl| == |live| == |plan| - 1
    && forall k {:trigger CanPlaceAt(chunks, bl, live, plan, k)} :: 0 <= k < |bl| ==>
      CanPlaceAt(chunks, bl, live, plan, k)
  }

  /** The slide is sound: every live block finds room, in a good place. */
  lemma SlideSound(chunks: seq<Chunk>, bl: seq<Blk>, live: seq<bool>, plan: seq<Alloc>, na: seq<nat>)
    requires Tiled(chunks, bl)
    requires IsPlan(chunks, bl, live, plan, na) && NullFree(chunks, live, plan)
    ensures HavePlaces(chunks, bl, live, plan) && GoodPlaces(chunks, bl, live, na)
  {
    forall k | 0 <= k < |bl|
      ensures CanPlaceAt(chunks, bl, live, plan, k) && PlaceGood(chunks, bl, live, na, k)
    {
      if live[k] {
        PlaceIsGood(chunks, bl, live, plan, na, k);
      }
    }
  }

  lemma PlaceIsGood(chunks: seq<Chunk>, bl: seq<Blk>, live: seq<bool>, plan: seq<Alloc>, na: seq<nat>, k: nat)
    requires Tiled(chunks, bl) && k < |bl|
    requires IsPlan(chunks, bl, live, plan, na) && NullFree(chunks, live, plan) && live[k]
    ensures CanPlaceAt(chunks, bl, live, plan, k) && PlaceGood(chunks, bl, live, na, k)
  {
    var c := SlidesDown(chunks, bl, live, plan, na, k);
    forall i | 0 <= i < k && live[i]
      ensures na[i] + 1 + bl[i].wosize <= na[k] || na[k] + 1 + bl[k].wosize <= na[i]
    {
      PlacesDisjoint(chunks, bl, live, plan, na, i, k);
    }
    forall l | k < l < |bl|
      ensures na[k] + 1 + bl[k].wosize <= bl[l].hp || End(bl[l]) <= na[k]
    {
      PlaceClear(chunks, bl, live, plan, na, k, l);
    }
  }

  lemma MoveStart(chunks: seq<Chunk>, bl: seq<Blk>, live: seq<bool>, na: seq<nat>, m3: seq<Word>)
    requires |na| == |bl| && Decoded(chunks, bl, live, m3)
    ensures Moved(chunks, bl, live, na, m3, m3, 0)
  {
  }

  lemma MoveCopies(m3: seq<Word>, m: seq<Word>, q: nat, p: nat, sz: nat)
    requires q + sz <= |m| && Same(m3, m, p, sz)
    ensures Kept(m3, Memmove(m, q, p, sz), p, q, sz)
  {
  }

  lemma MoveSpares(m3: seq<Word>, m: seq<Word>, q: nat, p: nat, sz: nat, from: nat, to: nat, len: nat)
    requires q + sz <= |m| && p + sz <= |m| && (to + len <= q || q + sz <= to)
    ensures Kept(m3, m, from, to, len) ==> Kept(m3, Memmove(m, q, p, sz), from, to, len)
    ensures Same(m3, m, to, len) ==> Same(m3, Memmove(m, q, p, sz), to, len)
  {
  }

  lemma MoveSparesOutside(chunks: seq<Chunk>, m: seq<Word>, q: nat, p: nat, sz: nat, c: nat, a: nat)
    requires q + sz <= |m| && p + sz <= |m| && a < |m|
    requires c < |chunks| && chunks[c].start <= q && q + sz <= ChunkEnd(chunks[c]) && !InHeap(chunks, a)
    ensures Memmove(m, q, p, sz)[a] == m[a]
  {
    assert !(chunks[c].start <= a < ChunkEnd(chunks[c]));
  }

  lemma MoveKeepsMoved(chunks: seq<Chunk>, bl: seq<Blk>, live: seq<bool>, na: seq<nat>, m3: seq<Word>, m: seq<Word>,
                       k: nat, i: nat)
    requires k < |bl| == |live| == |na| && live[k] && PlaceGood(chunks, bl, live, na, k) && i <= k && live[i]
    requires na[k] + 1 + bl[k].wosize <= |m| && Same(m3, m, bl[k].hp, 1 + bl[k].wosize)
    requires i < k ==> Kept(m3, m, bl[i].hp, na[i], 1 + bl[i].wosize)
    ensures Kept(m3, Memmove(m, na[k], bl[k].hp, 1 + bl[k].wosize), bl[i].hp, na[i], 1 + bl[i].wosize)
  {
    if i < k {
      MoveSpares(m3, m, na[k], bl[k].hp, 1 + bl[k].wosize, bl[i].hp, na[i], 1 + bl[i].wosize);
    } else {
      MoveCopies(m3, m, na[k], bl[k].hp, 1 + bl[k].wosize);
    }
  }

  lemma MoveKeepsUnmoved(chunks: seq<Chunk>, bl: seq<Blk>, live: seq<bool>, na: seq<nat>, m3: seq<Word>, m: seq<Word>,
                         k: nat, l: nat)
    requires k < |bl| == |live| == |na| && live[k] && PlaceGood(chunks, bl, live, na, k) && k < l < |bl|
    requires na[k] + 1 + bl[k].wosize <= |m| && bl[k].hp + 1 + bl[k].wosize <= |m|
    requires Same(m3, m, bl[l].hp, 1 + bl[l].wosize)
    ensures Same(m3, Memmove(m, na[k], bl[k].hp, 1 + bl[k].wosize), bl[l].hp, 1 + bl[l].wosize)
  {
    MoveSpares(m3, m, na[k], bl[k].hp, 1 + bl[k].wosize, 0, bl[l].hp, 1 + bl[l].wosize);
  }

  lemma MoveFits(chunks: seq<Chunk>, bl: seq<Blk>, live: seq<bool>, na: seq<nat>, k: nat, n: nat) returns (c: nat)
    requires k < |bl| == |live| == |na| && live[k] && PlaceGood(chunks, bl, live, na, k)
    requires forall c :: 0 <= c < |chunks| ==> ChunkEnd(chunks[c]) <= n
    ensures c < |chunks| && chunks[c].start <= na[k] && na[k] + 1 + bl[k].wosize <= ChunkEnd(chunks[c]) <= n
  {
    c :| 0 <= c < |chunks| && chunks[c].start <= na[k] && na[k] + 1 + bl[k].wosize <= ChunkEnd(chunks[c]);
  }

  /** One block is moved: earlier moves, later blocks and outside words survive. */
  lemma MoveKeeps(chunks: seq<Chunk>, bl: seq<Blk>, live: seq<bool>, na: seq<nat>, m3: seq<Word>, m: seq<Word>, k: nat)
    requires k < |bl| == |live| == |na| && live[k] && PlaceGood(chunks, bl, live, na, k)
    requires Moved(chunks, bl, live, na, m3, m, k)
    requires forall c :: 0 <= c < |chunks| ==> ChunkEnd(chunks[c]) <= |m|
    ensures na[k] + 1 + bl[k].wosize <= |m| && bl[k].hp + 1 + bl[k].wosize <= |m|
    ensures Moved(chunks, bl, live, na, m3, Memmove(m, na[k], bl[k].hp, 1 + bl[k].wosize), k + 1)
  {
    var c := MoveFits(chunks, bl, live, na, k, |m|);
    assert Same(m3, m, bl[k].hp, 1 + bl[k].wosize);
    var mem := Memmove(m, na[k], bl[k].hp, 1 + bl[k].wosize);
    forall i | 0 <= i < k + 1 && live[i]
      ensures Kept(m3, mem, bl[i].hp, na[i], 1 + bl[i].wosize)
    {
      MoveKeepsMoved(chunks, bl, live, na, m3, m, k, i);
    }
    forall l | k + 1 <= l < |bl|
      ensures Same(m3, mem, bl[l].hp, 1 + bl[l].wosize)
    {
      MoveKeepsUnmoved(chunks, bl, live, na, m3, m, k, l);
    }
    forall a | 0 <= a < |m| && !InHeap(chunks, a)
      ensures mem[a] == m3[a]
    {
      MoveSparesOutside(chunks, m, na[k], bl[k].hp, 1 + bl[k].wosize, c, a);
    }
  }

  /** The header that the fourth pass reads at block `k`. */
  lemma MoveHeader(chunks: seq<Chunk>, bl: seq<Blk>, live: seq<bool>, na: seq<nat>, m3: seq<Word>, mem: seq<Word>,
                   k: nat)
    requires k < |bl| && Decoded(chunks, bl, live, m3) && Moved(chunks, bl, live, na, m3, mem, k)
    ensures End(bl[k]) <= |mem| && mem[bl[k].hp].Header? && mem[bl[k].hp].wosize == bl[k].wosize
    ensures mem[bl[k].hp].color == White <==> live[k]
  {
    assert Same(m3, mem, bl[k].hp, 1 + bl[k].wosize);
  }

  lemma MoveStep(chunks: seq<Chunk>, bl: seq<Blk>, live: seq<bool>, na: seq<nat>, m3: seq<Word>, mem: seq<Word>, k: nat)
    requires k < |bl| && Decoded(chunks, bl, live, m3) && GoodPlaces(chunks, bl, live, na)
    requires Moved(chunks, bl, live, na, m3, mem, k)
    ensures End(bl[k]) <= |mem| && mem[bl[k].hp].Header? && mem[bl[k].hp].wosize == bl[k].wosize
    ensures live[k] ==> na[k] + 1 + bl[k].wosize <= |mem|
    ensures mem[bl[k].hp].color == White <==> live[k]
    ensures Moved(chunks, bl, live, na, m3, AfterMove(mem, bl[k].hp, na[k]), k + 1)
  {
    MoveHeader(chunks, bl, live, na, m3, mem, k);
    if live[k] {
      assert PlaceGood(chunks, bl, live, na, k);
      MoveKeeps(chunks, bl, live, na, m3, mem, k);
    }
  }

  lemma MoveReady(chunks: seq<Chunk>, bl: seq<Blk>, live: seq<bool>, plan: seq<Alloc>, na: seq<nat>, mem: seq<Word>,
                  k: nat)
    requires k < |bl| && IsPlan(chunks, bl, live, plan, na) && HavePlaces(chunks, bl, live, plan)
    requires End(bl[k]) <= |mem| && mem[bl[k].hp].Header? && mem[bl[k].hp].wosize == bl[k].wosize
    requires mem[bl[k].hp].color == White <==> live[k]
    requires live[k] ==> na[k] + 1 + bl[k].wosize <= |mem|
    ensures CanMove(chunks, plan[k], mem, bl[k].hp, na[k])
    ensures PlaceIf(chunks, plan[k], 1 + bl[k].wosize, mem[bl[k].hp].color == White) == plan[k + 1]
  {
    assert StepOk(chunks, bl, live, plan, na, k);
    assert CanPlaceAt(chunks, bl, live, plan, k);
  }

  lemma InvertedHead(bl: seq<Blk>, slots: seq<nat>, m0: seq<Word>, mem: seq<Word>, n: nat, t: nat, i: nat)
    requires InBounds(m0, bl, slots) && Separate(bl, slots)
    requires n < |slots| && t < |bl| && m0[slots[n]] == Pointer(bl[t].hp + 1) && i < |bl|
    requires |mem| == |m0| && mem[bl[i].hp] == HeadWord(m0, bl, slots, n, 0, i)
    ensures mem[slots[n] := mem[bl[t].hp]][bl[t].hp := Pointer(slots[n])][bl[i].hp] ==
            HeadWord(m0, bl, slots, n + 1, 0, i)
  {
    assert bl[i].hp != slots[n];
    if i != t {
      assert bl[i].hp != bl[t].hp;
    }
  }

  lemma InvertedSlot(bl: seq<Blk>, slots: seq<nat>, m0: seq<Word>, mem: seq<Word>, n: nat, t: nat, j: nat)
    requires InBounds(m0, bl, slots) && Separate(bl, slots)
    requires n < |slots| && t < |bl| && m0[slots[n]] == Pointer(bl[t].hp + 1) && j < |slots|
    requires |mem| == |m0| && mem[bl[t].hp] == HeadWord(m0, bl, slots, n, 0, t)
    requires mem[slots[j]] == SlotWord(m0, bl, slots, n, 0, [], j)
    ensures mem[slots[n] := mem[bl[t].hp]][bl[t].hp := Pointer(slots[n])][slots[j]] ==
            SlotWord(m0, bl, slots, n + 1, 0, [], j)
  {
    assert bl[t].hp != slots[j];
    if j == n {
      assert Target(bl, m0[slots[n]]) == t;
    } else {
      assert slots[j] != slots[n];
    }
  }

  /** Threading slot `n` onto the block it refers to. */
  lemma InvertedShape(bl: seq<Blk>, slots: seq<nat>, m0: seq<Word>, mem: seq<Word>, n: nat, t: nat)
    requires InBounds(m0, bl, slots) && Separate(bl, slots)
    requires n < |slots| && t < |bl| && m0[slots[n]] == Pointer(bl[t].hp + 1)
    requires Shape(m0, mem, bl, slots, n, 0, [])
    ensures Shape(m0, mem[slots[n] := mem[bl[t].hp]][bl[t].hp := Pointer(slots[n])], bl, slots, n + 1, 0, [])
  {
    var mem' := mem[slots[n] := mem[bl[t].hp]][bl[t].hp := Pointer(slots[n])];
    forall i | 0 <= i < |bl|
      ensures mem'[bl[i].hp] == HeadWord(m0, bl, slots, n + 1, 0, i)
    {
      assert mem[bl[i].hp] == HeadWord(m0, bl, slots, n, 0, i);
      InvertedHead(bl, slots, m0, mem, n, t, i);
    }
    forall j | 0 <= j < |slots|
      ensures mem'[slots[j]] == SlotWord(m0, bl, slots, n + 1, 0, [], j)
    {
      assert mem[slots[j]] == SlotWord(m0, bl, slots, n, 0, [], j);
      assert mem[bl[t].hp] == HeadWord(m0, bl, slots, n, 0, t);
      InvertedSlot(bl, slots, m0, mem, n, t, j);
    }
  }

  /** A slot that refers to no block is left alone. */
  lemma UnchangedShape(bl: seq<Blk>, slots: seq<nat>, m0: seq<Word>, mem: seq<Word>, n: nat)
    requires InBounds(m0, bl, slots)
    requires n < |slots| && Target(bl, m0[slots[n]]) == -1
    requires Shape(m0, mem, bl, slots, n, 0, [])
    ensures Shape(m0, mem, bl, slots, n + 1, 0, [])
  {
    forall i | 0 <= i < |bl|
      ensures mem[bl[i].hp] == HeadWord(m0, bl, slots, n + 1, 0, i)
    {
      assert mem[bl[i].hp] == HeadWord(m0, bl, slots, n, 0, i);
      assert m0[slots[n]] != Pointer(bl[i].hp + 1);
    }
    forall j | 0 <= j < |slots|
      ensures mem[slots[j]] == SlotWord(m0, bl, slots, n + 1, 0, [], j)
    {
      assert mem[slots[j]] == SlotWord(m0, bl, slots, n, 0, [], j);
    }
  }

  lemma RevertedDecoded(chunks: seq<Chunk>, roots: seq<nat>, bl: seq<Blk>, m0: seq<Word>, m3: seq<Word>, na: seq<nat>)
    requires WellFormed(chunks, roots, bl, m0) && |na| == |bl|
    requires Shape(m0, m3, bl, Slots(roots, bl), |Slots(roots, bl)|, |bl|, na)
    ensures Decoded(chunks, bl, LiveMap(roots, bl, m0), m3)
  {
    var slots := Slots(roots, bl);
    forall k | 0 <= k < |bl|
      ensures End(bl[k]) <= |m3|
      ensures m3[bl[k].hp] == HeadWord(m0, bl, slots, |slots|, |bl|, k)
    {
      InChunk(chunks, bl, k);
    }
  }

  /** After the third pass a field reads as it must in the new heap. */
  lemma RevertedField(chunks: seq<Chunk>, roots: seq<nat>, bl: seq<Blk>, m0: seq<Word>, m3: seq<Word>, na: seq<nat>,
                      i: nat, x: nat)
    requires Tiled(chunks, bl) && RootsOk(chunks, roots) && |na| == |bl| && i < |bl| && x < bl[i].wosize
    requires End(bl[i]) <= |m0|
    requires Shape(m0, m3, bl, Slots(roots, bl), |Slots(roots, bl)|, |bl|, na)
    ensures m3[bl[i].hp + 1 + x] == NewField(bl, na, m0, bl[i], x)
  {
    var slots, a := Slots(roots, bl), bl[i].hp + 1 + x;
    if Scanned(bl[i]) {
      FieldSlotAt(bl, i, x);
      var j := VisitedBefore(roots, bl, i) + x;
      assert slots[j] == a;
      assert m3[slots[j]] == SlotWord(m0, bl, slots, |slots|, |bl|, na, j);
    } else {
      UnscannedOther(chunks, roots, bl, i, a);
    }
  }

  lemma UnscannedOther(chunks: seq<Chunk>, roots: seq<nat>, bl: seq<Blk>, i: nat, a: nat)
    requires Tiled(chunks, bl) && RootsOk(chunks, roots)
    requires i < |bl| && !Scanned(bl[i]) && bl[i].hp < a < End(bl[i])
    ensures Other(bl, Slots(roots, bl), a)
  {
    InChunk(chunks, bl, i);
    var c := bl[i].chunk;
    assert chunks[c].start <= a < ChunkEnd(chunks[c]);
    assert InHeap(chunks, a);
    forall k | 0 <= k < |bl| ensures bl[k].hp != a {
      if k < i { Disjoint(chunks, bl, k, i); } else if i < k { Disjoint(chunks, bl, i, k); }
    }
    var slots := Slots(roots, bl);
    forall j | 0 <= j < |slots| ensures slots[j] != a {
      if j >= |roots| {
        var o := FieldSlotOwner(bl, j - |roots|);
        if o < i { Disjoint(chunks, bl, o, i); } else if i < o { Disjoint(chunks, bl, i, o); }
      }
    }
  }

  lemma BlockCompacted(chunks: seq<Chunk>, roots: seq<nat>, bl: seq<Blk>, m0: seq<Word>, m3: seq<Word>, mem: seq<Word>,
                       na: seq<nat>, i: nat)
    requires Tiled(chunks, bl) && RootsOk(chunks, roots) && |na| == |bl| && i < |bl| && End(bl[i]) <= |m0|
    requires Shape(m0, m3, bl, Slots(roots, bl), |Slots(roots, bl)|, |bl|, na)
    requires Kept(m3, mem, bl[i].hp, na[i], 1 + bl[i].wosize)
    requires Live(m0, Slots(roots, bl), bl[i])
    ensures BlockAt(bl, na, m0, mem, bl[i], na[i])
  {
    var slots := Slots(roots, bl);
    assert m3[bl[i].hp] == HeadWord(m0, bl, slots, |slots|, |bl|, i);
    assert mem[na[i]] == m3[bl[i].hp + (na[i] - na[i])];
    forall a | na[i] < a <= na[i] + bl[i].wosize
      ensures mem[a] == NewField(bl, na, m0, bl[i], a - na[i] - 1)
    {
      assert mem[a] == m3[bl[i].hp + (a - na[i])];
      RevertedField(chunks, roots, bl, m0, m3, na, i, a - na[i] - 1);
    }
  }

  /** Reverted then moved means compacted. */
  lemma CompactionCorrect(chunks: seq<Chunk>, roots: seq<nat>, bl: seq<Blk>, m0: seq<Word>, m3: seq<Word>,
                          mem: seq<Word>, na: seq<nat>)
    requires WellFormed(chunks, roots, bl, m0) && |na| == |bl|
    requires Shape(m0, m3, bl, Slots(roots, bl), |Slots(roots, bl)|, |bl|, na)
    requires Moved(chunks, bl, LiveMap(roots, bl, m0), na, m3, mem, |bl|)
    ensures Compacted(roots, bl, m0, mem, LiveMap(roots, bl, m0), na)
  {
    var live := LiveMap(roots, bl, m0);
    forall i | 0 <= i < |bl| && live[i]
      ensures BlockAt(bl, na, m0, mem, bl[i], na[i])
    {
      InChunk(chunks, bl, i);
      BlockCompacted(chunks, roots, bl, m0, m3, mem, na, i);
    }
    forall r | 0 <= r < |roots|
      ensures roots[r] < |mem| && mem[roots[r]] == Relocate(bl, na, m0[roots[r]])
    {
      RootReverted(roots, bl, m0, m3, na, r);
    }
  }

  lemma RootReverted(roots: seq<nat>, bl: seq<Blk>, m0: seq<Word>, m3: seq<Word>, na: seq<nat>, r: nat)
    requires r < |roots| && |na| == |bl|
    requires Shape(m0, m3, bl, Slots(roots, bl), |Slots(roots, bl)|, |bl|, na)
    ensures roots[r] < |m3| && m3[roots[r]] == Relocate(bl, na, m0[roots[r]])
  {
    var slots := Slots(roots, bl);
    assert slots[r] == roots[r];
    assert m3[slots[r]] == SlotWord(m0, bl, slots, |slots|, |bl|, na, r);
  }

  /** A block that a root or a field denotes is live, so that relocation never produces a
      pointer to a block that was not moved. */
  ghost predicate Closed(roots: seq<nat>, bl: seq<Blk>, m0: seq<Word>) {
    var slots := Slots(roots, bl);
    SlotsIn(m0, slots) &&
    forall j :: 0 <= j < |slots| && Target(bl, m0[slots[j]]) >= 0 ==> LiveMap(roots, bl, m0)[Target(bl, m0[slots[j]])]
  }

  lemma DenotedIsLive(roots: seq<nat>, bl: seq<Blk>, m0: seq<Word>)
    requires SlotsIn(m0, Slots(roots, bl))
    ensures Closed(roots, bl, m0)
  {
    var slots := Slots(roots, bl);
    forall j | 0 <= j < |slots| && Target(bl, m0[slots[j]]) >= 0
      ensures LiveMap(roots, bl, m0)[Target(bl, m0[slots[j]])]
    {
      var t := Target(bl, m0[slots[j]]);
      assert m0[slots[j]] == Pointer(bl[t].hp + 1);
      assert LastRef(m0, slots, |slots|, bl[t].hp + 1) >= j;
    }
  }

  // ----- When the allocator stays off the NULL chunk -----

  lemma {:induction false} SkipNullIff(chunks: seq<Chunk>, used: seq<nat>, fl: nat)
    requires fl < |chunks| == |used|
    ensures SkipFull(chunks, used, fl) == |chunks| <==>
            forall d :: fl <= d < |chunks| ==> Left(chunks, used, d) <= 4
    decreases |chunks| - fl
  {
    if Left(chunks, used, fl) <= 4 && fl + 1 < |chunks| {
      SkipNullIff(chunks, used, fl + 1);
    }
  }

  /** Chunks before `compact_fl` have at most four words left. */
  lemma {:induction false} PassedFull(chunks: seq<Chunk>, bl: seq<Blk>, live: seq<bool>, plan: seq<Alloc>, na: seq<nat>,
                                      k: nat)
    requires IsPlan(chunks, bl, live, plan, na) && k <= |bl|
    ensures AllocOk(chunks, plan[k])
    ensures forall d :: 0 <= d < plan[k].fl ==> Left(chunks, plan[k].used, d) <= 4
  {
    if k > 0 {
      PassedFull(chunks, bl, live, plan, na, k - 1);
      assert StepOk(chunks, bl, live, plan, na, k - 1);
      forall d | 0 <= d < plan[k].fl ensures Left(chunks, plan[k].used, d) <= 4 {
        PlaceMonotone(chunks, plan[k - 1], 1 + bl[k - 1].wosize, live[k - 1], d);
        assert Left(chunks, plan[k - 1].used, d) <= 4;
      }
    }
  }

  ghost predicate AllNearlyFull(chunks: seq<Chunk>, st: Alloc)
    requires |st.used| == |chunks|
  {
    forall d :: 0 <= d < |chunks| ==> Left(chunks, st.used, d) <= 4
  }

  /** The allocator reads past the last chunk exactly when, before the placement
      of some live block, every chunk has at most four words left. The states
      `plan` of the allocator are determined by the sizes of the chunks and of the
      live blocks, so that this can be decided before the compaction. */
  lemma NullChunkIff(chunks: seq<Chunk>, bl: seq<Blk>, live: seq<bool>, plan: seq<Alloc>, na: seq<nat>)
    requires IsPlan(chunks, bl, live, plan, na)
    ensures !NullFree(chunks, live, plan) <==>
            exists k :: 0 <= k < |bl| && live[k] && |plan[k].used| == |chunks| && AllNearlyFull(chunks, plan[k])
  {
    forall k | 0 <= k < |bl| && live[k]
      ensures AllocOk(chunks, plan[k])
      ensures NullFreeAt(chunks, plan[k]) <==> !AllNearlyFull(chunks, plan[k])
    {
      PassedFull(chunks, bl, live, plan, na, k);
      SkipNullIff(chunks, plan[k].used, plan[k].fl);
    }
  }

  /** The words of the live blocks among the first `k` that lie in chunk `c`. */
  ghost function LiveWords(bl: seq<Blk>, live: seq<bool>, c: nat, k: nat): nat
    requires k <= |bl| == |live|
  {
    if k == 0 then 0
    else LiveWords(bl, live, c, k - 1) + if live[k - 1] && bl[k - 1].chunk == c then 1 + bl[k - 1].wosize else 0
  }

  lemma {:induction false} LiveWordsMonotone(bl: seq<Blk>, live: seq<bool>, c: nat, i: nat, k: nat)
    requires i <= k <= |bl| == |live|
    ensures LiveWords(bl, live, c, i) <= LiveWords(bl, live, c, k)
    decreases k - i
  {
    if i < k {
      LiveWordsMonotone(bl, live, c, i, k - 1);
    }
  }

  ghost predicate Slack(chunks: seq<Chunk>, bl: seq<Blk>, live: seq<bool>)
    requires |chunks| > 0 && |live| == |bl|
  {
    LiveWords(bl, live, |chunks| - 1, |bl|) + 4 < chunks[|chunks| - 1].size
  }

  ghost predicate SlackInv(chunks: seq<Chunk>, bl: seq<Blk>, live: seq<bool>, st: Alloc, k: nat)
    requires Tiled(chunks, bl) && k <= |bl| == |live|
  {
    && AllocOk(chunks, st) && Behind(chunks, bl, st, k)
    && st.used[|chunks| - 1] <= LiveWords(bl, live, |chunks| - 1, k)
  }

  lemma SlackRoom(chunks: seq<Chunk>, bl: seq<Blk>, live: seq<bool>, st: Alloc, k: nat)
    requires Tiled(chunks, bl) && k <= |bl| == |live| && Slack(chunks, bl, live) && SlackInv(chunks, bl, live, st, k)
    ensures NullFreeAt(chunks, st)
  {
    LiveWordsMonotone(bl, live, |chunks| - 1, k, |bl|);
    RoomInLast(chunks, st);
  }

  lemma SlackStep(chunks: seq<Chunk>, bl: seq<Blk>, live: seq<bool>, st: Alloc, k: nat)
    requires Tiled(chunks, bl) && k < |bl| == |live| && Slack(chunks, bl, live) && SlackInv(chunks, bl, live, st, k)
    ensures SlackInv(chunks, bl, live, PlaceIf(chunks, st, 1 + bl[k].wosize, live[k]), k + 1)
  {
    SlackRoom(chunks, bl, live, st, k);
    BehindStep(chunks, bl, st, live[k], k);
  }

  lemma InitSlack(chunks: seq<Chunk>, bl: seq<Blk>, live: seq<bool>)
    requires Tiled(chunks, bl) && |live| == |bl|
    ensures SlackInv(chunks, bl, live, InitAlloc(chunks), 0)
  {
  }

  lemma {:induction false} SlackAt(chunks: seq<Chunk>, bl: seq<Blk>, live: seq<bool>, plan: seq<Alloc>, na: seq<nat>,
                                   k: nat)
    requires Tiled(chunks, bl) && IsPlan(chunks, bl, live, plan, na) && k <= |bl| && Slack(chunks, bl, live)
    ensures SlackInv(chunks, bl, live, plan[k], k)
  {
    if k == 0 {
      InitSlack(chunks, bl, live);
    } else {
      SlackAt(chunks, bl, live, plan, na, k - 1);
      assert StepOk(chunks, bl, live, plan, na, k - 1);
      SlackStep(chunks, bl, live, plan[k - 1], k - 1);
    }
  }

  /** With more than four free words in the last chunk, compaction is safe. */
  lemma SlackSuffices(chunks: seq<Chunk>, bl: seq<Blk>, live: seq<bool>, plan: seq<Alloc>, na: seq<nat>)
    requires Tiled(chunks, bl) && IsPlan(chunks, bl, live, plan, na) && Slack(chunks, bl, live)
    ensures NullFree(chunks, live, plan)
  {
    forall k | 0 <= k < |bl| && live[k]
      ensures AllocOk(chunks, plan[k]) && NullFreeAt(chunks, plan[k])
    {
      SlackAt(chunks, bl, live, plan, na, k);
      SlackRoom(chunks, bl, live, plan[k], k);
    }
  }

  lemma RoomInLast(chunks: seq<Chunk>, st: Alloc)
    requires |chunks| > 0 && AllocOk(chunks, st) && Left(chunks, st.used, |chunks| - 1) > 4
    ensures NullFreeAt(chunks, st)
  {
    SkipNullIff(chunks, st.used, st.fl);
  }

  // ----- A heap that the code cannot compact -----

  /** One chunk of two pages, which two strings fill, and two roots that hold them. */
  const FULL_CHUNKS := [Chunk(0, 1024)]
  const FULL_BLOCKS := [Blk(0, 1019, STRING_TAG, false, 0), Blk(1020, 3, STRING_TAG, false, 0)]
  const FULL_ROOTS: seq<nat> := [1024, 1025]

  function FullWord(a: nat): Word {
    if a == 0 then Header(1019, STRING_TAG, White)
    else if a == 1020 then Header(3, STRING_TAG, White)
    else if a == 1024 then Pointer(1)
    else if a == 1025 then Pointer(1021)
    else Data(1)
  }

  ghost function FullMemory(): seq<Word> { seq(1026, a requires a >= 0 => FullWord(a)) }

  lemma FullSlots()
    ensures Slots(FULL_ROOTS, FULL_BLOCKS) == FULL_ROOTS && SlotsIn(FullMemory(), FULL_ROOTS)
  {
    var bl := FULL_BLOCKS;
    assert FieldSlots(bl[..1][..0]) == [];
    assert FieldSlots(bl[..1]) == [];
    assert bl[..|bl| - 1] == bl[..1];
  }

  lemma FullHeapTiled()
    ensures Tiled(FULL_CHUNKS, FULL_BLOCKS) && RootsOk(FULL_CHUNKS, FULL_ROOTS)
  {
  }

  /** This heap is well formed, and both blocks are referenced. */
  lemma FullHeapWellFormed()
    ensures WellFormed(FULL_CHUNKS, FULL_ROOTS, FULL_BLOCKS, FullMemory())
    ensures LiveMap(FULL_ROOTS, FULL_BLOCKS, FullMemory()) == [true, true]
  {
    FullSlots();
    FullHeapTiled();
    var m0, slots := FullMemory(), FULL_ROOTS;
    assert m0[slots[0]] == Pointer(FULL_BLOCKS[0].hp + 1) && m0[slots[1]] == Pointer(FULL_BLOCKS[1].hp + 1);
    assert InHeap(FULL_CHUNKS, 1) && InHeap(FULL_CHUNKS, 1021) by {
      assert FULL_CHUNKS[0].start <= 1 < 1021 < ChunkEnd(FULL_CHUNKS[0]);
    }
  }

  /** Once the first block is placed four words are left in the only chunk: to place the second
      block the allocator goes on to the next chunk, and reads the size of the NULL chunk. */
  lemma FullHeapReadsNull(plan: seq<Alloc>, na: seq<nat>)
    requires IsPlan(FULL_CHUNKS, FULL_BLOCKS, [true, true], plan, na)
    ensures WellFormed(FULL_CHUNKS, FULL_ROOTS, FULL_BLOCKS, FullMemory())
    ensures !NullFree(FULL_CHUNKS, LiveMap(FULL_ROOTS, FULL_BLOCKS, FullMemory()), plan)
  {
    FullHeapWellFormed();
    assert StepOk(FULL_CHUNKS, FULL_BLOCKS, [true, true], plan, na, 0);
    assert SkipFull(FULL_CHUNKS, plan[0].used, 0) == 0;
    assert Left(FULL_CHUNKS, plan[1].used, 0) == 4;
    assert !NullFreeAt(FULL_CHUNKS, plan[1]);
  }
}
