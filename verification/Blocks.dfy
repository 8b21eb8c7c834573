/**
 The major heap as a map from header addresses to blocks, and what the allocator
 and the sweeper do to the tiling of the chunks: splitting a free block
 (`allocate_block_r`) and merging a dead one (`caml_fl_merge_block_r`).
 */
module Blocks {
  import opened Mlvalues

  /** A value: an immediate integer, or a pointer to the block whose header is at
      `hp`.  A positive `ofs` makes it an infix pointer into that block. */
  datatype Value = Long(n: int) | Ptr(hp: nat, ofs: nat)

  /** `fields` is meaningful for used blocks only. */
  datatype Block = Block(wosize: nat, tag: nat, color: Color, fields: seq<Value>)

  type Heap = map<nat, Block>

  function End(h: Heap, a: nat): nat
    requires a in h
  {
    a + 1 + h[a].wosize
  }

  ghost predicate ChunkBefore(chunks: seq<Chunk>, c: nat, d: nat) {
    c < |chunks| && d < |chunks| && ChunkEnd(chunks[c]) < chunks[d].start
  }

  /** Chunks are sorted by address; the head of a chunk separates it from the
      chunk before it. */
  ghost predicate SortedChunks(chunks: seq<Chunk>) {
    && |chunks| > 0
    && (forall c :: 0 <= c < |chunks| ==> chunks[c].size > 0)
    && (forall c, d {:trigger ChunkBefore(chunks, c, d)} :: 0 <= c < d < |chunks| ==> ChunkBefore(chunks, c, d))
  }

  ghost predicate InChunk(chunks: seq<Chunk>, c: nat, a: nat, e: nat) {
    c < |chunks| && chunks[c].start <= a && e <= ChunkEnd(chunks[c])
  }

  /** Block `a` lies in chunk `c` and is followed there by a block or the end. */
  ghost predicate FitsIn(h: Heap, chunks: seq<Chunk>, c: nat, a: nat) {
    && a in h && InChunk(chunks, c, a, End(h, a))
    && (End(h, a) == ChunkEnd(chunks[c]) || End(h, a) in h)
  }

  ghost predicate Fits(h: Heap, chunks: seq<Chunk>, a: nat) {
    exists c :: FitsIn(h, chunks, c, a)
  }

  ghost predicate Before(h: Heap, a: nat, b: nat) {
    a in h && End(h, a) <= b
  }

  /** Every chunk is exactly tiled by blocks. */
  ghost predicate Tiled(h: Heap, chunks: seq<Chunk>) {
    && SortedChunks(chunks)
    && (forall c :: 0 <= c < |chunks| ==> chunks[c].start in h)
    && (forall a {:trigger Fits(h, chunks, a)} :: a in h ==> Fits(h, chunks, a))
    && (forall a, b {:trigger Before(h, a, b)} :: a in h && b in h && a < b ==> Before(h, a, b))
  }

  /** A block that ends where another begins lies in the same chunk. */
  lemma SameChunk(h: Heap, chunks: seq<Chunk>, a: nat, b: nat, c: nat, d: nat)
    requires SortedChunks(chunks) && FitsIn(h, chunks, c, a) && FitsIn(h, chunks, d, b) && End(h, a) == b
    ensures c == d
  {
    assert c < d ==> ChunkBefore(chunks, c, d);
    assert d < c ==> ChunkBefore(chunks, d, c);
  }

  // ----- Splitting a free block -----

  predicate CanSplit(h: Heap, a: nat, wosize: nat) {
    a in h && h[a].color == Blue && h[a].wosize >= wosize >= 1
  }

  /** The header address of a block of `wosize` words taken from the right end of
      the free block `a`. */
  function SplitHp(h: Heap, a: nat, wosize: nat): (hp: nat)
    requires CanSplit(h, a, wosize)
    ensures a <= hp && hp + 1 + wosize == End(h, a)
  {
    a + h[a].wosize - wosize
  }

  /** What is left at `a`: a one-word white fragment, or a smaller free block. */
  function SplitRest(h: Heap, a: nat, wosize: nat): Block
    requires CanSplit(h, a, wosize) && h[a].wosize > wosize
  {
    if h[a].wosize == wosize + 1 then Block(0, 0, White, [])
    else Block(h[a].wosize - (wosize + 1), 0, Blue, [])
  }

  /** The three cases of `allocate_block_r`: take the whole block, leave a
      one-word fragment, or shrink the free block. */
  function Split(h: Heap, a: nat, b: Block): (h': Heap)
    requires CanSplit(h, a, b.wosize)
  {
    var hp := SplitHp(h, a, b.wosize);
    if h[a].wosize == b.wosize then h[a := b] else h[a := SplitRest(h, a, b.wosize)][hp := b]
  }

  lemma SplitFits(h: Heap, chunks: seq<Chunk>, a: nat, b: Block, x: nat)
    requires CanSplit(h, a, b.wosize) && Fits(h, chunks, a) && x in Split(h, a, b)
    requires x in h ==> Fits(h, chunks, x)
    ensures Fits(Split(h, a, b), chunks, x)
  {
    var h', hp := Split(h, a, b), SplitHp(h, a, b.wosize);
    var x0 := if x == hp then a else x;
    var c :| FitsIn(h, chunks, c, x0);
    assert FitsIn(h', chunks, c, x);
  }

  lemma SplitBefore(h: Heap, chunks: seq<Chunk>, a: nat, b: Block, x: nat, y: nat)
    requires Tiled(h, chunks) && CanSplit(h, a, b.wosize)
    requires x in Split(h, a, b) && y in Split(h, a, b) && x < y
    ensures Before(Split(h, a, b), x, y)
  {
    var hp := SplitHp(h, a, b.wosize);
    var x0, y0 := if x == hp then a else x, if y == hp then a else y;
    if x0 < y0 {
      assert Before(h, x0, y0);
    } else {
      assert x0 != y0 ==> Before(h, y0, x0);
    }
  }

  lemma SplitTiled(h: Heap, chunks: seq<Chunk>, a: nat, b: Block)
    requires Tiled(h, chunks) && CanSplit(h, a, b.wosize)
    ensures Tiled(Split(h, a, b), chunks)
  {
    forall x | x in Split(h, a, b) ensures Fits(Split(h, a, b), chunks, x) {
      assert x in h ==> Fits(h, chunks, x);
      assert Fits(h, chunks, a);
      SplitFits(h, chunks, a, b, x);
    }
    forall x, y | x in Split(h, a, b) && y in Split(h, a, b) && x < y ensures Before(Split(h, a, b), x, y) {
      SplitBefore(h, chunks, a, b, x, y);
    }
  }

  /** The address that a split hands out was not a header, unless it is `a`. */
  lemma SplitFresh(h: Heap, chunks: seq<Chunk>, a: nat, wosize: nat)
    requires Tiled(h, chunks) && CanSplit(h, a, wosize)
    ensures SplitHp(h, a, wosize) == a || SplitHp(h, a, wosize) !in h
  {
    var hp := SplitHp(h, a, wosize);
    assert hp != a && hp in h ==> Before(h, a, hp);
  }

  // ----- Coalescing a stretch of blocks -----

  /** One free block in place of all the blocks from `s` to `e`. */
  function Coalesce(h: Heap, s: nat, e: nat): Heap
    requires s < e
  {
    (map x | x in h && !(s <= x < e) :: h[x])[s := Block(e - s - 1, 0, Blue, [])]
  }

  lemma CoalesceFits(h: Heap, chunks: seq<Chunk>, s: nat, z: nat, c: nat, x: nat)
    requires Tiled(h, chunks) && s in h && FitsIn(h, chunks, c, z) && s <= z && chunks[c].start <= s
    requires x in Coalesce(h, s, End(h, z))
    ensures Fits(Coalesce(h, s, End(h, z)), chunks, x)
  {
    var h' := Coalesce(h, s, End(h, z));
    if x == s {
      assert FitsIn(h', chunks, c, s);
    } else {
      assert Fits(h, chunks, x);
      var d :| FitsIn(h, chunks, d, x);
      assert x < s ==> Before(h, x, s);
      assert FitsIn(h', chunks, d, x);
    }
  }

  lemma CoalesceBefore(h: Heap, chunks: seq<Chunk>, s: nat, z: nat, x: nat, y: nat)
    requires Tiled(h, chunks) && s in h && z in h && s <= z
    requires x in Coalesce(h, s, End(h, z)) && y in Coalesce(h, s, End(h, z)) && x < y
    ensures Before(Coalesce(h, s, End(h, z)), x, y)
  {
    assert Before(h, x, y);
  }

  lemma CoalesceTiled(h: Heap, chunks: seq<Chunk>, s: nat, z: nat, c: nat)
    requires Tiled(h, chunks) && s in h && FitsIn(h, chunks, c, z) && s <= z && chunks[c].start <= s
    ensures Tiled(Coalesce(h, s, End(h, z)), chunks)
  {
    var h' := Coalesce(h, s, End(h, z));
    forall x | x in h' ensures Fits(h', chunks, x) {
      CoalesceFits(h, chunks, s, z, c, x);
    }
    forall x, y | x in h' && y in h' && x < y ensures Before(h', x, y) {
      CoalesceBefore(h, chunks, s, z, x, y);
    }
    forall d | 0 <= d < |chunks| ensures chunks[d].start in h' {
      if s < chunks[d].start {
        StartNotInside(h, chunks, s, z, c, d);
      }
    }
  }

  lemma StartNotInside(h: Heap, chunks: seq<Chunk>, s: nat, z: nat, c: nat, d: nat)
    requires SortedChunks(chunks) && FitsIn(h, chunks, c, z) && d < |chunks| && chunks[c].start <= s < chunks[d].start
    ensures End(h, z) <= chunks[d].start
  {
    assert c < d ==> ChunkBefore(chunks, c, d);
    assert d < c ==> ChunkBefore(chunks, d, c);
  }

  // ----- Merging a dead block into the free space -----

  /** `last_fragment` is the one-word block just before `a`. */
  predicate JoinsFragment(h: Heap, a: nat, frag: int) {
    frag >= 0 && frag + 1 == a && frag in h && a in h && h[frag].wosize == 0 && 1 + h[a].wosize <= MAX_WOSIZE
  }

  /** Start of the block `a` once the fragment before it is taken in. */
  function JoinedStart(h: Heap, a: nat, frag: int): (b: nat)
    ensures b <= a && (a in h ==> b in h)
  {
    if JoinsFragment(h, a, frag) then frag else a
  }

  /** The free block after `a` can be taken in as well. */
  predicate JoinsNext(h: Heap, a: nat, frag: int) {
    && a in h && End(h, a) in h && h[End(h, a)].color == Blue
    && End(h, End(h, a)) - JoinedStart(h, a, frag) - 1 <= MAX_WOSIZE
  }

  /** The last block that is taken in. */
  function JoinedLast(h: Heap, a: nat, frag: int): (z: nat)
    ensures a <= z && (a in h ==> z in h)
  {
    if JoinsNext(h, a, frag) then End(h, a) else a
  }

  /** Where the sweeper goes on: the end of the joined block. */
  function JoinedEnd(h: Heap, a: nat, frag: int): nat
    requires a in h
  {
    End(h, JoinedLast(h, a, frag))
  }

  datatype Prev = NoPrev | Prev(hp: nat)

  /** A free block that ends where the joined block starts and can absorb it. */
  predicate JoinsPrev(h: Heap, a: nat, frag: int, p: nat) {
    && a in h && p in h && h[p].color == Blue && End(h, p) == JoinedStart(h, a, frag)
    && JoinedEnd(h, a, frag) - p - 1 < MAX_WOSIZE
  }

  ghost predicate PrevOk(h: Heap, a: nat, frag: int, prev: Prev) {
    match prev
    case Prev(p) => JoinsPrev(h, a, frag, p)
    case NoPrev => forall p :: p in h ==> !JoinsPrev(h, a, frag, p)
  }

  /** Where the resulting free block starts. */
  function MergedStart(h: Heap, a: nat, frag: int, prev: Prev): nat {
    if prev.Prev? then prev.hp else JoinedStart(h, a, frag)
  }

  /** A lone header stays behind as a white fragment. */
  predicate StaysFragment(h: Heap, a: nat, frag: int, prev: Prev)
    requires a in h
  {
    prev.NoPrev? && JoinedEnd(h, a, frag) == JoinedStart(h, a, frag) + 1
  }

  /** `caml_fl_merge_block_r` on the block `a`. */
  function Merge(h: Heap, a: nat, frag: int, prev: Prev): Heap
    requires a in h && (prev.Prev? ==> JoinsPrev(h, a, frag, prev.hp))
  {
    if StaysFragment(h, a, frag, prev) then h
    else Coalesce(h, MergedStart(h, a, frag, prev), JoinedEnd(h, a, frag))
  }

  /** All the blocks that a merge touches lie in one chunk. */
  lemma MergeInChunk(h: Heap, chunks: seq<Chunk>, a: nat, frag: int, prev: Prev) returns (c: nat)
    requires Tiled(h, chunks) && a in h && (prev.Prev? ==> JoinsPrev(h, a, frag, prev.hp))
    ensures FitsIn(h, chunks, c, JoinedLast(h, a, frag)) && FitsIn(h, chunks, c, a)
    ensures chunks[c].start <= MergedStart(h, a, frag, prev)
  {
    assert Fits(h, chunks, a);
    c :| FitsIn(h, chunks, c, a);
    if JoinsNext(h, a, frag) {
      assert Fits(h, chunks, End(h, a));
      var d :| FitsIn(h, chunks, d, End(h, a));
      SameChunk(h, chunks, a, End(h, a), c, d);
    }
    var b := JoinedStart(h, a, frag);
    if b != a {
      assert Fits(h, chunks, b);
      var d :| FitsIn(h, chunks, d, b);
      SameChunk(h, chunks, b, a, d, c);
    }
    if prev.Prev? {
      assert Fits(h, chunks, prev.hp);
      var d :| FitsIn(h, chunks, d, prev.hp);
      assert FitsIn(h, chunks, c, b);
      SameChunk(h, chunks, prev.hp, b, d, c);
    }
  }

  lemma MergeTiled(h: Heap, chunks: seq<Chunk>, a: nat, frag: int, prev: Prev)
    requires Tiled(h, chunks) && a in h && (prev.Prev? ==> JoinsPrev(h, a, frag, prev.hp))
    ensures Tiled(Merge(h, a, frag, prev), chunks)
  {
    var c := MergeInChunk(h, chunks, a, frag, prev);
    if !StaysFragment(h, a, frag, prev) {
      CoalesceTiled(h, chunks, MergedStart(h, a, frag, prev), JoinedLast(h, a, frag), c);
    }
  }

  /** A merge swallows only `a` itself, fragments and free blocks. */
  lemma MergeSwallows(h: Heap, chunks: seq<Chunk>, a: nat, frag: int, prev: Prev, x: nat)
    requires Tiled(h, chunks) && a in h && (prev.Prev? ==> JoinsPrev(h, a, frag, prev.hp))
    requires x in h && MergedStart(h, a, frag, prev) <= x < JoinedEnd(h, a, frag) && x != a
    ensures h[x].color == Blue || h[x].wosize == 0
  {
    var b, z := JoinedStart(h, a, frag), JoinedLast(h, a, frag);
    assert x < b && prev.Prev? && prev.hp < x ==> Before(h, prev.hp, x);
    assert a < x ==> Before(h, a, x);
    assert z < x ==> Before(h, z, x);
  }

  /** Any other block is untouched. */
  lemma MergeKeeps(h: Heap, chunks: seq<Chunk>, a: nat, frag: int, prev: Prev, x: nat)
    requires Tiled(h, chunks) && a in h && (prev.Prev? ==> JoinsPrev(h, a, frag, prev.hp))
    requires x in h && x != a && h[x].color != Blue && h[x].wosize > 0
    ensures x in Merge(h, a, frag, prev) && Merge(h, a, frag, prev)[x] == h[x]
  {
    if MergedStart(h, a, frag, prev) <= x < JoinedEnd(h, a, frag) {
      MergeSwallows(h, chunks, a, frag, prev, x);
    }
  }
}
