/** Tags, colours and block sizes (byterun/mlvalues.h, byterun/gc.h). */
module Mlvalues {
  const LAZY_TAG: nat := 246
  const CLOSURE_TAG: nat := 247
  const OBJECT_TAG: nat := 248
  const INFIX_TAG: nat := 249
  const FORWARD_TAG: nat := 250
  const NO_SCAN_TAG: nat := 251
  const ABSTRACT_TAG: nat := 251
  const STRING_TAG: nat := 252
  const DOUBLE_TAG: nat := 253
  const DOUBLE_ARRAY_TAG: nat := 254
  const CUSTOM_TAG: nat := 255

  type byte = x: int | 0 <= x < 256

  datatype Color = White | Gray | Blue | Black

  /** Largest size of a block, in fields (64-bit headers). */
  const MAX_WOSIZE: nat := 0x3F_FFFF_FFFF_FFFF

  /** A heap chunk, by the word address of its first header. */
  datatype Chunk = Chunk(start: nat, size: nat)

  function ChunkEnd(c: Chunk): nat { c.start + c.size }

  /** `Is_in_heap`: the page table flags exactly the pages of the chunks. */
  predicate InHeap(chunks: seq<Chunk>, a: nat) {
    exists c :: 0 <= c < |chunks| && chunks[c].start <= a < ChunkEnd(chunks[c])
  }

  lemma {:induction false} SubsetSize(a: set<nat>, b: set<nat>)
    requires a <= b
    ensures |a| <= |b| && (a != b ==> |a| < |b|)
  {
    if a != b {
      var x :| x in b && x !in a;
      SubsetSize(a, b - {x});
    }
  }
}
