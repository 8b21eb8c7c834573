/**
 Every list of sizes is that of the free blocks of some heap, with an empty table: what is
 shown of lists of sizes can happen.
 */
module FreeListHeaps {
  import opened Mlvalues
  import opened Blocks
  import opened FreeList
  import opened FreeListSteps
  import opened FreeListPick
  import opened FreeListTable
  import opened FreeListRuns

  const USED := Block(1, 0, White, [Long(0)])

  /** The words from 0 up to `e` are tiled by blocks, of which those of `fl` are free. */
  ghost predicate Layout(h: Heap, fl: seq<nat>, e: nat) {
    && e > 0 && 0 in h && Lists(h, fl)
    && (forall a {:trigger LaidOut(h, e, a)} :: LaidOut(h, e, a))
    && (forall a, b {:trigger Blocks.Before(h, a, b)} :: a in h && b in h && a < b ==> Blocks.Before(h, a, b))
  }

  ghost predicate LaidOut(h: Heap, e: nat, a: nat) {
    a in h ==> End(h, a) <= e && (End(h, a) == e || End(h, a) in h)
  }

  lemma NothingFrom(h: Heap, fl: seq<nat>, e: nat, x: nat)
    requires Layout(h, fl, e) && x >= e
    ensures x !in h
  {
    assert LaidOut(h, e, x);
  }

  /** A free block and one in use behind it. */
  lemma LayoutGrows(h: Heap, fl: seq<nat>, e: nat, size: nat)
    requires Layout(h, fl, e) && size >= 1
    ensures var a := e + 1 + size;
            && Layout(h[e := Block(size, 0, Blue, [])][a := USED], fl + [e], a + 2) && e !in h && a !in h
  {
    var a := e + 1 + size;
    var h', fl' := h[e := Block(size, 0, Blue, [])][a := USED], fl + [e];
    var e' := a + 2;
    NothingFrom(h, fl, e, e);
    NothingFrom(h, fl, e, a);
    forall x ensures LaidOut(h', e', x) {
      assert LaidOut(h, e, x);
    }
    forall x, y | x in h' && y in h' && x < y ensures Blocks.Before(h', x, y) {
      assert LaidOut(h, e, x) && LaidOut(h, e, y);
      assert x in h && y in h ==> Blocks.Before(h, x, y);
    }
    LayoutLists(h, fl, e, h', a);
  }

  lemma LayoutLists(h: Heap, fl: seq<nat>, e: nat, h': Heap, a: nat)
    requires Layout(h, fl, e) && e !in h && a !in h && e < a && e in h' && h'[e].color == Blue && h'[e].wosize >= 1
    requires h' == h[e := h'[e]][a := USED]
    ensures Lists(h', fl + [e])
  {
    var fl' := fl + [e];
    forall i: nat, j: nat ensures Ordered(fl', i, j) {
      assert Ordered(fl, i, j);
      if i < |fl| {
        assert IsFree(h, fl[i]) && LaidOut(h, e, fl[i]);
      }
    }
    forall i | 0 <= i < |fl'| ensures IsFree(h', fl'[i]) && h'[fl'[i]].wosize >= 1 {
      assert i < |fl| ==> IsFree(h, fl[i]);
    }
    forall x | IsFree(h', x) ensures x in fl' {
      assert x != e ==> IsFree(h, x);
      assert fl'[|fl|] == e;
    }
  }

  lemma {:induction false} HeapWithSizes(z: seq<nat>) returns (h: Heap, fl: seq<nat>, e: nat)
    requires forall k :: 0 <= k < |z| ==> z[k] >= 1
    ensures Layout(h, fl, e) && Sizes(h, fl) == z
  {
    if z == [] {
      h, fl, e := map[0 := USED], [], 2;
    } else {
      var n := |z| - 1;
      var h0, e0;
      h0, fl, e0 := HeapWithSizes(z[..n]);
      LayoutGrows(h0, fl, e0, z[n]);
      var a := e0 + 1 + z[n];
      h := h0[e0 := Block(z[n], 0, Blue, [])][a := USED];
      forall k | 0 <= k < n ensures Sizes(h, fl + [e0])[k] == z[k] {
        assert IsFree(h0, fl[k]) && Sizes(h0, fl)[k] == z[..n][k];
      }
      fl, e := fl + [e0], a + 2;
    }
  }

  lemma LayoutTiled(h: Heap, fl: seq<nat>, e: nat)
    requires Layout(h, fl, e)
    ensures Tiled(h, [Chunk(0, e)])
  {
    forall a | a in h ensures Fits(h, [Chunk(0, e)], a) {
      assert LaidOut(h, e, a);
      assert FitsIn(h, [Chunk(0, e)], 0, a);
    }
  }

  /** A state whose free blocks have these sizes, from which runs can start. */
  lemma StateWithSizes(z: seq<nat>) returns (s: TableState)
    requires forall k :: 0 <= k < |z| ==> z[k] >= 1
    ensures TableInv(s) && IsExact(s) && SizesOf(s) == z && s.rec == [] && s.bp == -1
  {
    var h, fl, e := HeapWithSizes(z);
    LayoutTiled(h, fl, e);
    s := TableState(FreeState(h, [Chunk(0, e)], fl, Total(h, fl), Head, 0, -1, 0), [], Nil, [], -1);
  }
}
