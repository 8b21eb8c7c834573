/**
 What the marker keeps: the heap stays well formed, every gray block is on the
 stack or will be met by a rescan, and black blocks point to safe blocks only.
 */
module MajorInv {
  import opened Mlvalues
  import opened Blocks
  import opened Tricolor
  import opened MajorGc

  // ----- Well-formed heaps -----

  ghost predicate Used(h: Heap, a: nat) {
    a in h && h[a].color != Blue
  }

  /** A value that points into the heap denotes a used block. */
  ghost predicate GoodVal(h: Heap, area: Area, v: Value) {
    v.Ptr? && InHeap(area.chunks, v.hp) ==> Used(h, v.hp) && h[v.hp].wosize > 0
  }

  ghost predicate GoodFields(h: Heap, area: Area, x: nat) {
    x in h && forall i :: 0 <= i < |h[x].fields| ==> GoodVal(h, area, h[x].fields[i])
  }

  ghost predicate HeapOk(h: Heap, area: Area) {
    && Tiled(h, area.chunks)
    && (forall x {:trigger Used(h, x)} :: Used(h, x) ==> |h[x].fields| == h[x].wosize)
    && (forall x {:trigger Used(h, x)} :: Used(h, x) && h[x].tag < NO_SCAN_TAG ==> GoodFields(h, area, x))
  }

  /** Same blocks, same sizes: the tiling is untouched. */
  lemma SameTiling(h: Heap, h': Heap, chunks: seq<Chunk>)
    requires Tiled(h, chunks) && (forall a :: a in h <==> a in h') && forall a :: a in h ==> h'[a].wosize == h[a].wosize
    ensures Tiled(h', chunks)
  {
    forall a | a in h' ensures Fits(h', chunks, a) {
      assert Fits(h, chunks, a);
      var c :| FitsIn(h, chunks, c, a);
      assert FitsIn(h', chunks, c, a);
    }
    forall a, b | a in h' && b in h' && a < b ensures Before(h', a, b) {
      assert Before(h, a, b);
    }
  }

  lemma BlockInHeap(h: Heap, chunks: seq<Chunk>, a: nat)
    requires Tiled(h, chunks) && a in h
    ensures InHeap(chunks, a)
  {
    assert Fits(h, chunks, a);
    var c: nat :| FitsIn(h, chunks, c, a);
    assert chunks[c].start <= a < ChunkEnd(chunks[c]);
  }

  lemma RecolorOk(h: Heap, area: Area, a: nat, color: Color)
    requires HeapOk(h, area) && Used(h, a) && color != Blue
    ensures HeapOk(Recolor(h, a, color), area)
    ensures KeepsGood(h, Recolor(h, a, color), area)
  {
    var h' := Recolor(h, a, color);
    SameTiling(h, h', area.chunks);
    forall x | Used(h', x)
      ensures |h'[x].fields| == h'[x].wosize && (h'[x].tag < NO_SCAN_TAG ==> GoodFields(h', area, x))
    {
      assert Used(h, x);
    }
  }

  lemma StoreOk(h: Heap, area: Area, a: nat, i: nat, v: Value)
    requires HeapOk(h, area) && Used(h, a) && i < |h[a].fields| && GoodVal(h, area, v)
    ensures HeapOk(Store(h, a, i, v), area)
    ensures KeepsGood(h, Store(h, a, i, v), area)
  {
    var h' := Store(h, a, i, v);
    SameTiling(h, h', area.chunks);
    forall x | Used(h', x)
      ensures |h'[x].fields| == h'[x].wosize && (h'[x].tag < NO_SCAN_TAG ==> GoodFields(h', area, x))
    {
      assert Used(h, x);
    }
  }

  // ----- The stack and the rescan find every gray block -----

  /** Gray blocks are on the stack, or the rescan has still to pass them, or the
      heap is known to be impure; `skip` is a block being marked. */
  ghost predicate Covered(h: Heap, g: Stack, cur: Cursor, skip: int) {
    forall a: nat {:trigger IsColor(h, a, Gray)} :: IsColor(h, a, Gray) && a != skip ==>
      a in g.vals || !g.pure || (cur.Cursor? && a >= cur.hp)
  }

  ghost predicate StackInv(h: Heap, g: Stack, cur: Cursor, skip: int) {
    && StackOk(g)
    && (forall i :: 0 <= i < |g.vals| ==> IsColor(h, g.vals[i], Gray) && g.vals[i] != skip)
    && (forall i, j :: 0 <= i < j < |g.vals| ==> g.vals[i] != g.vals[j])
    && Covered(h, g, cur, skip)
  }

  lemma PushInv(h: Heap, g: Stack, cur: Cursor, skip: int, w: nat, out: Outcome)
    requires StackInv(h, g, cur, skip) && IsColor(h, w, White) && w != skip
    ensures StackInv(Recolor(h, w, Gray), Push(g, w, out), cur, skip)
  {
    var h', g', all := Recolor(h, w, Gray), Push(g, w, out), g.vals + [w];
    assert g'.vals == all[..|g'.vals|];
    forall i | 0 <= i < |all| ensures IsColor(h', all[i], Gray) && all[i] != skip {
    }
    forall a: nat | IsColor(h', a, Gray) && a != skip
      ensures a in g'.vals || !g'.pure || (cur.Cursor? && a >= cur.hp)
    {
      if a == w {
        assert all[|g.vals|] == w;
      } else {
        assert IsColor(h, a, Gray);
      }
    }
  }

  lemma BlackenInv(h: Heap, g: Stack, cur: Cursor, skip: int, w: nat)
    requires StackInv(h, g, cur, skip) && w in h && (h[w].color == White || w == skip)
    ensures StackInv(Recolor(h, w, Black), g, cur, skip)
    ensures w == skip ==> StackInv(Recolor(h, w, Black), g, cur, -1)
  {
    var h' := Recolor(h, w, Black);
    forall a: nat | IsColor(h', a, Gray) && a != skip
      ensures a in g.vals || !g.pure || (cur.Cursor? && a >= cur.hp)
    {
      assert IsColor(h, a, Gray);
    }
    if w == skip {
      forall a: nat | IsColor(h', a, Gray)
        ensures a in g.vals || !g.pure || (cur.Cursor? && a >= cur.hp)
      {
        assert IsColor(h, a, Gray);
      }
    }
  }

  lemma StoreInv(h: Heap, g: Stack, cur: Cursor, skip: int, a: nat, i: nat, v: Value)
    requires StackInv(h, g, cur, skip) && a in h && i < |h[a].fields|
    ensures StackInv(Store(h, a, i, v), g, cur, skip)
  {
    var h' := Store(h, a, i, v);
    forall x: nat | IsColor(h', x, Gray) && x != skip
      ensures x in g.vals || !g.pure || (cur.Cursor? && x >= cur.hp)
    {
      assert IsColor(h, x, Gray);
    }
  }

  // ----- Black blocks point to safe blocks -----

  ghost predicate SafeVal(h: Heap, area: Area, v: Value) {
    v.Ptr? && InHeap(area.chunks, v.hp) ==> Safe(h, v.hp)
  }

  ghost predicate SafeFields(h: Heap, area: Area, x: nat) {
    x in h && forall i :: 0 <= i < |h[x].fields| ==> SafeVal(h, area, h[x].fields[i])
  }

  ghost predicate BlackSafe(h: Heap, area: Area) {
    forall x {:trigger IsColor(h, x, Black)} ::
      IsColor(h, x, Black) && h[x].tag < NO_SCAN_TAG ==> SafeFields(h, area, x)
  }

  ghost predicate KeepsGood(h: Heap, h': Heap, area: Area) {
    forall w {:trigger GoodVal(h', area, w)} :: GoodVal(h, area, w) ==> GoodVal(h', area, w)
  }

  /** Used blocks stay used, and safe ones stay safe. */
  ghost predicate KeepsSafe(h: Heap, h': Heap) {
    && (forall c {:trigger Used(h', c)} :: Used(h, c) ==> Used(h', c))
    && (forall c {:trigger Safe(h', c)} :: Used(h, c) && Safe(h, c) ==> Safe(h', c))
  }

  lemma RespectsKeepsSafe(h: Heap, h': Heap)
    requires Respects(h, h') && forall c :: Used(h, c) ==> Used(h', c)
    ensures KeepsSafe(h, h')
  {
    forall c | Used(h, c) && Safe(h, c) ensures Safe(h', c) {
      StaysSafe(h, h', c);
    }
  }

  lemma KeepsSafeTrans(h: Heap, h1: Heap, h2: Heap)
    requires KeepsSafe(h, h1) && KeepsSafe(h1, h2)
    ensures KeepsSafe(h, h2)
  {
    forall c | Used(h, c) ensures Used(h2, c) {
      assert Used(h1, c);
    }
    forall c | Used(h, c) && Safe(h, c) ensures Safe(h2, c) {
      assert Used(h1, c) && Safe(h1, c);
    }
  }

  lemma SafeValKept(h: Heap, h': Heap, area: Area, v: Value)
    requires KeepsSafe(h, h') && GoodVal(h, area, v) && SafeVal(h, area, v)
    ensures SafeVal(h', area, v)
  {
  }

  lemma BlackSafeKept(h: Heap, h': Heap, area: Area)
    requires HeapOk(h, area) && BlackSafe(h, area) && KeepsSafe(h, h')
    requires forall x :: IsColor(h', x, Black) && h'[x].tag < NO_SCAN_TAG ==>
               IsColor(h, x, Black) && h[x].tag < NO_SCAN_TAG && h'[x].fields == h[x].fields
    ensures BlackSafe(h', area)
  {
    forall x | IsColor(h', x, Black) && h'[x].tag < NO_SCAN_TAG ensures SafeFields(h', area, x) {
      assert IsColor(h, x, Black) && Used(h, x);
      forall i | 0 <= i < |h'[x].fields| ensures SafeVal(h', area, h'[x].fields[i]) {
        SafeValKept(h, h', area, h[x].fields[i]);
      }
    }
  }

  // ----- Darkening -----

  ghost predicate MarkerOk(m: Marker, area: Area, cur: Cursor) {
    HeapOk(m.heap, area) && StackInv(m.heap, m.stack, cur, -1) && BlackSafe(m.heap, area)
  }

  /** Darkening keeps the invariant and what is safe, and leaves its argument safe. */
  lemma DarkenOk(m: Marker, area: Area, cur: Cursor, v: Value, out: Outcome)
    requires MarkerOk(m, area, cur) && GoodVal(m.heap, area, v)
    ensures var m' := Darken(m, area, v, out);
            && MarkerOk(m', area, cur) && KeepsSafe(m.heap, m'.heap) && Darkened(m'.heap, area, v)
            && KeepsGood(m.heap, m'.heap, area)
            && SameButColors(m.heap, m'.heap)
  {
    if HeapBlock(m.heap, area, v) && m.heap[v.hp].color == White {
      var color := if m.heap[v.hp].tag < NO_SCAN_TAG then Gray else Black;
      var h' := Recolor(m.heap, v.hp, color);
      assert Used(m.heap, v.hp) && IsColor(m.heap, v.hp, White);
      RecolorOk(m.heap, area, v.hp, color);
      DarkenRespects(m.heap, v.hp, color);
      RespectsKeepsSafe(m.heap, h');
      BlackSafeKept(m.heap, h', area);
      if color == Gray {
        PushInv(m.heap, m.stack, cur, -1, v.hp, out);
      } else {
        BlackenInv(m.heap, m.stack, cur, -1, v.hp);
      }
    }
  }

  ghost predicate Darkened(h: Heap, area: Area, v: Value) {
    v.Ptr? && InHeap(area.chunks, v.hp) ==> v.hp in h && h[v.hp].color != White
  }

  ghost predicate SameButColors(h: Heap, h': Heap) {
    && (forall a :: a in h <==> a in h')
    && forall a :: a in h ==> h'[a].wosize == h[a].wosize && h'[a].tag == h[a].tag && h'[a].fields == h[a].fields
  }

  // ----- Marking the fields of one block -----

  function Blank(fields: seq<Value>, n: nat): (r: seq<Value>)
    ensures |r| == |fields|
    ensures forall i :: 0 <= i < |r| ==> r[i] == if i < n then Long(0) else fields[i]
  {
    seq(|fields|, i requires 0 <= i < |fields| => if i < n then Long(0) else fields[i])
  }

  /** The heap in which `v` has forgotten its first `n` fields. */
  function View(h: Heap, v: nat, n: nat): Heap
    requires v in h
  {
    h[v := h[v].(fields := Blank(h[v].fields, n))]
  }

  /** Block `v` is gray, off the stack, and its first `n` fields are marked: those
      point to blocks that are safe without the help of `v`. */
  ghost predicate PartOk(m: Marker, area: Area, cur: Cursor, v: nat, n: nat) {
    && HeapOk(m.heap, area) && StackInv(m.heap, m.stack, cur, v)
    && IsColor(m.heap, v, Gray) && m.heap[v].tag < NO_SCAN_TAG && n <= |m.heap[v].fields|
    && BlackSafe(View(m.heap, v, n), area)
    && forall i :: 0 <= i < n ==> SafeVal(View(m.heap, v, n), area, m.heap[v].fields[i])
  }

  /** The view forgets one more field, whose target is not white. */
  lemma ForgetField(h: Heap, v: nat, n: nat)
    requires IsColor(h, v, Gray) && n < |h[v].fields|
    requires h[v].fields[n].Ptr? && h[v].fields[n].hp in h ==> h[h[v].fields[n].hp].color != White
    ensures KeepsSafe(View(h, v, n), View(h, v, n + 1))
  {
    var k, k' := View(h, v, n), View(h, v, n + 1);
    assert k' == k[v := k[v].(fields := k'[v].fields)];
    forall c | Edge(k, v, c) && k[c].color == White ensures Edge(k', v, c) {
      var i :| PointsTo(k[v].fields, i, c);
      assert PointsTo(k'[v].fields, i, c);
    }
    WriteRespects(k, v, k'[v].fields);
    RespectsKeepsSafe(k, k');
  }

  /** Darkening a white child shows in the view as well. */
  lemma ViewDarken(h: Heap, v: nat, n: nat, y: nat)
    requires IsColor(h, v, Gray) && IsColor(h, y, White)
    ensures View(Recolor(h, y, Gray), v, n) == Recolor(View(h, v, n), y, Gray)
    ensures KeepsSafe(View(h, v, n), View(Recolor(h, y, Gray), v, n))
  {
    var k := View(h, v, n);
    assert View(Recolor(h, y, Gray), v, n) == Recolor(k, y, Gray);
    assert IsColor(k, y, White);
    DarkenRespects(k, y, Gray);
    RespectsKeepsSafe(k, Recolor(k, y, Gray));
  }

  lemma ViewStore(h: Heap, v: nat, n: nat, f: Value)
    requires v in h && n < |h[v].fields|
    ensures View(Store(h, v, n, f), v, n + 1) == View(h, v, n + 1)
  {
    var a, b := Blank(Store(h, v, n, f)[v].fields, n + 1), Blank(h[v].fields, n + 1);
    assert a == b;
  }

  lemma ViewOk(h: Heap, area: Area, v: nat, n: nat)
    requires HeapOk(h, area) && Used(h, v)
    ensures HeapOk(View(h, v, n), area)
  {
    var k := View(h, v, n);
    SameTiling(h, k, area.chunks);
    forall x | Used(k, x) ensures |k[x].fields| == k[x].wosize && (k[x].tag < NO_SCAN_TAG ==> GoodFields(k, area, x)) {
      assert Used(h, x);
    }
  }

  function Grayed(h: Heap, y: nat): Heap
    requires y in h
  {
    if h[y].color == White then Recolor(h, y, Gray) else h
  }

  /** The order of darkening the child and rewriting the field does not matter. */
  lemma MarkChildHeap(m: Marker, area: Area, v: nat, n: nat, out: Outcome)
    requires IsColor(m.heap, v, Gray) && n < |m.heap[v].fields| && StackOk(m.stack)
    requires HeapBlock(m.heap, area, m.heap[v].fields[n])
    ensures var child := m.heap[v].fields[n];
            var hr := Grayed(m.heap, child.hp);
            && v in hr && n < |hr[v].fields|
            && MarkChild(m, area, v, n, out).heap == Store(hr, v, n, MarkedField(m.heap, area, child))
  {
  }

  lemma GrayedView(h: Heap, v: nat, n: nat, y: nat)
    requires IsColor(h, v, Gray) && n < |h[v].fields| && y in h
    requires h[v].fields[n].Ptr? ==> h[v].fields[n].hp == y
    ensures KeepsSafe(View(h, v, n), View(Grayed(h, y), v, n + 1))
  {
    var hr := Grayed(h, y);
    if h[y].color == White {
      ViewDarken(h, v, n, y);
    }
    ForgetField(hr, v, n);
    KeepsSafeTrans(View(h, v, n), View(hr, v, n), View(hr, v, n + 1));
  }

  /** What is stored in the marked field is safe without the help of `v`. */
  lemma MarkedFieldSafe(h: Heap, area: Area, v: nat, n: nat)
    requires HeapOk(h, area) && IsColor(h, v, Gray) && h[v].tag < NO_SCAN_TAG && n < |h[v].fields|
    requires BlackSafe(View(h, v, n), area)
    requires forall i :: 0 <= i < n ==> SafeVal(View(h, v, n), area, h[v].fields[i])
    requires HeapBlock(h, area, h[v].fields[n])
    ensures var child := h[v].fields[n];
            var f := MarkedField(h, area, child);
            GoodVal(h, area, f) && SafeVal(View(Grayed(h, child.hp), v, n + 1), area, f)
  {
    var child := h[v].fields[n];
    var y, k, k' := child.hp, View(h, v, n), View(Grayed(h, child.hp), v, n + 1);
    GrayedView(h, v, n, y);
    assert Used(h, v) && GoodFields(h, area, v);
    assert Used(h, y);
    if Shortcut(h, area, child) {
      var f := h[y].fields[0];
      assert GoodFields(h, area, y);
      assert GoodVal(h, area, f);
      ViewOk(h, area, v, n);
      assert GoodVal(k, area, f);
      if y == v {
        assert n > 0;
        SafeValKept(k, k', area, f);
      } else if h[y].color == Black {
        assert IsColor(k, y, Black) && SafeFields(k, area, y);
        SafeValKept(k, k', area, f);
      } else if f.Ptr? && InHeap(area.chunks, f.hp) {
        assert PointsTo(k'[y].fields, 0, f.hp);
        SafeStep(k', y, f.hp);
      }
    }
  }

  lemma MarkChildStack(m: Marker, area: Area, cur: Cursor, v: nat, n: nat, out: Outcome)
    requires StackInv(m.heap, m.stack, cur, v) && IsColor(m.heap, v, Gray) && n < |m.heap[v].fields|
    ensures var m' := MarkChild(m, area, v, n, out); StackInv(m'.heap, m'.stack, cur, v)
  {
    var child := m.heap[v].fields[n];
    if HeapBlock(m.heap, area, child) {
      var h := Store(m.heap, v, n, MarkedField(m.heap, area, child));
      StoreInv(m.heap, m.stack, cur, v, v, n, MarkedField(m.heap, area, child));
      if h[child.hp].color == White {
        PushInv(h, m.stack, cur, v, child.hp, out);
      }
    }
  }

  /** Marking the fields of `v` from `n` to `n'` on. */
  ghost predicate MarksTo(m: Marker, n: nat, m': Marker, n': nat, area: Area, cur: Cursor, v: nat) {
    && v in m.heap && PartOk(m', area, cur, v, n')
    && KeepsSafe(View(m.heap, v, n), View(m'.heap, v, n')) && KeepsGood(m.heap, m'.heap, area)
  }

  lemma MarkChildOk(m: Marker, area: Area, cur: Cursor, v: nat, n: nat, out: Outcome)
    requires PartOk(m, area, cur, v, n) == true && n < |m.heap[v].fields|
    ensures MarksTo(m, n, MarkChild(m, area, v, n, out), n + 1, area, cur, v) == true
  {
    var m', child := MarkChild(m, area, v, n, out), m.heap[v].fields[n];
    var k := View(m.heap, v, n);
    MarkChildStack(m, area, cur, v, n, out);
    ViewOk(m.heap, area, v, n);
    assert Used(m.heap, v) && GoodFields(m.heap, area, v);
    if HeapBlock(m.heap, area, child) {
      var hr, f := Grayed(m.heap, child.hp), MarkedField(m.heap, area, child);
      MarkChildHeap(m, area, v, n, out);
      GrayedView(m.heap, v, n, child.hp);
      MarkedFieldSafe(m.heap, area, v, n);
      ViewStore(hr, v, n, f);
      assert Used(m.heap, child.hp);
      if m.heap[child.hp].color == White {
        RecolorOk(m.heap, area, child.hp, Gray);
      }
      StoreOk(hr, area, v, n, f);
    } else {
      if child.Ptr? && child.hp in m.heap {
        BlockInHeap(m.heap, area.chunks, child.hp);
      }
      ForgetField(m.heap, v, n);
    }
    var k' := View(m'.heap, v, n + 1);
    BlackSafeKept(k, k', area);
    forall i | 0 <= i < n + 1 ensures SafeVal(k', area, m'.heap[v].fields[i]) {
      if i < n {
        assert GoodVal(m.heap, area, m.heap[v].fields[i]);
        assert GoodVal(k, area, m.heap[v].fields[i]);
        SafeValKept(k, k', area, m.heap[v].fields[i]);
      }
    }
  }

  lemma MarksTrans(m: Marker, n: nat, m1: Marker, n1: nat, m2: Marker, n2: nat, area: Area, cur: Cursor, v: nat)
    requires MarksTo(m, n, m1, n1, area, cur, v) == true && MarksTo(m1, n1, m2, n2, area, cur, v) == true
    ensures MarksTo(m, n, m2, n2, area, cur, v) == true
  {
    KeepsSafeTrans(View(m.heap, v, n), View(m1.heap, v, n1), View(m2.heap, v, n2));
  }

  lemma MarkNextOk(m: Marker, m1: Marker, area: Area, cur: Cursor, v: nat, n: nat, out: Outcome)
    requires MarksTo(m, 0, m1, n, area, cur, v) == true && n < |m1.heap[v].fields|
    ensures MarksTo(m, 0, MarkChild(m1, area, v, n, out), n + 1, area, cur, v) == true
  {
    MarkChildOk(m1, area, cur, v, n, out);
    MarksTrans(m, 0, m1, n, MarkChild(m1, area, v, n, out), n + 1, area, cur, v);
  }

  lemma {:induction false} MarkFieldsOk(m: Marker, area: Area, cur: Cursor, v: nat, n: nat, outs: nat -> Outcome)
    requires PartOk(m, area, cur, v, 0) == true && n <= |m.heap[v].fields|
    ensures MarksTo(m, 0, MarkFields(m, area, v, n, outs), n, area, cur, v) == true
  {
    if n > 0 {
      MarkFieldsOk(m, area, cur, v, n - 1, outs);
      MarkNextOk(m, MarkFields(m, area, v, n - 1, outs), area, cur, v, n - 1, outs(n - 1));
    }
  }

  /** Once all its fields are marked, `v` can turn black. */
  lemma BlackenOk(m: Marker, area: Area, cur: Cursor, v: nat)
    requires v in m.heap && PartOk(m, area, cur, v, |m.heap[v].fields|)
    ensures MarkerOk(Marker(Recolor(m.heap, v, Black), m.stack), area, cur)
    ensures KeepsSafe(View(m.heap, v, |m.heap[v].fields|), Recolor(m.heap, v, Black))
    ensures KeepsGood(m.heap, Recolor(m.heap, v, Black), area)
  {
    var n, h' := |m.heap[v].fields|, Recolor(m.heap, v, Black);
    var k := View(m.heap, v, n);
    var k' := Recolor(k, v, Black);
    assert Used(m.heap, v);
    BlackenRespects(k, v);
    RespectsKeepsSafe(k, k');
    assert h' == k'[v := k'[v].(fields := m.heap[v].fields)];
    WriteRespects(k', v, m.heap[v].fields);
    RespectsKeepsSafe(k', h');
    KeepsSafeTrans(k, k', h');
    RecolorOk(m.heap, area, v, Black);
    BlackenInv(m.heap, m.stack, cur, v, v);
    ViewOk(m.heap, area, v, n);
    forall x | IsColor(h', x, Black) && h'[x].tag < NO_SCAN_TAG ensures SafeFields(h', area, x) {
      assert x != v ==> IsColor(k, x, Black) && Used(k, x);
      assert GoodFields(m.heap, area, v);
      forall i | 0 <= i < |h'[x].fields| ensures SafeVal(h', area, h'[x].fields[i]) {
        assert GoodVal(m.heap, area, h'[x].fields[i]);
        assert GoodVal(k, area, h'[x].fields[i]);
        SafeValKept(k, h', area, h'[x].fields[i]);
      }
    }
  }

  /** Marking one block keeps the invariant and everything that is safe. */
  lemma MarkBlockOk(m: Marker, area: Area, cur: Cursor, outs: nat -> Outcome)
    requires MarkerOk(m, area, cur) && |m.stack.vals| > 0
    ensures var m' := MarkBlock(m, area, outs);
            && MarkerOk(m', area, cur) && KeepsSafe(m.heap, m'.heap)
            && KeepsGood(m.heap, m'.heap, area)
  {
    var n := |m.stack.vals| - 1;
    var v := m.stack.vals[n];
    var m1 := m.(stack := m.stack.(vals := m.stack.vals[..n]));
    assert IsColor(m.heap, v, Gray) && Used(m.heap, v);
    PopInv(m.heap, m.stack, cur);
    if m.heap[v].tag < NO_SCAN_TAG {
      ViewZero(m.heap, v);
      var m2 := MarkFields(m1, area, v, |m.heap[v].fields|, outs);
      MarkFieldsOk(m1, area, cur, v, |m.heap[v].fields|, outs);
      BlackenOk(m2, area, cur, v);
      KeepsSafeTrans(m.heap, View(m2.heap, v, |m.heap[v].fields|), Recolor(m2.heap, v, Black));
    } else {
      BlackenInv(m.heap, m1.stack, cur, v, v);
      RecolorOk(m.heap, area, v, Black);
      BlackenRespects(m.heap, v);
      RespectsKeepsSafe(m.heap, Recolor(m.heap, v, Black));
      BlackSafeKept(m.heap, Recolor(m.heap, v, Black), area);
    }
  }

  lemma PopInv(h: Heap, g: Stack, cur: Cursor)
    requires StackInv(h, g, cur, -1) && |g.vals| > 0
    ensures StackInv(h, g.(vals := g.vals[..|g.vals| - 1]), cur, g.vals[|g.vals| - 1])
  {
    var n := |g.vals| - 1;
    forall a: nat | IsColor(h, a, Gray) && a != g.vals[n]
      ensures a in g.vals[..n] || !g.pure || (cur.Cursor? && a >= cur.hp)
    {
      if a in g.vals {
        var i :| 0 <= i < |g.vals| && g.vals[i] == a;
        assert g.vals[..n][i] == a;
      }
    }
  }

  lemma ViewZero(h: Heap, v: nat)
    requires v in h
    ensures View(h, v, 0) == h
  {
    assert Blank(h[v].fields, 0) == h[v].fields;
  }
}
