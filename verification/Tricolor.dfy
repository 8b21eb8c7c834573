/**
 The snapshot invariant behind the incremental marker: a block is safe when it is
 not white, or when a path of white blocks leads to it from a gray one.  The
 lemmas say which heap changes keep every safe block safe.
 */
module Tricolor {
  import opened Mlvalues
  import opened Blocks

  /** Field `i` points to block `c`. */
  predicate PointsTo(fields: seq<Value>, i: nat, c: nat) {
    i < |fields| && fields[i].Ptr? && fields[i].hp == c
  }

  ghost predicate Edge(h: Heap, x: nat, c: nat) {
    x in h && c in h && h[x].tag < NO_SCAN_TAG && exists i :: PointsTo(h[x].fields, i, c)
  }

  ghost predicate IsColor(h: Heap, x: nat, color: Color) {
    x in h && h[x].color == color
  }

  /** From a gray block through white ones. */
  ghost predicate WhitePath(h: Heap, p: seq<nat>) {
    && |p| > 0 && IsColor(h, p[0], Gray)
    && (|p| > 1 ==> WhitePath(h, p[..|p| - 1]) && Edge(h, p[|p| - 2], p[|p| - 1]) && IsColor(h, p[|p| - 1], White))
  }

  ghost predicate Protected(h: Heap, c: nat) {
    exists p :: WhitePath(h, p) && p[|p| - 1] == c
  }

  ghost predicate Safe(h: Heap, c: nat) {
    c in h && (h[c].color == White ==> Protected(h, c))
  }

  /** Safety propagates from a block that is still to be scanned. */
  lemma SafeStep(h: Heap, d: nat, c: nat)
    requires Safe(h, d) && h[d].color in {Gray, White} && Edge(h, d, c)
    ensures Safe(h, c)
  {
    if h[c].color == White {
      if h[d].color == Gray {
        assert [d, c][..1] == [d];
        assert WhitePath(h, [d]) && WhitePath(h, [d, c]);
      } else {
        var p :| WhitePath(h, p) && p[|p| - 1] == d;
        assert (p + [c])[..|p|] == p;
        assert WhitePath(h, p + [c]);
      }
    }
  }

  /** What a heap change must respect so that safe blocks stay safe. */
  ghost predicate Respects(h: Heap, h': Heap) {
    && (forall g {:trigger IsColor(h, g, Gray)} :: IsColor(h, g, Gray) ==> Safe(h', g))
    && (forall c {:trigger IsColor(h, c, Black)} :: IsColor(h, c, Black) ==> IsColor(h', c, Black))
    && (forall d, c {:trigger Edge(h, d, c)} ::
          Edge(h, d, c) && h[d].color in {Gray, White} && h[c].color == White && Safe(h', d) ==> Safe(h', c))
  }

  lemma {:induction false} PathStaysSafe(h: Heap, h': Heap, p: seq<nat>)
    requires Respects(h, h') && WhitePath(h, p)
    ensures Safe(h', p[|p| - 1])
  {
    if |p| > 1 {
      PathStaysSafe(h, h', p[..|p| - 1]);
      assert Edge(h, p[|p| - 2], p[|p| - 1]);
    } else {
      assert IsColor(h, p[0], Gray);
    }
  }

  lemma StaysSafe(h: Heap, h': Heap, c: nat)
    requires Respects(h, h') && Safe(h, c) && h[c].color != Blue
    ensures Safe(h', c)
  {
    if h[c].color == White {
      var p :| WhitePath(h, p) && p[|p| - 1] == c;
      PathStaysSafe(h, h', p);
    } else if h[c].color == Gray {
      assert IsColor(h, c, Gray);
    } else {
      assert IsColor(h, c, Black);
      assert IsColor(h', c, Black);
    }
  }

  /** Darkening a white block: gray, or black if it is not scanned. */
  lemma DarkenRespects(h: Heap, w: nat, color: Color)
    requires IsColor(h, w, White) && (color == Gray || (color == Black && h[w].tag >= NO_SCAN_TAG))
    ensures Respects(h, h[w := h[w].(color := color)])
  {
    var h' := h[w := h[w].(color := color)];
    forall d, c | Edge(h, d, c) && h[d].color in {Gray, White} && h[c].color == White && Safe(h', d)
      ensures Safe(h', c)
    {
      assert Edge(h', d, c);
      if h'[d].color in {Gray, White} {
        SafeStep(h', d, c);
      }
    }
  }

  /** Overwriting fields of `x`, when no edge to a white block disappears. */
  lemma WriteRespects(h: Heap, x: nat, fields: seq<Value>)
    requires x in h && forall c :: Edge(h, x, c) && h[c].color == White ==> Edge(h[x := h[x].(fields := fields)], x, c)
    ensures Respects(h, h[x := h[x].(fields := fields)])
  {
    var h' := h[x := h[x].(fields := fields)];
    forall d, c | Edge(h, d, c) && h[d].color in {Gray, White} && h[c].color == White && Safe(h', d)
      ensures Safe(h', c)
    {
      assert Edge(h', d, c);
      SafeStep(h', d, c);
    }
  }

  /** Blackening a gray block that has no edge to a white one. */
  lemma BlackenRespects(h: Heap, v: nat)
    requires IsColor(h, v, Gray) && forall c :: Edge(h, v, c) ==> h[c].color != White
    ensures Respects(h, h[v := h[v].(color := Black)])
  {
    var h' := h[v := h[v].(color := Black)];
    forall d, c | Edge(h, d, c) && h[d].color in {Gray, White} && h[c].color == White && Safe(h', d)
      ensures Safe(h', c)
    {
      assert Edge(h', d, c);
      SafeStep(h', d, c);
    }
  }

  /** Changes that concern free blocks and new blocks only. */
  lemma FreeRespects(h: Heap, h': Heap)
    requires forall a :: a in h && h[a].color != Blue ==> a in h' && h'[a] == h[a]
    ensures Respects(h, h')
  {
    forall d, c | Edge(h, d, c) && h[d].color in {Gray, White} && h[c].color == White && Safe(h', d)
      ensures Safe(h', c)
    {
      assert Edge(h', d, c);
      SafeStep(h', d, c);
    }
  }

  /** A white block is only safe while some block is gray. */
  lemma SafeWhiteNeedsGray(h: Heap, c: nat) returns (g: nat)
    requires Safe(h, c) && h[c].color == White
    ensures IsColor(h, g, Gray)
  {
    var p :| WhitePath(h, p) && p[|p| - 1] == c;
    g := p[0];
  }
}
