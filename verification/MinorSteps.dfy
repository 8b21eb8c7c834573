/**
 The life of the minor heap (byterun/minor_gc.c, byterun/memory.c): blocks are
 allocated, fields are initialised and modified, roots change, and now and then the
 minor heap is emptied.  All of this keeps what a minor collection relies on.
 */
module MinorSteps {
  import opened Mlvalues
  import opened Blocks
  import opened MinorHeap

  /** An entry of the reference table is a scanned field of the major heap. */
  ghost predicate RefsValid(s: Snap, refs: seq<Loc>) {
    forall k :: 0 <= k < |refs| ==>
      && refs[k].Field? && Scanned(s.mem, refs[k].a) && refs[k].a !in s.young && refs[k].i < |s.mem[refs[k].a].fields|
  }

  /** What a minor collection relies on. */
  ghost predicate Ready(s: Snap, refs: seq<Loc>) {
    HeapOk(s) && RefsOk(s, refs) && RefsValid(s, refs)
  }

  // ----- Stores -----

  function Stored(m: Mem, a: nat, i: nat, val: Value): Mem
    requires a in m && i < |m[a].fields|
  {
    m[a := m[a].(fields := m[a].fields[i := val])]
  }

  /** The test of the write barrier: `caml_initialize_r` does not look at the value before. */
  predicate Enters(s: Snap, a: nat, i: nat, val: Value, init: bool)
    requires a in s.mem && i < |s.mem[a].fields|
  {
    a !in s.young && IsYoung(s, val) && (init || !IsYoung(s, s.mem[a].fields[i]))
  }

  /** `val` is stored in a field, which goes into the reference table if the barrier says so. */
  ghost predicate Stores(s: Snap, refs: seq<Loc>, s': Snap, refs': seq<Loc>, a: nat, i: nat, val: Value, init: bool) {
    && Scanned(s.mem, a) && i < |s.mem[a].fields| && ValOk(s, val)
    && s' == s.(mem := Stored(s.mem, a, i, val))
    && refs' == if Enters(s, a, i, val, init) then refs + [Field(a, i)] else refs
  }

  lemma StoreReady(s: Snap, refs: seq<Loc>, s': Snap, refs': seq<Loc>, a: nat, i: nat, val: Value, init: bool)
    requires Ready(s, refs) && Stores(s, refs, s', refs', a, i, val, init)
    ensures Ready(s', refs') == true
  {
    forall b ensures BlockOk(s', b) {
      assert BlockOk(s, b);
    }
    forall b: nat, j: nat | Scanned(s'.mem, b) && b !in s'.young && j < |s'.mem[b].fields|
      && IsYoung(s', s'.mem[b].fields[j])
      ensures Field(b, j) in refs'
    {
      if (b, j) == (a, i) && Enters(s, a, i, val, init) {
        assert refs'[|refs|] == Field(a, i);
      } else {
        assert Field(b, j) in refs;
      }
    }
  }

  // ----- Allocation -----

  /** A new block, young or not; a block of the major heap starts without young pointers. */
  ghost predicate Allocates(s: Snap, s': Snap, b: nat, c: Cell, young: bool) {
    && b !in s.mem && b !in s.outside && b !in s.young
    && s' == s.(mem := s.mem[b := c], young := if young then s.young + {b} else s.young)
    && c.hd.Hd? && |c.fields| == c.hd.wosize >= 1 && c.hd.tag != INFIX_TAG
      && (c.hd.tag == FORWARD_TAG ==> c.hd.wosize == 1)
    && (c.hd.tag < NO_SCAN_TAG ==>
          forall i :: 0 <= i < |c.fields| ==> ValOk(s, c.fields[i]) && (!young ==> !IsYoung(s, c.fields[i])))
  }

  lemma AllocationReady(s: Snap, refs: seq<Loc>, s': Snap, b: nat, c: Cell, young: bool)
    requires Ready(s, refs) && Allocates(s, s', b, c, young)
    ensures Ready(s', refs) == true
  {
    assert forall v :: ValOk(s, v) ==> ValOk(s', v) && (IsYoung(s', v) <==> IsYoung(s, v));
    forall a ensures BlockOk(s', a) {
      assert BlockOk(s, a);
    }
    forall a: nat, i: nat | Scanned(s'.mem, a) && a !in s'.young && i < |s'.mem[a].fields|
      && IsYoung(s', s'.mem[a].fields[i])
      ensures Field(a, i) in refs
    {
      assert BlockOk(s, a);
      assert a != b;
    }
  }

  // ----- Roots -----

  ghost predicate SetsRoots(s: Snap, s': Snap) {
    s' == s.(roots := s'.roots) && forall i :: 0 <= i < |s'.roots| ==> ValOk(s, s'.roots[i])
  }

  lemma RootsReady(s: Snap, refs: seq<Loc>, s': Snap)
    requires Ready(s, refs) && SetsRoots(s, s')
    ensures Ready(s', refs) == true
  {
    forall a ensures BlockOk(s', a) {
      assert BlockOk(s, a);
    }
  }

  // ----- Minor collections -----

  /** The heap after a minor collection: no block is young. */
  ghost predicate Collects(s: Snap, s': Snap, f: map<nat, nat>) {
    && s' == s.(mem := s'.mem, roots := s'.roots, young := {})
    && Collected(s, f, Now(s'.mem, s'.roots)) && s'.mem.Keys !! s.young
  }

  lemma ImageOk(s: Snap, s': Snap, f: map<nat, nat>, v: Value, x: Value)
    requires HeapOk(s) && Collects(s, s', f) && ValOk(s, v) && Image(s, f, v, x)
    ensures ValOk(s', x)
  {
    var d := Dest(s, v);
    assert v.Ptr? ==> BlockOk(s, v.hp);
    assert ValOk(s, d);
    if d.Ptr? {
      assert CopyShape(s, f, s'.mem, d.hp) && MajorCell(s, s'.mem, d.hp);
    }
  }

  lemma CollectedBlock(s: Snap, s': Snap, f: map<nat, nat>, a: nat)
    requires HeapOk(s) && Collects(s, s', f)
    ensures BlockOk(s', a)
  {
    if a in s'.mem {
      assert Accounted(s, f, s'.mem, a);
      if a in s.mem {
        assert BlockOk(s, a) && MajorCell(s, s'.mem, a);
        forall i: nat | Scanned(s.mem, a) && i < |s.mem[a].fields| ensures ValOk(s', s'.mem[a].fields[i]) {
          assert MajorMoved(s, f, s'.mem, a, i);
          ImageOk(s, s', f, s.mem[a].fields[i], s'.mem[a].fields[i]);
        }
      } else {
        var y :| y in f && f[y] == a;
        CopiedBlock(s, s', f, y);
      }
    }
  }

  lemma CopiedBlock(s: Snap, s': Snap, f: map<nat, nat>, y: nat)
    requires HeapOk(s) && Collects(s, s', f) && y in f
    ensures BlockOk(s', f[y])
  {
    assert CopyShape(s, f, s'.mem, y) && BlockOk(s, y);
    forall i: nat | Scanned(s.mem, y) && i < |s.mem[y].fields| ensures ValOk(s', s'.mem[f[y]].fields[i]) {
      assert CopyField(s, f, s'.mem, y, i);
      ImageOk(s, s', f, s.mem[y].fields[i], s'.mem[f[y]].fields[i]);
    }
  }

  lemma CollectionReady(s: Snap, s': Snap, f: map<nat, nat>)
    requires HeapOk(s) && Collects(s, s', f)
    ensures Ready(s', []) == true
  {
    forall a ensures BlockOk(s', a) {
      CollectedBlock(s, s', f, a);
    }
    forall i | 0 <= i < |s'.roots| ensures ValOk(s', s'.roots[i]) {
      ImageOk(s, s', f, s.roots[i], s'.roots[i]);
    }
  }

  // ----- Runs -----

  datatype Event =
    | Allocation(b: nat, c: Cell, young: bool)
    | Store(a: nat, i: nat, val: Value, init: bool)
    | Roots
    | Collection(copies: map<nat, nat>)

  datatype State = State(snap: Snap, refs: seq<Loc>)

  ghost predicate Step(t: State, e: Event, t': State) {
    match e
    case Allocation(b, c, young) => Allocates(t.snap, t'.snap, b, c, young) && t'.refs == t.refs
    case Store(a, i, val, init) => Stores(t.snap, t.refs, t'.snap, t'.refs, a, i, val, init)
    case Roots => SetsRoots(t.snap, t'.snap) && t'.refs == t.refs
    case Collection(copies) => Collects(t.snap, t'.snap, copies) && t'.refs == []
  }

  ghost predicate IsRun(run: seq<State>, events: seq<Event>) {
    |run| == |events| + 1 && forall k :: 0 <= k < |events| ==> Step(run[k], events[k], run[k + 1])
  }

  lemma StepReady(t: State, e: Event, t': State)
    requires Ready(t.snap, t.refs) && Step(t, e, t')
    ensures Ready(t'.snap, t'.refs) == true
  {
    match e
    case Allocation(b, c, young) => AllocationReady(t.snap, t.refs, t'.snap, b, c, young);
    case Store(a, i, val, init) => StoreReady(t.snap, t.refs, t'.snap, t'.refs, a, i, val, init);
    case Roots => RootsReady(t.snap, t.refs, t'.snap);
    case Collection(copies) => CollectionReady(t.snap, t'.snap, copies);
  }

  lemma {:induction false} RunReady(run: seq<State>, events: seq<Event>, k: nat)
    requires IsRun(run, events) && Ready(run[0].snap, run[0].refs) && k < |run|
    ensures Ready(run[k].snap, run[k].refs) == true
  {
    if k > 0 {
      RunReady(run, events, k - 1);
      StepReady(run[k - 1], events[k - 1], run[k]);
    }
  }

  /** In every run, no root and no scanned field ever dangles, although the minor heap
      is used again and again; and every collection leaves no young pointer. */
  lemma NeverDangles(run: seq<State>, events: seq<Event>, k: nat, p: Loc)
    requires IsRun(run, events) && Ready(run[0].snap, run[0].refs) && k < |run|
    requires var s := run[k].snap; if p.Root? then p.i < |s.roots| else Scanned(s.mem, p.a) && p.i < |s.mem[p.a].fields|
    ensures var s := run[k].snap;
            var v := if p.Root? then s.roots[p.i] else s.mem[p.a].fields[p.i];
            && (v.Ptr? ==> v.hp in s.mem || v.hp in s.outside)
            && (IsYoung(s, v) && p.Field? ==> p.a in s.young || p in run[k].refs)
  {
    RunReady(run, events, k);
    var s := run[k].snap;
    assert p.Field? ==> BlockOk(s, p.a) && p == Field(p.a, p.i);
  }
}
