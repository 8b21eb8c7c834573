/**
 The minor collector of byterun/minor_gc.c as loops over a mutable heap, proved
 against the invariant of MinorHeap.dfy, and the part of the write barrier that
 keeps the reference table complete (byterun/memory.h, byterun/memory.c).
 */
module MinorGc {
  import opened Mlvalues
  import opened Blocks
  import opened MinorHeap
  import opened MinorSteps

  // ----- Tests that look at the current heap -----

  /** `Tag_val`, following the forward pointer of a copied block. */
  function CurrentTag(m: Mem, young: set<nat>, statics: map<nat, nat>, f: Value): nat
    requires f.Ptr?
  {
    if f.ofs > 0 then INFIX_TAG
    else if f.hp in m then
      if f.hp in young && m[f.hp].hd.Zero? then
        if |m[f.hp].fields| > 0 && m[f.hp].fields[0].Ptr? && m[f.hp].fields[0].hp in m && m[m[f.hp].fields[0].hp].hd.Hd?
        then m[m[f.hp].fields[0].hp].hd.tag else 0
      else if m[f.hp].hd.Hd? then m[f.hp].hd.tag else 0
    else if f.hp in statics then statics[f.hp]
    else 0
  }

  predicate MustKeep(m: Mem, young: set<nat>, statics: map<nat, nat>, f: Value) {
    f.Ptr? && ((f.hp !in m && f.hp !in statics)
      || CurrentTag(m, young, statics, f) in {FORWARD_TAG, LAZY_TAG, DOUBLE_TAG})
  }

  /** The test on the current heap is the test on the heap before the collection. */
  lemma KeepsNow(s: Snap, g: Progress, now: Now, f: Value)
    requires HeapOk(s) && Inv(s, g, now) && ValOk(s, f)
    ensures MustKeep(now.mem, s.young, s.statics, f) == Keeps(s, f)
  {
    if f.Ptr? {
      assert BlockOk(s, f.hp) && YoungCell(s, g, now.mem, f.hp) && CopyCell(s, g, now.mem, f.hp)
             && MajorCell(s, now.mem, f.hp);
      CopiesAreNew(s, g, now.mem);
      assert Accounted(s, g.copies, now.mem, f.hp);
    }
  }

  // ----- The place being filled -----

  /** Place `p` awaits the image of `u`; `v` will have the same one, or is it. */
  ghost predicate Filling(s: Snap, g: Progress, p: Loc, u: Value, v: Value) {
    && p in g.open && Awaits(s, g.copies, p, u) && OffTodo(g, p) && (IsYoung(s, v) ==> ValOk(s, v))
    && (Dest(s, u) == Dest(s, v) || (!IsYoung(s, v) && Image(s, g.copies, u, v)))
  }

  /** How the progress may change while one place is filled. */
  ghost predicate Advances(g: Progress, g': Progress) {
    && g'.refs == g.refs && g'.next == g.next
    && (forall y :: y in g.copies ==> y in g'.copies && g'.copies[y] == g.copies[y])
    && (forall y :: y in g'.todo ==> y in g.todo || y !in g.copies)
    && (g'.copies.Keys == g.copies.Keys ==> |g'.todo| <= |g.todo|)
  }

  lemma AdvancesTrans(g: Progress, g1: Progress, g2: Progress)
    requires Advances(g, g1) && Advances(g1, g2)
    ensures Advances(g, g2)
  {
  }

  /** A place whose block was copied before and is not on the list stays off it. */
  lemma StaysOff(s: Snap, g: Progress, g': Progress, now: Now, y: nat, i: nat)
    requires Advances(g, g') && y in g.copies && y !in g.todo && CellsOk(s, g', now.mem)
    ensures OffTodo(g', Field(g.copies[y], i))
  {
    forall k | 0 <= k < |g'.todo| && g'.todo[k] in g'.copies ensures g'.copies[g'.todo[k]] != g.copies[y] {
      assert Injective(g'.copies, g'.todo[k], y);
    }
  }

  lemma OldStaysOff(s: Snap, g: Progress, now: Now, a: nat, i: nat)
    requires a in s.mem && CellsOk(s, g, now.mem)
    ensures OffTodo(g, Field(a, i))
  {
    CopiesAreNew(s, g, now.mem);
  }

  lemma FillImage(s: Snap, g: Progress, p: Loc, u: Value, v: Value, x: Value)
    requires Filling(s, g, p, u, v) && Image(s, g.copies, v, x)
    ensures Image(s, g.copies, u, x)
  {
  }

  /** A new copy does not disturb the place being filled. */
  lemma FillingKept(s: Snap, g: Progress, now: Now, g': Progress, p: Loc, u: Value, v: Value, y: nat, b: nat)
    requires CellsOk(s, g, now.mem) && Filling(s, g, p, u, v) && y !in g.copies && b !in now.mem
    requires g'.copies == g.copies[y := b] && g.open <= g'.open && (g'.todo == g.todo || g'.todo == [y] + g.todo)
    ensures Filling(s, g', p, u, v)
  {
    if p.Field? {
      AwaitedInMem(s, g, now, p, u);
      if !(Scanned(s.mem, p.a) && p.a !in s.young && p.i < |s.mem[p.a].fields| && u == s.mem[p.a].fields[p.i]) {
        var z :| CopyAwaits(s, g.copies, z, p.a, p.i, u);
        assert CopyAwaits(s, g'.copies, z, p.a, p.i, u);
      }
    }
  }

  lemma AwaitedInMem(s: Snap, g: Progress, now: Now, p: Loc, u: Value)
    requires CellsOk(s, g, now.mem) && p.Field? && Awaits(s, g.copies, p, u)
    ensures p.a in now.mem
  {
    assert MajorCell(s, now.mem, p.a);
    if !(Scanned(s.mem, p.a) && p.a !in s.young) {
      var z :| CopyAwaits(s, g.copies, z, p.a, p.i, u);
      assert CopyCell(s, g, now.mem, z);
    }
  }

  /** The only field of a new copy is off the list. */
  lemma NewField(s: Snap, g: Progress, now: Now, g': Progress, y: nat, b: nat)
    requires CellsOk(s, g, now.mem) && b !in now.mem && y !in g.copies && TodoOk(s, g, now.mem)
    requires g'.copies == g.copies[y := b] && g'.todo == g.todo
    ensures OffTodo(g', Field(b, 0))
  {
    forall k: nat | k < |g.todo| ensures g.todo[k] in g.copies && g.copies[g.todo[k]] != b {
      assert TodoEntry(s, g, now.mem, k) && CopyCell(s, g, now.mem, g.todo[k]);
    }
  }

  lemma CopyAdvances(s: Snap, g: Progress, g': Progress, y: nat, b: nat)
    requires y in s.young && y !in g.copies && g'.copies == g.copies[y := b] && g'.refs == g.refs && g'.next == g.next
    requires g'.todo == g.todo || g'.todo == [y] + g.todo
    ensures Advances(g, g') && |s.young - g'.copies.Keys| < |s.young - g.copies.Keys|
  {
    assert s.young - g'.copies.Keys == s.young - g.copies.Keys - {y};
  }

  /** Place `p` has been filled, and `p'`, the only field of a new copy, is next. */
  ghost predicate FillsNext(s: Snap, g: Progress, g': Progress, p: Loc, p': Loc, f: Value) {
    && Advances(g, g') && |s.young - g'.copies.Keys| < |s.young - g.copies.Keys|
    && g'.open == g.open - {p} + {p'} && p' !in g.open && Filling(s, g', p', f, f)
  }

  /** The place `p0` has given way to `p`, the one that is being filled. */
  ghost predicate Moved(g0: Progress, g: Progress, p0: Loc, p: Loc) {
    Advances(g0, g) && g.open == g0.open - {p0} + {p} && (p == p0 || p !in g0.open)
  }

  lemma MovedOn(s: Snap, g0: Progress, g: Progress, g': Progress, p0: Loc, p: Loc, p': Loc, f: Value)
    requires Moved(g0, g, p0, p) && FillsNext(s, g, g', p, p', f)
    ensures Moved(g0, g', p0, p') == true
  {
    AdvancesTrans(g0, g, g');
  }

  lemma MovedLast(g0: Progress, g: Progress, g': Progress, p0: Loc, p: Loc)
    requires Moved(g0, g, p0, p) && Advances(g, g') && g'.open == g.open - {p}
    ensures Advances(g0, g') && g'.open == g0.open - {p0}
  {
    AdvancesTrans(g0, g, g');
  }

  /** What is to be copied for a place that is being filled is reachable. */
  lemma FillingReached(s: Snap, g: Progress, now: Now, p: Loc, u: Value, v: Value)
    requires CellsOk(s, g, now.mem) && Filling(s, g, p, u, v) && IsYoung(s, v) && !IsShortcut(s, v)
    ensures Reached(s, v.hp)
  {
    assert Denotes(s, u, v.hp);
    if p.Field? && !(Scanned(s.mem, p.a) && p.a !in s.young && p.i < |s.mem[p.a].fields|
                     && u == s.mem[p.a].fields[p.i]) {
      var y :| CopyAwaits(s, g.copies, y, p.a, p.i, u);
      assert CopyCell(s, g, now.mem, y);
      assert Leads(s, y, v.hp);
      ReachedNext(s, y, v.hp);
    } else {
      assert p.Field? ==> MajorHolds(s, p.a, p.i, u);
      ReachedFirst(s, u, v.hp);
    }
  }

  lemma SingleCopied(s: Snap, g: Progress, now: Now, p: Loc, u: Value, v: Value, b: nat)
    requires HeapOk(s) && Inv(s, g, now) && OpenOk(g.open, now.mem) && Filling(s, g, p, u, v) && v.Ptr?
             && v.hp in s.young && v.hp !in g.copies && b !in now.mem
    requires Scanned(s.mem, v.hp) && |s.mem[v.hp].fields| == 1 && v.ofs == 0 && !IsShortcut(s, v)
    ensures var g1 := WithCopy(g, v.hp, b).(open := g.open + {Field(b, 0)});
            && Filling(s, g1, p, u, v) && Image(s, g1.copies, v, Ptr(b, 0))
            && FillsNext(s, g, g1.(open := g1.open - {p}), p, Field(b, 0), s.mem[v.hp].fields[0]) == true
  {
    var g1, f := WithCopy(g, v.hp, b).(open := g.open + {Field(b, 0)}), s.mem[v.hp].fields[0];
    CopyAdvances(s, g, g1, v.hp, b);
    FillingKept(s, g, now, g1, p, u, v, v.hp, b);
    if p.Field? {
      AwaitedInMem(s, g, now, p, u);
    }
    NewField(s, g, now, g1, v.hp, b);
    assert BlockOk(s, v.hp) && CopyAwaits(s, g1.copies, v.hp, b, 0, f);
  }

  /** The fields of the block at `a` from field `i` on. */
  ghost function FieldsFrom(a: nat, i: nat, n: nat): set<Loc> {
    set j: nat | i <= j < n :: Field(a, j)
  }

  /** What is known of the block that has been taken off the list. */
  lemma TakenFields(s: Snap, g: Progress, now: Now)
    requires HeapOk(s) && Inv(s, g, now) && g.todo != [] && g.open == {}
    ensures TodoEntry(s, g, now.mem, 0)
    ensures var y, g' := g.todo[0], TakeTodo(s, g);
            && At(s, g', now, Link(g.todo, 1)) && y !in g'.todo
              && g'.open == FieldsFrom(g.copies[y], 0, |s.mem[y].fields|)
            && OffTodo(g', Field(g.copies[y], 0))
  {
    TakeTodoOk(s, g, now);
    var y, g' := g.todo[0], TakeTodo(s, g);
    assert CopyCell(s, g, now.mem, y);
    assert Link(g'.todo, 0) == Link(g.todo, 1);
    forall k: nat | k < |g'.todo| && g'.todo[k] in g'.copies ensures g'.copies[g'.todo[k]] != g.copies[y] {
      assert g'.todo[k] == g.todo[k + 1];
      assert Injective(g.copies, g'.todo[k], y);
    }
  }

  lemma CopiesYoung(s: Snap, g: Progress, now: Now)
    requires CellsOk(s, g, now.mem)
    ensures g.copies.Keys <= s.young
  {
    forall y | y in g.copies.Keys ensures y in s.young {
      assert CopyCell(s, g, now.mem, y);
    }
  }

  ghost predicate MoreDone(s: Snap, g: Progress, g': Progress) {
    var m, m' := |s.young - g.copies.Keys|, |s.young - g'.copies.Keys|;
    m' < m || (m' == m && |g'.todo| < |g.todo|)
  }

  /** Handling a block of the list copies more blocks or leaves a shorter list. */
  lemma MopupAdvances(s: Snap, g: Progress, g': Progress, now: Now)
    requires g.todo != [] && g.todo[0] in g.copies && g.todo[0] in s.mem && Advances(TakeTodo(s, g), g')
             && CellsOk(s, g', now.mem)
    ensures MoreDone(s, g, g')
  {
    CopiesYoung(s, g', now);
    if g'.copies.Keys != g.copies.Keys {
      var y :| y in g'.copies.Keys && y !in g.copies.Keys;
      assert y in s.young - g.copies.Keys;
      SubsetSize(s.young - g'.copies.Keys, s.young - g.copies.Keys);
    }
  }

  lemma RootFilling(s: Snap, g: Progress, now: Now, i: nat)
    requires HeapOk(s) && Inv(s, g, now) && g.open == {} && i == g.next < |s.roots|
    ensures i < |now.roots|
    ensures Filling(s, g.(open := g.open + {Root(i)}, next := i + 1), Root(i), s.roots[i], now.roots[i])
  {
    assert RootSlot(s, g, now.roots, i);
    if Image(s, g.copies, s.roots[i], now.roots[i]) {
      CopiesShape(s, g, now);
      ImageNotYoung(s, g.copies, now.mem, s.roots[i], now.roots[i]);
    }
  }

  lemma RefFilling(s: Snap, g: Progress, now: Now)
    requires HeapOk(s) && Inv(s, g, now) && g.open == {} && g.refs != [] && RefsValid(s, g.refs)
    ensures var r := g.refs[0];
            && r.a in now.mem && r.i < |now.mem[r.a].fields|
            && Filling(s, g.(open := g.open + {r}, refs := g.refs[1..]), r, s.mem[r.a].fields[r.i],
              now.mem[r.a].fields[r.i])
  {
    var r := g.refs[0];
    assert MajorCell(s, now.mem, r.a) && MajorSlot(s, g, now.mem, r.a, r.i) && BlockOk(s, r.a);
    OldStaysOff(s, g, now, r.a, r.i);
    if Image(s, g.copies, s.mem[r.a].fields[r.i], now.mem[r.a].fields[r.i]) {
      CopiesShape(s, g, now);
      ImageNotYoung(s, g.copies, now.mem, s.mem[r.a].fields[r.i], now.mem[r.a].fields[r.i]);
    }
  }

  lemma CopiesShape(s: Snap, g: Progress, now: Now)
    requires CellsOk(s, g, now.mem)
    ensures forall y :: CopyShape(s, g.copies, now.mem, y)
  {
    forall y ensures CopyShape(s, g.copies, now.mem, y) {
      assert CopyCell(s, g, now.mem, y);
    }
  }

  // ----- The collector -----

  /** The collection of the heap `s` has got to `g`. */
  ghost predicate At(s: Snap, g: Progress, now: Now, todo: Value) {
    HeapOk(s) && Inv(s, g, now) && todo == Link(g.todo, 0) && OpenOk(g.open, now.mem)
  }

  ghost predicate OpenOk(open: set<Loc>, m: Mem) {
    forall l :: l in open && l.Field? ==> l.a in m
  }

  /** `v` denotes a block that has not been copied and has one field to scan. */
  ghost predicate OnOneField(s: Snap, g: Progress, m: Mem, v: Value) {
    && IsYoung(s, v) && v.ofs == 0 && v.hp !in g.copies && v.hp in m && v.hp in s.mem && m[v.hp] == s.mem[v.hp]
    && Scanned(m, v.hp) && |m[v.hp].fields| == 1 && ValOk(s, m[v.hp].fields[0])
  }

  class Collector {
    var mem: Mem
    var roots: seq<Value>
    var todo: Value
    var refTable: seq<Loc>
    var young: set<nat>
    const statics: map<nat, nat>
    const outside: set<nat>

    ghost function View(): Snap reads this {
      Snap(mem, roots, young, statics, outside)
    }

    /** `s` is a heap of this collector. */
    ghost predicate Of(s: Snap) reads this {
      s.young == young && s.statics == statics && s.outside == outside
    }

    /** `*p = v`. */
    method Store(p: Loc, v: Value)
      modifies this`mem, this`roots
      ensures Now(mem, roots) == Put(old(Now(mem, roots)), p, v)
    {
      match p
      case Root(i) =>
        if i < |roots| {
          roots := roots[i := v];
        }
      case Field(a, i) =>
        if a in mem && i < |mem[a].fields| {
          mem := mem[a := mem[a].(fields := mem[a].fields[i := v])];
        }
    }

    method Fill(p: Loc, x: Value, ghost s: Snap, ghost g: Progress, ghost u: Value) returns (ghost g': Progress)
      requires Of(s) && At(s, g, Now(mem, roots), todo) && Awaits(s, g.copies, p, u) && Image(s, g.copies, u, x)
               && OffTodo(g, p)
      modifies this`mem, this`roots
      ensures At(s, g', Now(mem, roots), todo) && g' == g.(open := g.open - {p})
    {
      PutOk(s, g, Now(mem, roots), p, u, x);
      Store(p, x);
      g' := g.(open := g.open - {p});
    }

    /** `caml_alloc_shr_r`: some address that is not in use. */
    method NewAddress() returns (b: nat)
      ensures b !in mem && b !in outside && b !in young
    {
      ghost var n := Bound(mem.Keys + outside + young);
      assert n !in mem && n !in outside && n !in young;
      b :| b !in mem && b !in outside && b !in young;
    }

    /** Copy a block that is not scanned. */
    method CopyWhole(y: nat, ghost s: Snap, ghost g: Progress) returns (b: nat, ghost g': Progress)
      requires Of(s) && At(s, g, Now(mem, roots), todo) && y in young && y in s.mem && y !in g.copies
               && !Scanned(s.mem, y) && !IsShortcut(s, Ptr(y, 0))
      requires Reached(s, y)
      modifies this`mem
      ensures At(s, g', Now(mem, roots), todo) && g' == WithCopy(g, y, b) && b !in old(mem)
    {
      b := NewAddress();
      assert YoungCell(s, g, mem, y) && BlockOk(s, y);
      assert Accounted(s, g.copies, mem, b) && MajorCell(s, mem, b);
      CopyData(s, g, Now(mem, roots), y, b);
      g' := WithCopy(g, y, b);
      mem := mem[y := Cell(Zero, mem[y].fields[0 := Ptr(b, 0)])][b := mem[y]];
    }

    /** Copy the header of a block of one field. */
    method CopyOne(y: nat, ghost s: Snap, ghost g: Progress) returns (b: nat, ghost g': Progress)
      requires Of(s) && At(s, g, Now(mem, roots), todo) && y in young && y in s.mem && y !in g.copies
               && Scanned(s.mem, y) && |s.mem[y].fields| == 1 && !IsShortcut(s, Ptr(y, 0))
      requires Reached(s, y)
      modifies this`mem
      ensures At(s, g', Now(mem, roots), todo) && g' == WithCopy(g, y, b).(open := g.open + {Field(b, 0)})
              && b !in old(mem)
    {
      b := NewAddress();
      assert YoungCell(s, g, mem, y) && BlockOk(s, y);
      assert Accounted(s, g.copies, mem, b) && MajorCell(s, mem, b);
      var copy := Cell(mem[y].hd, [Long(0)]);
      CopySingle(s, g, Now(mem, roots), y, b, copy);
      g' := WithCopy(g, y, b).(open := g.open + {Field(b, 0)});
      mem := mem[y := Cell(Zero, mem[y].fields[0 := Ptr(b, 0)])][b := copy];
    }

    /** Copy the header and the first field of a longer block, and put it on the list. */
    method CopyLater(y: nat, ghost s: Snap, ghost g: Progress) returns (b: nat, ghost g': Progress)
      requires Of(s) && At(s, g, Now(mem, roots), todo) && y in young && y in s.mem && y !in g.copies
               && Scanned(s.mem, y) && |s.mem[y].fields| > 1 && !IsShortcut(s, Ptr(y, 0))
      requires Reached(s, y)
      modifies this`mem, this`todo
      ensures At(s, g', Now(mem, roots), todo) && g' == WithCopy(g, y, b).(todo := [y] + g.todo) && b !in old(mem)
    {
      b := NewAddress();
      assert YoungCell(s, g, mem, y) && BlockOk(s, y);
      assert Accounted(s, g.copies, mem, b) && MajorCell(s, mem, b);
      var fields := seq(|mem[y].fields|, _ => Long(0))[0 := mem[y].fields[0]][1 := todo];
      var copy := Cell(mem[y].hd, fields);
      CopyDeferred(s, g, Now(mem, roots), y, b, copy);
      g' := WithCopy(g, y, b).(todo := [y] + g.todo);
      mem := mem[y := Cell(Zero, mem[y].fields[0 := Ptr(b, 0)])][b := copy];
      todo := Ptr(y, 0);
    }

    /** Fill `p` with `x`, the image of `v`. */
    method FillWith(p: Loc, v: Value, x: Value, ghost s: Snap, ghost g: Progress, ghost u: Value)
      returns (ghost g': Progress)
      requires Of(s) && At(s, g, Now(mem, roots), todo) && Filling(s, g, p, u, v) && Image(s, g.copies, v, x)
      modifies this`mem, this`roots
      ensures At(s, g', Now(mem, roots), todo) && g' == g.(open := g.open - {p})
    {
      FillImage(s, g, p, u, v, x);
      g' := Fill(p, x, s, g, u);
    }

    /** A young value whose block has more than one field to scan. */
    method OldifyLong(p: Loc, v: Value, ghost s: Snap, ghost g: Progress, ghost u: Value) returns (ghost g': Progress)
      requires Of(s) && At(s, g, Now(mem, roots), todo) && Filling(s, g, p, u, v) && v.Ptr? && v.hp in young
               && v.hp in s.mem && v.hp !in g.copies
      requires Scanned(s.mem, v.hp) && |s.mem[v.hp].fields| > 1 && !IsShortcut(s, Ptr(v.hp, 0))
      modifies this`mem, this`roots, this`todo
      ensures At(s, g', Now(mem, roots), todo) && Advances(g, g') && g'.open == g.open - {p}
    {
      ghost var now := Now(mem, roots);
      var b;
      FillingReached(s, g, now, p, u, v);
      b, g' := CopyLater(v.hp, s, g);
      CopyAdvances(s, g, g', v.hp, b);
      FillingKept(s, g, now, g', p, u, v, v.hp, b);
      g' := FillWith(p, v, Ptr(b, v.ofs), s, g', u);
    }

    /** A young value whose block is not scanned. */
    method OldifyData(p: Loc, v: Value, ghost s: Snap, ghost g: Progress, ghost u: Value) returns (ghost g': Progress)
      requires Of(s) && At(s, g, Now(mem, roots), todo) && Filling(s, g, p, u, v) && v.Ptr? && v.hp in young
               && v.hp in s.mem && v.hp !in g.copies
      requires !Scanned(s.mem, v.hp) && v.ofs == 0 && !IsShortcut(s, Ptr(v.hp, 0))
      modifies this`mem, this`roots
      ensures At(s, g', Now(mem, roots), todo) && Advances(g, g') && g'.open == g.open - {p}
    {
      ghost var now := Now(mem, roots);
      var b;
      FillingReached(s, g, now, p, u, v);
      b, g' := CopyWhole(v.hp, s, g);
      CopyAdvances(s, g, g', v.hp, b);
      FillingKept(s, g, now, g', p, u, v, v.hp, b);
      g' := FillWith(p, v, Ptr(b, 0), s, g', u);
    }

    /** A young value whose block has one field: that field is filled next. */
    method OldifySingle(p: Loc, v: Value, ghost s: Snap, ghost g: Progress, ghost u: Value)
      returns (p': Loc, f: Value, ghost g': Progress)
      requires Of(s) && At(s, g, Now(mem, roots), todo) && Filling(s, g, p, u, v) && v.Ptr? && v.hp in young
               && v.hp in s.mem && v.hp !in g.copies
      requires Scanned(s.mem, v.hp) && |s.mem[v.hp].fields| == 1 && v.ofs == 0 && !IsShortcut(s, Ptr(v.hp, 0))
      modifies this`mem, this`roots
      ensures At(s, g', Now(mem, roots), todo) && f == s.mem[v.hp].fields[0] && FillsNext(s, g, g', p, p', f) == true
    {
      ghost var now := Now(mem, roots);
      assert YoungCell(s, g, mem, v.hp) && BlockOk(s, v.hp);
      f := mem[v.hp].fields[0];
      var b;
      FillingReached(s, g, now, p, u, v);
      b, g' := CopyOne(v.hp, s, g);
      p' := Field(b, 0);
      SingleCopied(s, g, now, p, u, v, b);
      g' := FillWith(p, v, Ptr(b, 0), s, g', u);
    }

    /** A young value that needs no other block: its block has been copied before, is put
        on the list, or is not scanned. */
    method OldifyAtOnce(p: Loc, v: Value, ghost s: Snap, ghost g: Progress, ghost u: Value)
      returns (done: bool, ghost g': Progress)
      requires Of(s) && At(s, g, Now(mem, roots), todo) && Filling(s, g, p, u, v) && v.Ptr? && v.hp in young
      modifies this`mem, this`roots, this`todo
      ensures At(s, g', Now(mem, roots), todo)
      ensures done ==> Advances(g, g') && g'.open == g.open - {p}
      ensures !done ==>
                && g' == g && mem == old(mem) && roots == old(roots) && todo == old(todo)
                && OnOneField(s, g, mem, v)
    {
      assert YoungCell(s, g, mem, v.hp) && BlockOk(s, v.hp) && CopyCell(s, g, mem, v.hp);
      done, g' := true, g;
      if mem[v.hp].hd.Zero? {
        g' := FillWith(p, v, Ptr(mem[v.hp].fields[0].hp, v.ofs), s, g, u);
      } else if mem[v.hp].hd.tag < INFIX_TAG && mem[v.hp].hd.wosize > 1 {
        g' := OldifyLong(p, v, s, g, u);
      } else if mem[v.hp].hd.tag >= NO_SCAN_TAG {
        g' := OldifyData(p, v, s, g, u);
      } else {
        done := false;
      }
    }

    /** `caml_oldify_one_r`: fill the place `p0` with the image of `v0`, copying the
        block it denotes if that has not been done. */
    method OldifyOne(v0: Value, p0: Loc, ghost s: Snap, ghost g0: Progress, ghost u0: Value) returns (ghost g: Progress)
      requires Of(s) && At(s, g0, Now(mem, roots), todo) && Filling(s, g0, p0, u0, v0)
      modifies this`mem, this`roots, this`todo
      ensures At(s, g, Now(mem, roots), todo) && Advances(g0, g) && g.open == g0.open - {p0}
    {
      var v, p := v0, p0;
      ghost var u := u0;
      g := g0;
      while v.Ptr? && v.hp in young
        invariant At(s, g, Now(mem, roots), todo) && Filling(s, g, p, u, v) && Moved(g0, g, p0, p)
        decreases |s.young - g.copies.Keys|, if IsShortcut(s, v) then 1 else 0
      {
        ghost var g1, p1 := g, p;
        var done;
        done, g := OldifyAtOnce(p, v, s, g, u);
        if done {
          MovedLast(g0, g1, g, p0, p);
          return;
        }
        KeepsNow(s, g, Now(mem, roots), mem[v.hp].fields[0]);
        if mem[v.hp].hd.tag == FORWARD_TAG && !MustKeep(mem, young, statics, mem[v.hp].fields[0]) {
          v := mem[v.hp].fields[0];
        } else {
          p, v, g := OldifySingle(p, v, s, g, u);
          u := v;
          MovedOn(s, g0, g1, g, p0, p1, p, v);
        }
      }
      ghost var g1 := g;
      g := FillWith(p, v, v, s, g, u);
      MovedLast(g0, g1, g, p0, p);
    }

    /** Handle the fields of the block `y`, just taken off the list, from field `i` on. */
    method MopupFields(y: nat, b: nat, ghost s: Snap, ghost g0: Progress) returns (ghost g: Progress)
      requires Of(s) && At(s, g0, Now(mem, roots), todo) && y in g0.copies && g0.copies[y] == b && y !in g0.todo
               && Scanned(s.mem, y)
      requires b in mem && |mem[b].fields| == |s.mem[y].fields| > 1 && mem[b].fields[0] == s.mem[y].fields[0]
      requires g0.open == FieldsFrom(b, 0, |mem[b].fields|)
      modifies this`mem, this`roots, this`todo
      ensures At(s, g, Now(mem, roots), todo) && Advances(g0, g) && g.open == {}
    {
      var size := |mem[b].fields|;
      assert CopyCell(s, g0, mem, y);
      StaysOff(s, g0, g0, Now(mem, roots), y, 0);
      g := OldifyField(mem[b].fields[0], y, b, 0, s, g0);
      for i := 1 to size
        invariant At(s, g, Now(mem, roots), todo) && Advances(g0, g) && g.open == FieldsFrom(b, i, size)
      {
        ghost var g1 := g;
        assert YoungCell(s, g, mem, y);
        StaysOff(s, g0, g, Now(mem, roots), y, i);
        g := OldifyField(mem[y].fields[i], y, b, i, s, g);
        AdvancesTrans(g0, g1, g);
      }
    }

    /** Fill field `i` of the copy `b` of `y`. */
    method OldifyField(f: Value, y: nat, b: nat, i: nat, ghost s: Snap, ghost g0: Progress) returns (ghost g: Progress)
      requires Of(s) && At(s, g0, Now(mem, roots), todo) && y in g0.copies && g0.copies[y] == b && Scanned(s.mem, y)
      requires i < |s.mem[y].fields| && f == s.mem[y].fields[i] && OffTodo(g0, Field(b, i))
      requires g0.open == FieldsFrom(b, i, |s.mem[y].fields|)
      modifies this`mem, this`roots, this`todo
      ensures At(s, g, Now(mem, roots), todo) && Advances(g0, g) && g.open == FieldsFrom(b, i + 1, |s.mem[y].fields|)
    {
      assert CopyAwaits(s, g0.copies, y, b, i, f) && BlockOk(s, y);
      assert FieldsFrom(b, i + 1, |s.mem[y].fields|) == FieldsFrom(b, i, |s.mem[y].fields|) - {Field(b, i)};
      if f.Ptr? && f.hp in young {
        g := OldifyOne(f, Field(b, i), s, g0, f);
      } else {
        g := FillWith(Field(b, i), f, f, s, g0, f);
      }
    }

    /** Handle the first block on the list. */
    method MopupFirst(ghost s: Snap, ghost g0: Progress) returns (ghost g: Progress)
      requires Of(s) && At(s, g0, Now(mem, roots), todo) && g0.open == {} && todo != Long(0)
      modifies this`mem, this`roots, this`todo
      ensures At(s, g, Now(mem, roots), todo) && g.open == {} && g.refs == g0.refs && g.next == g0.next
              && MoreDone(s, g0, g)
    {
      TakenFields(s, g0, Now(mem, roots));
      var v := todo.hp;
      assert YoungCell(s, g0, mem, v) && CopyCell(s, g0, mem, v);
      var b := mem[v].fields[0].hp;
      todo := mem[b].fields[1];
      g := MopupFields(v, b, s, TakeTodo(s, g0));
      MopupAdvances(s, g0, g, Now(mem, roots));
    }

    /** `caml_oldify_mopup_r`: handle the blocks on the list until it is empty. */
    method OldifyMopup(ghost s: Snap, ghost g0: Progress) returns (ghost g: Progress)
      requires Of(s) && At(s, g0, Now(mem, roots), todo) && g0.open == {}
      modifies this`mem, this`roots, this`todo
      ensures At(s, g, Now(mem, roots), todo) && g.open == {} && g.todo == [] && g.refs == g0.refs && g.next == g0.next
    {
      g := g0;
      while todo != Long(0)
        invariant At(s, g, Now(mem, roots), todo) && g.open == {} && g.refs == g0.refs && g.next == g0.next
        decreases |s.young - g.copies.Keys|, |g.todo|
      {
        g := MopupFirst(s, g);
      }
    }

    /** `caml_empty_minor_heap_r`: the young blocks that are reachable from the roots or
        the reference table are copied, and the minor heap and the table are empty. */
    method EmptyMinorHeap() returns (ghost f: map<nat, nat>)
      requires Ready(View(), refTable)
      modifies this
      ensures Collects(old(View()), View(), f)
      ensures forall y :: y in f <==> Reached(old(View()), y)
      ensures refTable == [] && Ready(View(), refTable)
    {
      ghost var s := View();
      ghost var g := Progress(map[], [], {}, refTable, 0);
      StartOk(s, refTable);
      todo := Long(0);
      g := OldifyRoots(s, g);
      g := OldifyRefs(s, g);
      g := OldifyMopup(s, g);
      FinishOk(s, g, Now(mem, roots));
      f := g.copies;
      DropYoung(s, f, Now(mem, roots));
      mem := mem - young;
      refTable := [];
      young := {};
      CollectionReady(s, View(), f);
      forall y ensures y in f <==> Reached(s, y) {
        CopiedIffReached(s, f, Now(mem, roots), y);
      }
    }

    method OldifyRoots(ghost s: Snap, ghost g0: Progress) returns (ghost g: Progress)
      requires Of(s) && At(s, g0, Now(mem, roots), todo) && g0.open == {} && g0.next == 0
      modifies this`mem, this`roots, this`todo
      ensures At(s, g, Now(mem, roots), todo) && g.open == {} && g.refs == g0.refs && g.next == |s.roots|
    {
      g := g0;
      for i := 0 to |roots|
        invariant At(s, g, Now(mem, roots), todo) && g.open == {} && g.refs == g0.refs && g.next == i
                  && |roots| == |s.roots|
      {
        OpenRoot(s, g, Now(mem, roots));
        RootFilling(s, g, Now(mem, roots), i);
        g := g.(open := g.open + {Root(i)}, next := i + 1);
        g := OldifyOne(roots[i], Root(i), s, g, s.roots[i]);
      }
    }

    method OldifyRefs(ghost s: Snap, ghost g0: Progress) returns (ghost g: Progress)
      requires Of(s) && At(s, g0, Now(mem, roots), todo) && g0.open == {} && g0.refs == refTable
               && RefsValid(s, refTable)
      modifies this`mem, this`roots, this`todo
      ensures At(s, g, Now(mem, roots), todo) && g.open == {} && g.refs == [] && g.next == g0.next
    {
      g := g0;
      for k := 0 to |refTable|
        invariant At(s, g, Now(mem, roots), todo) && g.open == {} && g.refs == refTable[k..] && g.next == g0.next
      {
        var r := refTable[k];
        OpenRef(s, g, Now(mem, roots));
        RefFilling(s, g, Now(mem, roots));
        g := g.(open := g.open + {r}, refs := g.refs[1..]);
        g := OldifyOne(mem[r.a].fields[r.i], r, s, g, s.mem[r.a].fields[r.i]);
      }
    }

    /** `Modify` of a field of a block, as far as the minor heap is concerned. */
    method Modify(a: nat, i: nat, val: Value)
      requires a in mem && i < |mem[a].fields|
      modifies this`mem, this`refTable
      ensures mem == Stored(old(mem), a, i, val)
      ensures refTable == old(refTable) + if Enters(old(View()), a, i, val, false) then [Field(a, i)] else []
      ensures Ready(old(View()), old(refTable)) && Scanned(old(mem), a) && ValOk(old(View()), val) ==>
                Stores(old(View()), old(refTable), View(), refTable, a, i, val, false) && Ready(View(), refTable)
    {
      ghost var s, refs := View(), refTable;
      var previous := mem[a].fields[i];
      mem := Stored(mem, a, i, val);
      if a !in young {
        if val.Ptr? && val.hp in young && !(previous.Ptr? && previous.hp in young) {
          refTable := refTable + [Field(a, i)];
        }
      }
      if Ready(s, refs) && Scanned(s.mem, a) && ValOk(s, val) {
        StoreReady(s, refs, View(), refTable, a, i, val, false);
      }
    }

    /** `caml_initialize_r`. */
    method Initialize(a: nat, i: nat, val: Value)
      requires a in mem && i < |mem[a].fields|
      modifies this`mem, this`refTable
      ensures mem == Stored(old(mem), a, i, val)
      ensures refTable == old(refTable) + if Enters(old(View()), a, i, val, true) then [Field(a, i)] else []
      ensures Ready(old(View()), old(refTable)) && Scanned(old(mem), a) && ValOk(old(View()), val) ==>
                Stores(old(View()), old(refTable), View(), refTable, a, i, val, true) && Ready(View(), refTable)
    {
      ghost var s, refs := View(), refTable;
      mem := Stored(mem, a, i, val);
      if val.Ptr? && val.hp in young && a !in young {
        refTable := refTable + [Field(a, i)];
      }
      if Ready(s, refs) && Scanned(s.mem, a) && ValOk(s, val) {
        StoreReady(s, refs, View(), refTable, a, i, val, true);
      }
    }
  }

  lemma {:induction false} Bound(keys: set<nat>) returns (n: nat)
    ensures forall k :: k in keys ==> k < n
    decreases keys
  {
    if keys == {} {
      n := 0;
    } else {
      var k :| k in keys;
      var m := Bound(keys - {k});
      n := if k < m then m else k + 1;
      assert forall x :: x in keys ==> x == k || x in keys - {k};
    }
  }
}
