/**
 The minor heap (byterun/minor_gc.c): what a minor collection must do, and the
 invariant that its steps keep.

 Young blocks are copied to the major heap.  A copied block has header 0 and its
 first field points to the copy; copies whose fields are still to be handled form
 a list that is threaded through field 1 of the copies.
 */
module MinorHeap {
  import opened Mlvalues
  import opened Blocks

  /** A header: 0 marks a young block that has been copied. */
  datatype Hd = Zero | Hd(tag: nat, wosize: nat)

  datatype Cell = Cell(hd: Hd, fields: seq<Value>)

  type Mem = map<nat, Cell>

  /** A place that holds a value. */
  datatype Loc = Root(i: nat) | Field(a: nat, i: nat)

  /** The heap when the collection starts: `young` are the blocks of the minor heap,
      `statics` the tags of static data, `outside` the addresses outside the heap
      that values may hold. */
  datatype Snap = Snap(mem: Mem, roots: seq<Value>, young: set<nat>, statics: map<nat, nat>, outside: set<nat>)

  /** What the collection changes. */
  datatype Now = Now(mem: Mem, roots: seq<Value>)

  // ----- Well-formed heaps -----

  predicate IsYoung(s: Snap, v: Value) {
    v.Ptr? && v.hp in s.young
  }

  predicate Scanned(m: Mem, a: nat) {
    a in m && m[a].hd.Hd? && m[a].hd.tag < NO_SCAN_TAG
  }

  /** A young pointer denotes a block; an infix pointer denotes a closure of more than
      one field. */
  ghost predicate ValOk(s: Snap, v: Value) {
    && (v.Ptr? ==> v.hp in s.mem || v.hp in s.outside)
    && (IsYoung(s, v) ==>
        && v.hp in s.mem
        && (v.ofs > 0 ==> s.mem[v.hp].hd.Hd? && s.mem[v.hp].hd.tag < INFIX_TAG && s.mem[v.hp].hd.wosize > 1))
  }

  ghost predicate BlockOk(s: Snap, a: nat) {
    a in s.mem ==>
      && s.mem[a].hd.Hd? && |s.mem[a].fields| == s.mem[a].hd.wosize >= 1 && s.mem[a].hd.tag != INFIX_TAG
      && (s.mem[a].hd.tag == FORWARD_TAG ==> s.mem[a].hd.wosize == 1)
      && (s.mem[a].hd.tag < NO_SCAN_TAG ==> forall i :: 0 <= i < |s.mem[a].fields| ==> ValOk(s, s.mem[a].fields[i]))
  }

  ghost predicate HeapOk(s: Snap) {
    && s.young <= s.mem.Keys
    && (forall a {:trigger BlockOk(s, a)} :: BlockOk(s, a))
    && (forall i :: 0 <= i < |s.roots| ==> ValOk(s, s.roots[i]))
  }

  // ----- Forwarding blocks -----

  function TagOf(s: Snap, v: Value): nat
    requires v.Ptr?
  {
    if v.ofs > 0 then INFIX_TAG
    else if v.hp in s.mem && s.mem[v.hp].hd.Hd? then s.mem[v.hp].hd.tag
    else if v.hp in s.statics then s.statics[v.hp]
    else 0
  }

  /** A forwarded value that must stay behind its forwarding block. */
  predicate Keeps(s: Snap, f: Value) {
    f.Ptr? && ((f.hp !in s.mem && f.hp !in s.statics) || TagOf(s, f) in {FORWARD_TAG, LAZY_TAG, DOUBLE_TAG})
  }

  predicate IsShortcut(s: Snap, v: Value) {
    && IsYoung(s, v) && v.ofs == 0 && v.hp in s.mem && s.mem[v.hp].hd.Hd? && s.mem[v.hp].hd.tag == FORWARD_TAG
    && |s.mem[v.hp].fields| > 0 && !Keeps(s, s.mem[v.hp].fields[0])
  }

  /** The value that takes the place of `v`, young or not. */
  function Dest(s: Snap, v: Value): Value {
    if IsShortcut(s, v) then s.mem[v.hp].fields[0] else v
  }

  /** `x` is what `v` becomes when `f` says where young blocks have gone. */
  ghost predicate Image(s: Snap, f: map<nat, nat>, v: Value, x: Value) {
    var d := Dest(s, v);
    if IsYoung(s, d) then d.hp in f && x == Ptr(f[d.hp], d.ofs) else x == d
  }

  // ----- Reachable young blocks -----

  /** `v` is in a root or in a scanned field of the major heap. */
  ghost predicate Holds(s: Snap, v: Value) {
    || (exists i :: 0 <= i < |s.roots| && s.roots[i] == v)
    || (exists a, i :: MajorHolds(s, a, i, v))
  }

  ghost predicate MajorHolds(s: Snap, a: nat, i: nat, v: Value) {
    Scanned(s.mem, a) && a !in s.young && i < |s.mem[a].fields| && s.mem[a].fields[i] == v
  }

  /** `y` is what `v` denotes, past a forwarding block. */
  predicate Denotes(s: Snap, v: Value, y: nat) {
    IsYoung(s, Dest(s, v)) && Dest(s, v).hp == y
  }

  ghost predicate Leads(s: Snap, x: nat, y: nat) {
    x in s.young && Scanned(s.mem, x) && exists i :: 0 <= i < |s.mem[x].fields| && Denotes(s, s.mem[x].fields[i], y)
  }

  /** A path through young blocks from a root or a field of the major heap. */
  ghost predicate YoungPath(s: Snap, p: seq<nat>) {
    && p != [] && (exists v :: Holds(s, v) && Denotes(s, v, p[0]))
    && forall k :: 0 <= k < |p| - 1 ==> Leads(s, p[k], p[k + 1])
  }

  ghost predicate Reached(s: Snap, y: nat) {
    exists p :: YoungPath(s, p) && p[|p| - 1] == y
  }

  lemma ReachedFirst(s: Snap, v: Value, y: nat)
    requires Holds(s, v) && Denotes(s, v, y)
    ensures Reached(s, y)
  {
    assert YoungPath(s, [y]);
  }

  lemma ReachedNext(s: Snap, x: nat, y: nat)
    requires Reached(s, x) && Leads(s, x, y)
    ensures Reached(s, y)
  {
    var p :| YoungPath(s, p) && p[|p| - 1] == x;
    assert YoungPath(s, p + [y]);
  }

  // ----- The invariant -----

  /** Where the collection has got to: `copies` maps copied young blocks to their
      copies; `todo` are the blocks on the list; `open` are places that are about
      to be filled; `refs` are the entries of the reference table and `next` the
      first root still to be handled. */
  datatype Progress = Progress(copies: map<nat, nat>, todo: seq<nat>, open: set<Loc>, refs: seq<Loc>, next: nat)

  ghost predicate YoungCell(s: Snap, g: Progress, m: Mem, y: nat) {
    y in s.young ==>
      && y in m && y in s.mem
      && m[y] == if y in g.copies && |s.mem[y].fields| > 0 then Cell(Zero, s.mem[y].fields[0 := Ptr(g.copies[y], 0)])
        else s.mem[y]
  }

  /** The copy of `y` has the shape of `y` and is new. */
  ghost predicate CopyCell(s: Snap, g: Progress, m: Mem, y: nat) {
    y in g.copies ==>
      && y in s.young && y in s.mem && !IsShortcut(s, Ptr(y, 0)) && Reached(s, y)
      && g.copies[y] in m && g.copies[y] !in s.mem && g.copies[y] !in s.outside
      && m[g.copies[y]].hd == s.mem[y].hd && |m[g.copies[y]].fields| == |s.mem[y].fields|
  }

  ghost predicate CopyField(s: Snap, f: map<nat, nat>, m: Mem, y: nat, i: nat) {
    && y in f && y in s.mem && i < |s.mem[y].fields| && f[y] in m && i < |m[f[y]].fields|
    && if Scanned(s.mem, y) then Image(s, f, s.mem[y].fields[i], m[f[y]].fields[i])
      else m[f[y]].fields[i] == s.mem[y].fields[i]
  }

  ghost predicate CopySlot(s: Snap, g: Progress, m: Mem, y: nat, i: nat) {
    y in g.copies && y in s.mem && i < |s.mem[y].fields| ==>
      y in g.todo || Field(g.copies[y], i) in g.open || CopyField(s, g.copies, m, y, i)
  }

  /** A block of the major heap keeps its header; its fields change only if they are
      scanned. */
  ghost predicate MajorCell(s: Snap, m: Mem, a: nat) {
    a in s.mem && a !in s.young ==>
      && a in m && m[a].hd == s.mem[a].hd && |m[a].fields| == |s.mem[a].fields|
      && (!Scanned(s.mem, a) ==> m[a] == s.mem[a])
  }

  ghost predicate MajorSlot(s: Snap, g: Progress, m: Mem, a: nat, i: nat) {
    Scanned(s.mem, a) && a !in s.young && i < |s.mem[a].fields| && a in m && i < |m[a].fields| ==>
      || Image(s, g.copies, s.mem[a].fields[i], m[a].fields[i])
      || (m[a].fields[i] == s.mem[a].fields[i] && Field(a, i) in g.refs)
      || Field(a, i) in g.open
  }

  ghost predicate RootSlot(s: Snap, g: Progress, roots: seq<Value>, i: nat) {
    i < |s.roots| && i < |roots| ==>
      Image(s, g.copies, s.roots[i], roots[i]) || (roots[i] == s.roots[i] && i >= g.next) || Root(i) in g.open
  }

  ghost predicate Injective(f: map<nat, nat>, x: nat, y: nat) {
    x in f && y in f && f[x] == f[y] ==> x == y
  }

  ghost predicate CellsOk(s: Snap, g: Progress, m: Mem) {
    && (forall y {:trigger YoungCell(s, g, m, y)} :: YoungCell(s, g, m, y))
    && (forall y {:trigger CopyCell(s, g, m, y)} :: CopyCell(s, g, m, y))
    && (forall a {:trigger MajorCell(s, m, a)} :: MajorCell(s, m, a))
    && (forall x, y {:trigger Injective(g.copies, x, y)} :: Injective(g.copies, x, y))
    && (forall a {:trigger Accounted(s, g.copies, m, a)} :: Accounted(s, g.copies, m, a))
  }

  /** There are no blocks but the old ones and the copies. */
  ghost predicate Accounted(s: Snap, f: map<nat, nat>, m: Mem, a: nat) {
    a in m ==> a in s.mem || exists y :: y in f && f[y] == a
  }

  ghost predicate SlotsOk(s: Snap, g: Progress, now: Now) {
    && (forall y: nat, i: nat {:trigger CopySlot(s, g, now.mem, y, i)} :: CopySlot(s, g, now.mem, y, i))
    && (forall a: nat, i: nat {:trigger MajorSlot(s, g, now.mem, a, i)} :: MajorSlot(s, g, now.mem, a, i))
    && (forall i: nat {:trigger RootSlot(s, g, now.roots, i)} :: RootSlot(s, g, now.roots, i))
  }

  /** The link in field 1 of a copy on the list, 0 at its end. */
  function Link(todo: seq<nat>, k: nat): Value {
    if k < |todo| then Ptr(todo[k], 0) else Long(0)
  }

  ghost predicate TodoEntry(s: Snap, g: Progress, m: Mem, k: nat) {
    k < |g.todo| ==>
      && g.todo[k] in g.copies && g.todo[k] in s.mem && |s.mem[g.todo[k]].fields| > 1 && Scanned(s.mem, g.todo[k])
      && g.copies[g.todo[k]] in m && |m[g.copies[g.todo[k]]].fields| > 1
      && m[g.copies[g.todo[k]]].fields[0] == s.mem[g.todo[k]].fields[0]
      && m[g.copies[g.todo[k]]].fields[1] == Link(g.todo, k + 1)
      && forall j :: k < j < |g.todo| ==> g.todo[j] != g.todo[k]
  }

  ghost predicate TodoOk(s: Snap, g: Progress, m: Mem) {
    forall k: nat {:trigger TodoEntry(s, g, m, k)} :: TodoEntry(s, g, m, k)
  }

  ghost predicate Inv(s: Snap, g: Progress, now: Now) {
    CellsOk(s, g, now.mem) && SlotsOk(s, g, now) && TodoOk(s, g, now.mem) && |now.roots| == |s.roots|
  }

  // ----- Filling a place -----

  function Put(now: Now, p: Loc, v: Value): Now {
    match p
    case Root(i) => if i < |now.roots| then now.(roots := now.roots[i := v]) else now
    case Field(a, i) =>
      if a in now.mem && i < |now.mem[a].fields|
        then now.(mem := now.mem[a := now.mem[a].(fields := now.mem[a].fields[i := v])]) else now
  }

  /** `u` is the value that belongs in `p`, before forwarding. */
  ghost predicate Awaits(s: Snap, f: map<nat, nat>, p: Loc, u: Value) {
    match p
    case Root(i) => i < |s.roots| && u == s.roots[i]
    case Field(a, i) =>
      || (Scanned(s.mem, a) && a !in s.young && i < |s.mem[a].fields| && u == s.mem[a].fields[i])
      || exists y :: CopyAwaits(s, f, y, a, i, u)
  }

  ghost predicate CopyAwaits(s: Snap, f: map<nat, nat>, y: nat, a: nat, i: nat, u: Value) {
    y in f && f[y] == a && Scanned(s.mem, y) && i < |s.mem[y].fields| && u == s.mem[y].fields[i]
  }

  ghost predicate OffTodo(g: Progress, p: Loc) {
    p.Field? ==> forall k :: 0 <= k < |g.todo| && g.todo[k] in g.copies ==> g.copies[g.todo[k]] != p.a
  }

  lemma PutCells(s: Snap, g: Progress, now: Now, p: Loc, u: Value, x: Value)
    requires CellsOk(s, g, now.mem) && Awaits(s, g.copies, p, u)
    ensures CellsOk(s, g.(open := g.open - {p}), Put(now, p, x).mem)
  {
    var g', m' := g.(open := g.open - {p}), Put(now, p, x).mem;
    if p.Field? && !(Scanned(s.mem, p.a) && p.a !in s.young) {
      var y0 :| CopyAwaits(s, g.copies, y0, p.a, p.i, u);
      assert CopyCell(s, g, now.mem, y0);
    }
    forall y ensures YoungCell(s, g', m', y) && CopyCell(s, g', m', y) {
      assert YoungCell(s, g, now.mem, y) && CopyCell(s, g, now.mem, y);
    }
    forall a ensures MajorCell(s, m', a) {
      assert MajorCell(s, now.mem, a);
    }
    forall x, y ensures Injective(g'.copies, x, y) {
      assert Injective(g.copies, x, y);
    }
    forall a ensures Accounted(s, g'.copies, m', a) {
      assert Accounted(s, g.copies, now.mem, a);
    }
  }

  lemma PutTodo(s: Snap, g: Progress, now: Now, p: Loc, x: Value)
    requires TodoOk(s, g, now.mem) && OffTodo(g, p)
    ensures TodoOk(s, g.(open := g.open - {p}), Put(now, p, x).mem)
  {
    var g', m' := g.(open := g.open - {p}), Put(now, p, x).mem;
    forall k: nat ensures TodoEntry(s, g', m', k) {
      assert TodoEntry(s, g, now.mem, k);
    }
  }

  lemma PutSlots(s: Snap, g: Progress, now: Now, p: Loc, u: Value, x: Value)
    requires Inv(s, g, now) && Awaits(s, g.copies, p, u) && Image(s, g.copies, u, x) && OffTodo(g, p)
    ensures SlotsOk(s, g.(open := g.open - {p}), Put(now, p, x))
  {
    var g', now' := g.(open := g.open - {p}), Put(now, p, x);
    forall y: nat, i: nat ensures CopySlot(s, g', now'.mem, y, i) {
      PutCopySlot(s, g, now, p, u, x, y, i);
    }
    forall a: nat, i: nat ensures MajorSlot(s, g', now'.mem, a, i) {
      PutMajorSlot(s, g, now, p, u, x, a, i);
    }
    forall i: nat ensures RootSlot(s, g', now'.roots, i) {
      assert RootSlot(s, g, now.roots, i);
    }
  }

  lemma PutCopySlot(s: Snap, g: Progress, now: Now, p: Loc, u: Value, x: Value, y: nat, i: nat)
    requires CellsOk(s, g, now.mem) && CopySlot(s, g, now.mem, y, i)
    requires Awaits(s, g.copies, p, u) && Image(s, g.copies, u, x)
    ensures CopySlot(s, g.(open := g.open - {p}), Put(now, p, x).mem, y, i)
  {
    assert CopyCell(s, g, now.mem, y);
    if y in g.copies && p == Field(g.copies[y], i) {
      if exists y0 :: CopyAwaits(s, g.copies, y0, p.a, p.i, u) {
        var y0 :| CopyAwaits(s, g.copies, y0, p.a, p.i, u);
        assert Injective(g.copies, y, y0);
      }
    }
  }

  lemma CopiesAreNew(s: Snap, g: Progress, m: Mem)
    requires CellsOk(s, g, m)
    ensures forall y :: y in g.copies ==> g.copies[y] !in s.mem && g.copies[y] !in s.outside
  {
    forall y | y in g.copies ensures g.copies[y] !in s.mem && g.copies[y] !in s.outside {
      assert CopyCell(s, g, m, y);
    }
  }

  lemma PutMajorSlot(s: Snap, g: Progress, now: Now, p: Loc, u: Value, x: Value, a: nat, i: nat)
    requires CellsOk(s, g, now.mem) && MajorSlot(s, g, now.mem, a, i)
    requires Awaits(s, g.copies, p, u) && Image(s, g.copies, u, x)
    ensures MajorSlot(s, g.(open := g.open - {p}), Put(now, p, x).mem, a, i)
  {
    assert MajorCell(s, now.mem, a);
    CopiesAreNew(s, g, now.mem);
  }

  /** Storing the image of the value that `p` awaits. */
  lemma PutOk(s: Snap, g: Progress, now: Now, p: Loc, u: Value, x: Value)
    requires Inv(s, g, now) && Awaits(s, g.copies, p, u) && Image(s, g.copies, u, x) && OffTodo(g, p)
    ensures Inv(s, g.(open := g.open - {p}), Put(now, p, x))
  {
    PutCells(s, g, now, p, u, x);
    PutTodo(s, g, now, p, x);
    PutSlots(s, g, now, p, u, x);
  }

  // ----- Copying a block -----

  /** The heap after the young block `y` has been forwarded to its copy at `b`. */
  function Forwarded(m: Mem, y: nat, b: nat, copy: Cell): Mem
    requires y in m && |m[y].fields| > 0
  {
    m[y := Cell(Zero, m[y].fields[0 := Ptr(b, 0)])][b := copy]
  }

  ghost predicate CanCopy(s: Snap, g: Progress, now: Now, y: nat, b: nat, copy: Cell) {
    && y in s.young && y in s.mem && !IsShortcut(s, Ptr(y, 0)) && y !in g.copies && y in now.mem
      && now.mem[y] == s.mem[y]
    && b !in now.mem && b !in s.mem && b !in s.outside
    && copy.hd == s.mem[y].hd && |copy.fields| == |s.mem[y].fields| > 0 && Reached(s, y)
  }

  ghost function WithCopy(g: Progress, y: nat, b: nat): Progress {
    g.(copies := g.copies[y := b])
  }

  lemma ImageGrows(s: Snap, f: map<nat, nat>, y: nat, b: nat, v: Value, x: Value)
    requires Image(s, f, v, x) && y !in f
    ensures Image(s, f[y := b], v, x)
  {
  }

  lemma CopyCells(s: Snap, g: Progress, now: Now, y: nat, b: nat, copy: Cell)
    requires CellsOk(s, g, now.mem) && CanCopy(s, g, now, y, b, copy)
    ensures CellsOk(s, WithCopy(g, y, b), Forwarded(now.mem, y, b, copy))
  {
    var g', m' := WithCopy(g, y, b), Forwarded(now.mem, y, b, copy);
    forall z ensures YoungCell(s, g', m', z) && CopyCell(s, g', m', z) {
      assert YoungCell(s, g, now.mem, z) && CopyCell(s, g, now.mem, z);
    }
    forall a ensures MajorCell(s, m', a) {
      assert MajorCell(s, now.mem, a);
    }
    forall x, z ensures Injective(g'.copies, x, z) {
      assert Injective(g.copies, x, z) && CopyCell(s, g, now.mem, x) && CopyCell(s, g, now.mem, z);
    }
    forall a ensures Accounted(s, g'.copies, m', a) {
      assert Accounted(s, g.copies, now.mem, a);
      if a == b {
        assert g'.copies[y] == a;
      } else if a in now.mem && a !in s.mem {
        var z :| z in g.copies && g.copies[z] == a;
        assert g'.copies[z] == a;
      }
    }
  }

  /** The slots of all other blocks, and the roots, are as they were. */
  lemma CopyOtherSlots(s: Snap, g: Progress, now: Now, y: nat, b: nat, copy: Cell)
    requires CellsOk(s, g, now.mem) && SlotsOk(s, g, now) && CanCopy(s, g, now, y, b, copy)
    ensures var g', m' := WithCopy(g, y, b), Forwarded(now.mem, y, b, copy);
            && (forall z: nat, i: nat {:trigger CopySlot(s, g', m', z, i)} :: z != y ==> CopySlot(s, g', m', z, i))
            && (forall a: nat, i: nat {:trigger MajorSlot(s, g', m', a, i)} :: MajorSlot(s, g', m', a, i))
            && (forall i: nat {:trigger RootSlot(s, g', now.roots, i)} :: RootSlot(s, g', now.roots, i))
  {
    var g', m' := WithCopy(g, y, b), Forwarded(now.mem, y, b, copy);
    forall z: nat, i: nat | z != y ensures CopySlot(s, g', m', z, i) {
      CopyOtherSlot(s, g, now, y, b, copy, z, i);
    }
    forall a: nat, i: nat ensures MajorSlot(s, g', m', a, i) {
      assert MajorSlot(s, g, now.mem, a, i) && MajorCell(s, now.mem, a);
    }
    forall i: nat ensures RootSlot(s, g', now.roots, i) {
      assert RootSlot(s, g, now.roots, i);
    }
  }

  lemma CopyOtherSlot(s: Snap, g: Progress, now: Now, y: nat, b: nat, copy: Cell, z: nat, i: nat)
    requires CellsOk(s, g, now.mem) && SlotsOk(s, g, now) && CanCopy(s, g, now, y, b, copy) && z != y
    ensures CopySlot(s, WithCopy(g, y, b), Forwarded(now.mem, y, b, copy), z, i)
  {
    assert CopySlot(s, g, now.mem, z, i) && CopyCell(s, g, now.mem, z);
    if CopyField(s, g.copies, now.mem, z, i) && Scanned(s.mem, z) {
      ImageGrows(s, g.copies, y, b, s.mem[z].fields[i], now.mem[g.copies[z]].fields[i]);
    }
  }

  lemma CopyTodo(s: Snap, g: Progress, now: Now, y: nat, b: nat, copy: Cell)
    requires CellsOk(s, g, now.mem) && TodoOk(s, g, now.mem) && CanCopy(s, g, now, y, b, copy)
    ensures TodoOk(s, WithCopy(g, y, b), Forwarded(now.mem, y, b, copy))
  {
    var g', m' := WithCopy(g, y, b), Forwarded(now.mem, y, b, copy);
    forall k: nat ensures TodoEntry(s, g', m', k) {
      assert TodoEntry(s, g, now.mem, k);
      assert k < |g.todo| ==> CopyCell(s, g, now.mem, g.todo[k]);
    }
  }

  /** A block that is not scanned is copied whole. */
  lemma CopyData(s: Snap, g: Progress, now: Now, y: nat, b: nat)
    requires Inv(s, g, now) && y in now.mem && CanCopy(s, g, now, y, b, now.mem[y]) && !Scanned(s.mem, y)
    ensures Inv(s, WithCopy(g, y, b), now.(mem := Forwarded(now.mem, y, b, now.mem[y])))
  {
    var copy, g' := now.mem[y], WithCopy(g, y, b);
    CopyCells(s, g, now, y, b, copy);
    CopyOtherSlots(s, g, now, y, b, copy);
    CopyTodo(s, g, now, y, b, copy);
    var m' := Forwarded(now.mem, y, b, copy);
    forall i: nat ensures CopySlot(s, g', m', y, i) {
    }
  }

  /** A block of one field: that field comes next. */
  lemma CopySingle(s: Snap, g: Progress, now: Now, y: nat, b: nat, copy: Cell)
    requires Inv(s, g, now) && CanCopy(s, g, now, y, b, copy) && Scanned(s.mem, y) && |copy.fields| == 1
    ensures Inv(s, WithCopy(g, y, b).(open := g.open + {Field(b, 0)}), now.(mem := Forwarded(now.mem, y, b, copy)))
  {
    var g1 := g.(open := g.open + {Field(b, 0)});
    var g', m' := WithCopy(g1, y, b), Forwarded(now.mem, y, b, copy);
    MoreOpen(s, g, now, g1.open);
    CopyCells(s, g1, now, y, b, copy);
    CopyOtherSlots(s, g1, now, y, b, copy);
    CopyTodo(s, g1, now, y, b, copy);
    forall i: nat ensures CopySlot(s, g', m', y, i) {
    }
  }

  /** A longer block: it goes on the list. */
  lemma CopyDeferred(s: Snap, g: Progress, now: Now, y: nat, b: nat, copy: Cell)
    requires Inv(s, g, now) && CanCopy(s, g, now, y, b, copy) && Scanned(s.mem, y) && |copy.fields| > 1
    requires copy.fields[0] == s.mem[y].fields[0] && copy.fields[1] == Link(g.todo, 0)
    ensures Inv(s, WithCopy(g, y, b).(todo := [y] + g.todo), now.(mem := Forwarded(now.mem, y, b, copy)))
  {
    var g1, m' := WithCopy(g, y, b), Forwarded(now.mem, y, b, copy);
    var g' := g1.(todo := [y] + g.todo);
    CopyCells(s, g, now, y, b, copy);
    CopyOtherSlots(s, g, now, y, b, copy);
    CopyTodo(s, g, now, y, b, copy);
    SameCells(s, g1, g', m');
    forall z: nat, i: nat ensures CopySlot(s, g', m', z, i) {
      assert z != y ==> CopySlot(s, g1, m', z, i);
    }
    forall a: nat, i: nat ensures MajorSlot(s, g', m', a, i) {
      assert MajorSlot(s, g1, m', a, i);
    }
    forall i: nat ensures RootSlot(s, g', now.roots, i) {
      assert RootSlot(s, g1, now.roots, i);
    }
    forall k: nat ensures TodoEntry(s, g', m', k) {
      if 0 < k <= |g.todo| {
        assert TodoEntry(s, g1, m', k - 1);
      } else if k == 0 {
        NotOnTodo(s, g, now, y);
      }
    }
  }

  lemma NotOnTodo(s: Snap, g: Progress, now: Now, y: nat)
    requires TodoOk(s, g, now.mem) && y !in g.copies
    ensures y !in g.todo
  {
    forall k: nat | k < |g.todo| ensures g.todo[k] != y {
      assert TodoEntry(s, g, now.mem, k);
    }
  }

  lemma SameCells(s: Snap, g: Progress, g': Progress, m: Mem)
    requires CellsOk(s, g, m) && g'.copies == g.copies
    ensures CellsOk(s, g', m)
  {
    forall y ensures YoungCell(s, g', m, y) && CopyCell(s, g', m, y) && Accounted(s, g'.copies, m, y) {
      assert YoungCell(s, g, m, y) && CopyCell(s, g, m, y) && Accounted(s, g.copies, m, y);
    }
  }

  lemma MoreOpen(s: Snap, g: Progress, now: Now, open: set<Loc>)
    requires Inv(s, g, now) && g.open <= open
    ensures Inv(s, g.(open := open), now)
  {
    var g' := g.(open := open);
    SameCells(s, g, g', now.mem);
    forall y: nat, i: nat ensures CopySlot(s, g', now.mem, y, i) {
      assert CopySlot(s, g, now.mem, y, i);
    }
    forall a: nat, i: nat ensures MajorSlot(s, g', now.mem, a, i) {
      assert MajorSlot(s, g, now.mem, a, i);
    }
    forall i: nat ensures RootSlot(s, g', now.roots, i) {
      assert RootSlot(s, g, now.roots, i);
    }
    forall k: nat ensures TodoEntry(s, g', now.mem, k) {
      assert TodoEntry(s, g, now.mem, k);
    }
  }

  // ----- Taking a block off the list -----

  ghost function FieldsOf(a: nat, n: nat): set<Loc> {
    set i: nat | i < n :: Field(a, i)
  }

  /** All the fields of the first block on the list are about to be filled. */
  ghost function TakeTodo(s: Snap, g: Progress): Progress
    requires g.todo != [] && g.todo[0] in g.copies && g.todo[0] in s.mem
  {
    g.(todo := g.todo[1..], open := g.open + FieldsOf(g.copies[g.todo[0]], |s.mem[g.todo[0]].fields|))
  }

  lemma TakeTodoOk(s: Snap, g: Progress, now: Now)
    requires Inv(s, g, now) && g.todo != []
    ensures TodoEntry(s, g, now.mem, 0)
    ensures Inv(s, TakeTodo(s, g), now)
  {
    assert TodoEntry(s, g, now.mem, 0);
    var y, g' := g.todo[0], TakeTodo(s, g);
    SameCells(s, g, g', now.mem);
    forall z: nat, i: nat ensures CopySlot(s, g', now.mem, z, i) {
      assert CopySlot(s, g, now.mem, z, i);
      assert z == y && i < |s.mem[y].fields| ==> Field(g.copies[y], i) in g'.open;
    }
    forall a: nat, i: nat ensures MajorSlot(s, g', now.mem, a, i) {
      assert MajorSlot(s, g, now.mem, a, i);
    }
    forall i: nat ensures RootSlot(s, g', now.roots, i) {
      assert RootSlot(s, g, now.roots, i);
    }
    forall k: nat ensures TodoEntry(s, g', now.mem, k) {
      assert TodoEntry(s, g, now.mem, k + 1);
    }
  }

  // ----- Going through the roots and the reference table -----

  /** Root `i` is about to be handled. */
  lemma OpenRoot(s: Snap, g: Progress, now: Now)
    requires Inv(s, g, now)
    ensures Inv(s, g.(open := g.open + {Root(g.next)}, next := g.next + 1), now)
  {
    var g' := g.(open := g.open + {Root(g.next)}, next := g.next + 1);
    SameCells(s, g, g', now.mem);
    forall y: nat, i: nat ensures CopySlot(s, g', now.mem, y, i) {
      assert CopySlot(s, g, now.mem, y, i);
    }
    forall a: nat, i: nat ensures MajorSlot(s, g', now.mem, a, i) {
      assert MajorSlot(s, g, now.mem, a, i);
    }
    forall i: nat ensures RootSlot(s, g', now.roots, i) {
      assert RootSlot(s, g, now.roots, i);
    }
    forall k: nat ensures TodoEntry(s, g', now.mem, k) {
      assert TodoEntry(s, g, now.mem, k);
    }
  }

  /** The next entry of the reference table is about to be handled. */
  lemma OpenRef(s: Snap, g: Progress, now: Now)
    requires Inv(s, g, now) && g.refs != []
    ensures Inv(s, g.(open := g.open + {g.refs[0]}, refs := g.refs[1..]), now)
  {
    var g' := g.(open := g.open + {g.refs[0]}, refs := g.refs[1..]);
    SameCells(s, g, g', now.mem);
    forall y: nat, i: nat ensures CopySlot(s, g', now.mem, y, i) {
      assert CopySlot(s, g, now.mem, y, i);
    }
    forall a: nat, i: nat ensures MajorSlot(s, g', now.mem, a, i) {
      assert MajorSlot(s, g, now.mem, a, i);
      assert Field(a, i) in g.refs ==> Field(a, i) == g.refs[0] || Field(a, i) in g.refs[1..];
    }
    forall i: nat ensures RootSlot(s, g', now.roots, i) {
      assert RootSlot(s, g, now.roots, i);
    }
    forall k: nat ensures TodoEntry(s, g', now.mem, k) {
      assert TodoEntry(s, g, now.mem, k);
    }
  }

  // ----- The whole collection -----

  /** Every scanned field of the major heap that holds a young pointer is in the
      reference table. */
  ghost predicate RefsOk(s: Snap, refs: seq<Loc>) {
    forall a: nat, i: nat {:trigger Field(a, i)} ::
      Scanned(s.mem, a) && a !in s.young && i < |s.mem[a].fields| && IsYoung(s, s.mem[a].fields[i]) ==>
        Field(a, i) in refs
  }

  lemma StartOk(s: Snap, refs: seq<Loc>)
    requires HeapOk(s) && RefsOk(s, refs)
    ensures Inv(s, Progress(map[], [], {}, refs, 0), Now(s.mem, s.roots))
  {
    var g := Progress(map[], [], {}, refs, 0);
    forall y ensures YoungCell(s, g, s.mem, y) {
      assert y in s.young ==> y in s.mem.Keys;
    }
    forall a: nat, i: nat ensures MajorSlot(s, g, s.mem, a, i) {
      assert Field(a, i).Field?;
    }
  }

  /** The heap after a minor collection: every root, every field of the major heap and
      every field of a copy is the image of what it was. */
  ghost predicate Collected(s: Snap, f: map<nat, nat>, now: Now) {
    && |now.roots| == |s.roots|
    && (forall i :: 0 <= i < |s.roots| ==> Image(s, f, s.roots[i], now.roots[i]))
    && (forall a {:trigger MajorCell(s, now.mem, a)} :: MajorCell(s, now.mem, a))
    && (forall a: nat, i: nat {:trigger MajorMoved(s, f, now.mem, a, i)} :: MajorMoved(s, f, now.mem, a, i))
    && (forall y {:trigger CopyShape(s, f, now.mem, y)} :: CopyShape(s, f, now.mem, y))
    && (forall y: nat, i: nat {:trigger CopyField(s, f, now.mem, y, i)} ::
          y in f && y in s.mem && i < |s.mem[y].fields| ==> CopyField(s, f, now.mem, y, i))
    && (forall x, y {:trigger Injective(f, x, y)} :: Injective(f, x, y))
    && (forall a {:trigger Accounted(s, f, now.mem, a)} :: Accounted(s, f, now.mem, a))
  }

  ghost predicate MajorMoved(s: Snap, f: map<nat, nat>, m: Mem, a: nat, i: nat) {
    Scanned(s.mem, a) && a !in s.young && i < |s.mem[a].fields| ==>
      a in m && i < |m[a].fields| && Image(s, f, s.mem[a].fields[i], m[a].fields[i])
  }

  ghost predicate CopyShape(s: Snap, f: map<nat, nat>, m: Mem, y: nat) {
    y in f ==>
      && y in s.young && y in s.mem && f[y] in m && f[y] !in s.mem && Reached(s, y)
      && m[f[y]].hd == s.mem[y].hd && |m[f[y]].fields| == |s.mem[y].fields|
  }

  lemma FinishOk(s: Snap, g: Progress, now: Now)
    requires Inv(s, g, now) && g.todo == [] && g.open == {} && g.refs == [] && g.next >= |s.roots|
    ensures Collected(s, g.copies, now)
  {
    forall i | 0 <= i < |s.roots| ensures Image(s, g.copies, s.roots[i], now.roots[i]) {
      assert RootSlot(s, g, now.roots, i);
    }
    forall a: nat, i: nat ensures MajorMoved(s, g.copies, now.mem, a, i) {
      assert MajorSlot(s, g, now.mem, a, i) && MajorCell(s, now.mem, a);
    }
    forall y ensures CopyShape(s, g.copies, now.mem, y) {
      assert CopyCell(s, g, now.mem, y);
    }
    forall y: nat, i: nat | y in g.copies && y in s.mem && i < |s.mem[y].fields|
      ensures CopyField(s, g.copies, now.mem, y, i)
    {
      assert CopySlot(s, g, now.mem, y, i);
    }
  }

  /** The minor heap can be emptied then. */
  lemma DropYoung(s: Snap, f: map<nat, nat>, now: Now)
    requires Collected(s, f, now) && s.young <= s.mem.Keys
    ensures Collected(s, f, now.(mem := now.mem - s.young))
  {
    var m' := now.mem - s.young;
    forall y: nat ensures CopyShape(s, f, m', y) && MajorCell(s, m', y) {
      assert CopyShape(s, f, now.mem, y) && MajorCell(s, now.mem, y);
      assert y in f ==> f[y] !in s.mem.Keys;
    }
    forall a: nat, i: nat ensures MajorMoved(s, f, m', a, i) {
      assert MajorMoved(s, f, now.mem, a, i);
    }
    forall y: nat, i: nat | y in f && y in s.mem && i < |s.mem[y].fields| ensures CopyField(s, f, m', y, i) {
      assert CopyField(s, f, now.mem, y, i) && CopyShape(s, f, m', y);
    }
    forall a ensures Accounted(s, f, m', a) {
      assert Accounted(s, f, now.mem, a);
    }
  }

  /** No image is a young pointer. */
  lemma ImageNotYoung(s: Snap, f: map<nat, nat>, m: Mem, v: Value, x: Value)
    requires Image(s, f, v, x) && HeapOk(s) && forall y :: CopyShape(s, f, m, y)
    ensures !IsYoung(s, x)
  {
    var d := Dest(s, v);
    if IsYoung(s, d) {
      assert CopyShape(s, f, m, d.hp);
      assert x.hp !in s.mem.Keys;
    }
  }

  /** After a minor collection no root and no scanned field of the major heap, copies
      included, points into the minor heap. */
  lemma NoYoungPointers(s: Snap, f: map<nat, nat>, now: Now, p: Loc)
    requires HeapOk(s) && Collected(s, f, now)
    requires if p.Root? then p.i < |now.roots| else exists u :: Awaits(s, f, p, u)
    ensures p.Root? ==> !IsYoung(s, now.roots[p.i])
    ensures p.Field? ==> p.a in now.mem && p.i < |now.mem[p.a].fields| && !IsYoung(s, now.mem[p.a].fields[p.i])
  {
    match p
    case Root(i) => ImageNotYoung(s, f, now.mem, s.roots[i], now.roots[i]);
    case Field(a, i) =>
      if Scanned(s.mem, a) && a !in s.young && i < |s.mem[a].fields| {
        assert MajorMoved(s, f, now.mem, a, i);
        ImageNotYoung(s, f, now.mem, s.mem[a].fields[i], now.mem[a].fields[i]);
      } else {
        var u :| Awaits(s, f, p, u);
        var y :| CopyAwaits(s, f, y, a, i, u);
        assert CopyShape(s, f, now.mem, y) && CopyField(s, f, now.mem, y, i);
        ImageNotYoung(s, f, now.mem, s.mem[y].fields[i], now.mem[a].fields[i]);
      }
  }

  lemma HeldIsCopied(s: Snap, f: map<nat, nat>, now: Now, v: Value, y: nat)
    requires Collected(s, f, now) && Holds(s, v) && Denotes(s, v, y)
    ensures y in f
  {
    if i :| 0 <= i < |s.roots| && s.roots[i] == v {
      assert Image(s, f, s.roots[i], now.roots[i]);
    } else {
      var a, i :| MajorHolds(s, a, i, v);
      assert MajorMoved(s, f, now.mem, a, i);
    }
  }

  lemma {:induction false} PathIsCopied(s: Snap, f: map<nat, nat>, now: Now, p: seq<nat>, k: nat)
    requires Collected(s, f, now) && YoungPath(s, p) && k < |p|
    ensures p[k] in f
  {
    if k == 0 {
      var v :| Holds(s, v) && Denotes(s, v, p[0]);
      HeldIsCopied(s, f, now, v, p[0]);
    } else {
      PathIsCopied(s, f, now, p, k - 1);
      assert Leads(s, p[k - 1], p[k - 1 + 1]);
      var i :| 0 <= i < |s.mem[p[k - 1]].fields| && Denotes(s, s.mem[p[k - 1]].fields[i], p[k]);
      assert CopyField(s, f, now.mem, p[k - 1], i);
    }
  }

  /** The young blocks that are copied are exactly the reachable ones. */
  lemma CopiedIffReached(s: Snap, f: map<nat, nat>, now: Now, y: nat)
    requires Collected(s, f, now)
    ensures y in f <==> Reached(s, y)
  {
    assert CopyShape(s, f, now.mem, y);
    if Reached(s, y) {
      var p :| YoungPath(s, p) && p[|p| - 1] == y;
      PathIsCopied(s, f, now, p, |p| - 1);
    }
  }

  /** A field of the major heap from which young blocks are reached is in the reference table. */
  lemma SourceInTable(s: Snap, refs: seq<Loc>, a: nat, i: nat, y: nat)
    requires RefsOk(s, refs) && Scanned(s.mem, a) && a !in s.young && i < |s.mem[a].fields|
    requires Denotes(s, s.mem[a].fields[i], y)
    ensures Field(a, i) in refs
  {
    assert Field(a, i).Field?;
  }
}
