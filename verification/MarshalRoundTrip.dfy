/**
 The marshal round trip: the reader runs in lockstep with the writer, and what it
 rebuilds is isomorphic to what was written, sharing and cycles included.
 */
module MarshalRoundTrip {
  import opened Mlvalues
  import opened MarshalCodec
  import opened MarshalGraph

  // ----- Isomorphism -----

  /** Object number `i` is at `a` in the source and at `b` in the copy. */
  ghost predicate Corr(seen: seq<nat>, table: seq<nat>, i: nat, a: nat, b: nat) {
    i < |seen| && i < |table| && seen[i] == a && table[i] == b
  }

  ghost predicate ValueRel(seen: seq<nat>, table: seq<nat>, v: Value, v': Value) {
    match v
    case Ref(a) => v'.Ref? && exists i :: Corr(seen, table, i, a, v'.a)
    case _ => v' == v
  }

  ghost predicate WordRel(seen: seq<nat>, table: seq<nat>, w: Word, w': Word) {
    if w.V? then w'.V? && ValueRel(seen, table, w.v, w'.v) else w' == w
  }

  ghost predicate Differ(s: seq<nat>, i: nat, j: nat) {
    i < j < |s| ==> s[i] != s[j]
  }

  ghost predicate Distinct(s: seq<nat>) {
    forall i: nat, j: nat {:trigger Differ(s, i, j)} :: Differ(s, i, j)
  }

  lemma SameIndex(s: seq<nat>, i: nat, j: nat)
    requires Distinct(s) && i < |s| && j < |s| && s[i] == s[j]
    ensures i == j
  {
    assert Differ(s, i, j) && Differ(s, j, i);
  }

  lemma DistinctAppend(s: seq<nat>, a: nat)
    requires Distinct(s) && a !in s
    ensures Distinct(s + [a])
  {
    forall i: nat, j: nat ensures Differ(s + [a], i, j) {
      assert Differ(s, i, j);
    }
  }

  /** The numbered objects have the same tags and sizes in both memories. */
  ghost predicate SameShape(mem: Mem, seen: seq<nat>, mem': Mem, table: seq<nat>, i: nat) {
    && i < |seen| && i < |table| && seen[i] in mem && table[i] in mem'
    && mem'[table[i]].tag == mem[seen[i]].tag && |mem'[table[i]].words| == |mem[seen[i]].words|
  }

  /** The slot that is refreshed rather than copied. */
  ghost predicate OidSlot(mem: Mem, a: nat, j: nat, oid: Oid) {
    oid.LastOid? && a in mem && mem[a].tag == OBJECT_TAG && j == 1
  }

  ghost predicate SlotDone(mem: Mem, seen: seq<nat>, r: Reader, i: nat, j: nat) {
    && SameShape(mem, seen, r.mem, r.table, i) && j < |mem[seen[i]].words|
    && WordRel(seen, r.table, mem[seen[i]].words[j], r.mem[r.table[i]].words[j])
  }

  ghost predicate FieldCopied(mem: Mem, seen: seq<nat>, r: Reader, i: nat, j: nat) {
    i < |seen| && seen[i] in mem && j < |mem[seen[i]].words| ==>
        || OidSlot(mem, seen[i], j, r.oid)
        || SlotDone(mem, seen, r, i, j)
  }

  /** The copy `r` of the graph that starts at `v` in `mem`, object numbers aside. */
  ghost predicate Isomorphic(mem: Mem, v: Value, seen: seq<nat>, r: Reader) {
    && |seen| == |r.table| && Distinct(seen) && Distinct(r.table)
    && (forall i {:trigger SameShape(mem, seen, r.mem, r.table, i)} :: 0 <= i < |seen| ==>
      SameShape(mem, seen, r.mem, r.table, i))
    && (forall i: nat, j: nat {:trigger FieldCopied(mem, seen, r, i, j)} :: FieldCopied(mem, seen, r, i, j))
    && ValueRel(seen, r.table, v, r.root)
  }

  // ----- The simulation -----

  /** The items that take a token. */
  function Takers(items: seq<Item>): seq<Item> {
    if items == [] then []
    else if items[0].FreshId? then Takers(items[1..])
    else [items[0]] + Takers(items[1..])
  }

  lemma {:induction false} TakersAppend(a: seq<Item>, b: seq<Item>)
    ensures Takers(a + b) == Takers(a) + Takers(b)
  {
    if a == [] {
      assert a + b == b;
    } else {
      assert (a + b)[1..] == a[1..] + b;
      TakersAppend(a[1..], b);
    }
  }

  lemma {:induction false} TakersAll(items: seq<Item>)
    requires forall k :: 0 <= k < |items| ==> !items[k].FreshId?
    ensures Takers(items) == items
  {
    if items != [] {
      TakersAll(items[1..]);
    }
  }

  lemma TakersObject(a: nat, size: nat)
    requires size >= 2
    ensures Takers(Slots(a, 0, 2) + [FreshId(a)] + Slots(a, 2, size)) == Slots(a, 0, size)
  {
    var first, rest := Slots(a, 0, 2), Slots(a, 2, size);
    TakersAppend(first + [FreshId(a)], rest);
    TakersAppend(first, [FreshId(a)]);
    TakersAll(first);
    TakersAll(rest);
    assert Takers([FreshId(a)]) == [];
    assert first + rest == Slots(a, 0, size);
  }

  lemma TakersBlock(a: nat, tag: byte, size: nat)
    ensures Takers(BlockItems(a, tag, size)) == Slots(a, 0, size)
  {
    if tag == OBJECT_TAG && size >= 2 {
      TakersObject(a, size);
    } else {
      TakersAll(Slots(a, 0, size));
    }
  }

  /** The value that item `it` is to receive. */
  ghost predicate ItemValue(mem: Mem, v0: Value, seen: seq<nat>, table: seq<nat>, it: Item, v: Value) {
    match it
    case RootSlot => v == v0
    case FreshId(_) => false
    case Slot(a, j) => exists i: nat :: i < |seen| && Corr(seen, table, i, seen[i], a) && FieldIs(mem, seen[i], j, v)
  }

  ghost predicate FieldIs(mem: Mem, a: nat, j: nat, v: Value) {
    a in mem && j < |mem[a].words| && mem[a].words[j] == V(v)
  }

  /** Every field of a numbered object has been copied, is still to be read, or is
      the `hole` that is being filled. */
  ghost predicate SlotOk(mem: Mem, seen: seq<nat>, r: Reader, hole: Item, i: nat, j: nat) {
    i < |seen| && i < |r.table| && seen[i] in mem && j < |mem[seen[i]].words| ==>
      || OidSlot(mem, seen[i], j, r.oid) || SlotDone(mem, seen, r, i, j)
      || Slot(r.table[i], j) in Takers(r.items) || hole == Slot(r.table[i], j)
  }

  ghost predicate Numbered(mem: Mem, w: Writer, r: Reader) {
    && |w.seen| == |r.table| && Distinct(w.seen) && Distinct(r.table)
    && (forall i {:trigger SameShape(mem, w.seen, r.mem, r.table, i)} :: 0 <= i < |w.seen| ==>
      SameShape(mem, w.seen, r.mem, r.table, i))
    && (forall i :: 0 <= i < |r.table| ==> r.table[i] <= r.dest)
    && r.dest == SizeOf(mem, w.seen)
  }

  ghost predicate Awaited(mem: Mem, v0: Value, w: Writer, r: Reader) {
    AllAwait(mem, v0, w.seen, r.table, Takers(r.items), w.pending)
  }

  /** The items await the values, in order. */
  ghost predicate AllAwait(mem: Mem, v0: Value, seen: seq<nat>, table: seq<nat>, items: seq<Item>, vs: seq<Value>) {
    |items| == |vs| && forall k :: 0 <= k < |vs| ==> ItemValue(mem, v0, seen, table, items[k], vs[k])
  }

  ghost predicate Copied(mem: Mem, v0: Value, w: Writer, r: Reader, hole: Item) {
    && (forall i: nat, j: nat {:trigger SlotOk(mem, w.seen, r, hole, i, j)} :: SlotOk(mem, w.seen, r, hole, i, j))
    && (ValueRel(w.seen, r.table, v0, r.root) || RootSlot in Takers(r.items) || hole == RootSlot)
  }

  const NO_HOLE := FreshId(0)

  ghost predicate Sim(mem: Mem, v0: Value, w: Writer, r: Reader, hole: Item) {
    Numbered(mem, w, r) && Awaited(mem, v0, w, r) && Copied(mem, v0, w, r, hole)
  }

  // ----- One token -----

  lemma PopSim(mem: Mem, v0: Value, w: Writer, r: Reader)
    requires Sim(mem, v0, w, r, NO_HOLE) && w.pending != [] && r.items != [] && !r.items[0].FreshId?
    ensures Sim(mem, v0, w.(pending := w.pending[1..]), r.(items := r.items[1..]), r.items[0])
    ensures ItemValue(mem, v0, w.seen, r.table, r.items[0], w.pending[0])
  {
    var w', r', hole := w.(pending := w.pending[1..]), r.(items := r.items[1..]), r.items[0];
    assert Takers(r.items) == [hole] + Takers(r'.items);
    forall k | 0 <= k < |w'.pending| ensures ItemValue(mem, v0, w.seen, r.table, Takers(r'.items)[k], w'.pending[k]) {
      assert Takers(r'.items)[k] == Takers(r.items)[k + 1];
    }
    forall i: nat, j: nat ensures SlotOk(mem, w.seen, r', hole, i, j) {
      assert SlotOk(mem, w.seen, r, NO_HOLE, i, j);
      assert SlotDone(mem, w.seen, r, i, j) ==> SlotDone(mem, w.seen, r', i, j);
    }
  }

  /** Storing the copy of the value that the hole awaits closes it. */
  lemma PutSim(mem: Mem, v0: Value, w: Writer, r: Reader, hole: Item, v: Value, v': Value)
    requires Sim(mem, v0, w, r, hole) && ItemValue(mem, v0, w.seen, r.table, hole, v)
             && ValueRel(w.seen, r.table, v, v')
    ensures Sim(mem, v0, w, Put(r, hole, v'), NO_HOLE)
  {
    var r' := Put(r, hole, v');
    match hole
    case RootSlot =>
      forall i: nat, j: nat ensures SlotOk(mem, w.seen, r', NO_HOLE, i, j) {
        assert SlotOk(mem, w.seen, r, hole, i, j);
        assert SlotDone(mem, w.seen, r, i, j) ==> SlotDone(mem, w.seen, r', i, j);
      }
      forall i | 0 <= i < |w.seen| ensures SameShape(mem, w.seen, r'.mem, r'.table, i) {
        assert SameShape(mem, w.seen, r.mem, r.table, i);
      }
    case Slot(a, j0) =>
      var i0: nat :| i0 < |w.seen| && Corr(w.seen, r.table, i0, w.seen[i0], a) && FieldIs(mem, w.seen[i0], j0, v);
      assert SameShape(mem, w.seen, r.mem, r.table, i0);
      forall i | 0 <= i < |w.seen| ensures SameShape(mem, w.seen, r'.mem, r'.table, i) {
        assert SameShape(mem, w.seen, r.mem, r.table, i);
      }
      forall i: nat, j: nat ensures SlotOk(mem, w.seen, r', NO_HOLE, i, j) {
        assert SlotOk(mem, w.seen, r, hole, i, j);
        if i < |w.seen| {
          assert SameShape(mem, w.seen, r'.mem, r'.table, i);
          if r.table[i] == a {
            SameIndex(r.table, i, i0);
          }
          if i == i0 && j == j0 {
            assert SlotDone(mem, w.seen, r', i, j);
          } else if SlotDone(mem, w.seen, r, i, j) {
            assert r'.mem[r.table[i]].words[j] == r.mem[r.table[i]].words[j];
            assert SlotDone(mem, w.seen, r', i, j);
          }
        }
      }
  }

  lemma RelGrows(seen: seq<nat>, table: seq<nat>, a: nat, b: nat, v: Value, v': Value)
    requires ValueRel(seen, table, v, v') && |seen| == |table|
    ensures ValueRel(seen + [a], table + [b], v, v')
  {
    if v.Ref? {
      var i :| Corr(seen, table, i, v.a, v'.a);
      assert Corr(seen + [a], table + [b], i, v.a, v'.a);
    }
  }

  lemma ItemValueGrows(mem: Mem, v0: Value, seen: seq<nat>, table: seq<nat>, a: nat, b: nat, it: Item, v: Value)
    requires ItemValue(mem, v0, seen, table, it, v) && |seen| == |table|
    ensures ItemValue(mem, v0, seen + [a], table + [b], it, v)
  {
    if it.Slot? {
      var i: nat :| i < |seen| && Corr(seen, table, i, seen[i], it.a) && FieldIs(mem, seen[i], it.j, v);
      assert Corr(seen + [a], table + [b], i, (seen + [a])[i], it.a);
    }
  }

  lemma SlotDoneGrows(mem: Mem, seen: seq<nat>, r: Reader, r': Reader, a: nat, i: nat, j: nat)
    requires SlotDone(mem, seen, r, i, j) && |seen| == |r.table|
    requires r'.table == r.table + [r.dest + 1] && r.table[i] in r'.mem && r'.mem[r.table[i]] == r.mem[r.table[i]]
    ensures SlotDone(mem, seen + [a], r', i, j)
  {
    var word := mem[seen[i]].words[j];
    if word.V? {
      RelGrows(seen, r.table, a, r.dest + 1, word.v, r.mem[r.table[i]].words[j].v);
    }
  }

  ghost predicate ScannedOk(mem: Mem, c: Cell) {
    c.tag < NO_SCAN_TAG ==> FieldsOk(mem, c.words)
  }

  /** The cell that the reader makes for object `a`: the data is there, the fields
      are still to come. */
  ghost predicate NewFor(c: Cell, words: seq<Word>, items: seq<Item>, b: nat) {
    && |words| == |c.words|
    && (if c.tag < NO_SCAN_TAG then Takers(items) == Slots(b, 0, |words|)
        else words == c.words && DataWords(words) && items == [])
  }

  lemma NewNumbered(mem: Mem, w: Writer, r: Reader, a: nat, words: seq<Word>, items: seq<Item>, pending: seq<Value>)
    requires Numbered(mem, w, r) && a in mem && a !in w.seen && |words| == |mem[a].words|
    ensures Numbered(mem, Writer(w.seen + [a], pending), NewCell(r, mem[a].tag, words, items))
  {
    var w', r' := Writer(w.seen + [a], pending), NewCell(r, mem[a].tag, words, items);
    forall i | 0 <= i < |w'.seen| ensures SameShape(mem, w'.seen, r'.mem, r'.table, i) {
      assert i < |w.seen| ==> SameShape(mem, w.seen, r.mem, r.table, i);
    }
    assert w'.seen[..|w.seen|] == w.seen;
    DistinctAppend(w.seen, a);
    DistinctAppend(r.table, r.dest + 1);
  }

  lemma NewItemValue(mem: Mem, v0: Value, seen: seq<nat>, table: seq<nat>, a: nat, b: nat, k: nat)
    requires |seen| == |table| && a in mem && ScannedOk(mem, mem[a]) && k < |Children(mem[a])|
    ensures ItemValue(mem, v0, seen + [a], table + [b], Slot(b, k), Children(mem[a])[k])
  {
    var seen' := seen + [a];
    assert Corr(seen', table + [b], |seen|, seen'[|seen|], b) && FieldIs(mem, a, k, Children(mem[a])[k]);
  }

  lemma FieldsAwaited(mem: Mem, v0: Value, w: Writer, r: Reader, a: nat, words: seq<Word>, items: seq<Item>)
    requires |w.seen| == |r.table| && a in mem && ScannedOk(mem, mem[a]) && NewFor(mem[a], words, items, r.dest + 1)
    ensures AllAwait(mem, v0, w.seen + [a], r.table + [r.dest + 1], Takers(items), Children(mem[a])) == true
  {
    var b, fields, takers := r.dest + 1, Children(mem[a]), Takers(items);
    assert |takers| == |fields|;
    forall k: nat | k < |fields| ensures ItemValue(mem, v0, w.seen + [a], r.table + [b], takers[k], fields[k]) {
      assert takers[k] == Slot(b, k);
      NewItemValue(mem, v0, w.seen, r.table, a, b, k);
    }
  }

  lemma OthersAwaited(mem: Mem, v0: Value, w: Writer, r: Reader, a: nat, b: nat)
    requires |w.seen| == |r.table| && Awaited(mem, v0, w, r)
    ensures AllAwait(mem, v0, w.seen + [a], r.table + [b], Takers(r.items), w.pending) == true
  {
    forall k: nat | k < |w.pending|
      ensures ItemValue(mem, v0, w.seen + [a], r.table + [b], Takers(r.items)[k], w.pending[k])
    {
      ItemValueGrows(mem, v0, w.seen, r.table, a, b, Takers(r.items)[k], w.pending[k]);
    }
  }

  lemma AwaitedConcat(mem: Mem, v0: Value, seen: seq<nat>, table: seq<nat>, i1: seq<Item>, i2: seq<Item>,
                      v1: seq<Value>, v2: seq<Value>)
    requires AllAwait(mem, v0, seen, table, i1, v1) && AllAwait(mem, v0, seen, table, i2, v2)
    ensures AllAwait(mem, v0, seen, table, i1 + i2, v1 + v2) == true
  {
  }

  lemma NewAwaited(mem: Mem, v0: Value, w: Writer, r: Reader, a: nat, words: seq<Word>, items: seq<Item>)
    requires Numbered(mem, w, r) && Awaited(mem, v0, w, r) && a in mem && a !in w.seen
    requires ScannedOk(mem, mem[a]) && NewFor(mem[a], words, items, r.dest + 1)
    ensures Awaited(mem, v0, Writer(w.seen + [a], Children(mem[a]) + w.pending),
            NewCell(r, mem[a].tag, words, items)) == true
  {
    FieldsAwaited(mem, v0, w, r, a, words, items);
    OthersAwaited(mem, v0, w, r, a, r.dest + 1);
    TakersAppend(items, r.items);
    AwaitedConcat(mem, v0, w.seen + [a], r.table + [r.dest + 1], Takers(items), Takers(r.items), Children(mem[a]),
      w.pending);
  }

  lemma NewSlotOk(mem: Mem, w: Writer, r: Reader, a: nat, words: seq<Word>, items: seq<Item>, hole: Item, i: nat,
                  j: nat)
    requires Numbered(mem, w, r) && a in mem && a !in w.seen && SlotOk(mem, w.seen, r, hole, i, j)
    requires ScannedOk(mem, mem[a]) && NewFor(mem[a], words, items, r.dest + 1)
    ensures SlotOk(mem, w.seen + [a], NewCell(r, mem[a].tag, words, items), hole, i, j)
  {
    var b, seen, r' := r.dest + 1, w.seen + [a], NewCell(r, mem[a].tag, words, items);
    TakersAppend(items, r.items);
    if i < |w.seen| {
      assert SameShape(mem, w.seen, r.mem, r.table, i);
      if SlotDone(mem, w.seen, r, i, j) {
        SlotDoneGrows(mem, w.seen, r, r', a, i, j);
      }
    } else if i == |w.seen| && j < |mem[a].words| {
      NewNumbered(mem, w, r, a, words, items, []);
      assert SameShape(mem, seen, r'.mem, r'.table, i);
      if mem[a].tag < NO_SCAN_TAG {
        assert Slots(b, 0, |words|)[j] == Slot(b, j);
      } else {
        assert words[j].B?;
        assert SlotDone(mem, seen, r', i, j);
      }
    }
  }

  /** A new object keeps the simulation, and the copy of the pointer to it is known. */
  lemma NewSim(mem: Mem, v0: Value, w: Writer, r: Reader, a: nat, words: seq<Word>, items: seq<Item>, hole: Item)
    requires Sim(mem, v0, w, r, hole) && a in mem && a !in w.seen
    requires ScannedOk(mem, mem[a]) && NewFor(mem[a], words, items, r.dest + 1)
    ensures var w', r' := Writer(w.seen + [a], Children(mem[a]) + w.pending), NewCell(r, mem[a].tag, words, items);
            Sim(mem, v0, w', r', hole) && ValueRel(w'.seen, r'.table, Ref(a), Ref(r.dest + 1))
  {
    var w', r' := Writer(w.seen + [a], Children(mem[a]) + w.pending), NewCell(r, mem[a].tag, words, items);
    NewNumbered(mem, w, r, a, words, items, w'.pending);
    NewAwaited(mem, v0, w, r, a, words, items);
    forall i: nat, j: nat ensures SlotOk(mem, w'.seen, r', hole, i, j) {
      assert SlotOk(mem, w.seen, r, hole, i, j);
      NewSlotOk(mem, w, r, a, words, items, hole, i, j);
    }
    if ValueRel(w.seen, r.table, v0, r.root) {
      RelGrows(w.seen, r.table, a, r.dest + 1, v0, r.root);
    }
    TakersAppend(items, r.items);
    assert Corr(w'.seen, r'.table, |w.seen|, a, r.dest + 1);
  }

  /** The words and items that the reader makes of the token for object `c`. */
  lemma ObjectReadBack(mem: Mem, c: Cell, r: Reader)
    requires CellOk(mem, c) && !Refused(c) && r.items != []
    ensures var it, r1, b := r.items[0], r.(items := r.items[1..]), r.dest + 1;
            exists words, items :: NewFor(c, words, items, b)
              && ReadStep(r, ObjectToken(c)) == Reads(Put(NewCell(r1, c.tag, words, items), it, Ref(b)))
  {
    var it, r1, b := r.items[0], r.(items := r.items[1..]), r.dest + 1;
    var words, items := c.words, [];
    if c.tag == DOUBLE_TAG || c.tag == DOUBLE_ARRAY_TAG {
      WordsFlat(c.words);
    } else if c.tag != STRING_TAG {
      TakersBlock(b, c.tag, |c.words|);
      words, items := JunkWords(|c.words|), BlockItems(b, c.tag, |c.words|);
    }
    assert NewFor(c, words, items, b);
    assert ReadStep(r, ObjectToken(c)) == Reads(Put(NewCell(r1, c.tag, words, items), it, Ref(b)));
  }

  /** The reader follows the writer token by token. */
  lemma StepSim(mem: Mem, v0: Value, w: Writer, r: Reader)
    requires MemOk(mem) && Sim(mem, v0, w, r, NO_HOLE) && w.pending != [] && r.items != [] && !r.items[0].FreshId?
    requires WriteStep(mem, w).Emits?
    ensures var e := WriteStep(mem, w);
            ReadStep(r, e.t).Reads? && Sim(mem, v0, e.w, ReadStep(r, e.t).r, NO_HOLE)
  {
    var v, it, r1, w1 := w.pending[0], r.items[0], r.(items := r.items[1..]), w.(pending := w.pending[1..]);
    PopSim(mem, v0, w, r);
    match v
    case Long(n) => PutSim(mem, v0, w1, r1, it, v, v);
    case Atom(_) => PutSim(mem, v0, w1, r1, it, v, v);
    case Ref(a) =>
      if a in w.seen {
        var i := IndexOf(w.seen, a);
        assert Corr(w.seen, r.table, i, a, r.table[i]);
        PutSim(mem, v0, w1, r1, it, v, Ref(r.table[i]));
      } else {
        NewStepSim(mem, v0, w, r);
      }
  }

  lemma NewStepSim(mem: Mem, v0: Value, w: Writer, r: Reader)
    requires MemOk(mem) && Sim(mem, v0, w, r, NO_HOLE) && w.pending != [] && r.items != [] && !r.items[0].FreshId?
    requires w.pending[0].Ref? && w.pending[0].a !in w.seen && WriteStep(mem, w).Emits?
    ensures var e := WriteStep(mem, w);
            ReadStep(r, e.t).Reads? && Sim(mem, v0, e.w, ReadStep(r, e.t).r, NO_HOLE)
  {
    var a, it, r1, w1, b := w.pending[0].a, r.items[0], r.(items := r.items[1..]), w.(pending := w.pending[1..]),
      r.dest + 1;
    PopSim(mem, v0, w, r);
    assert Sound(mem, a);
    ObjectReadBack(mem, mem[a], r);
    var words, items :| NewFor(mem[a], words, items, b)
      && ReadStep(r, ObjectToken(mem[a])) == Reads(Put(NewCell(r1, mem[a].tag, words, items), it, Ref(b)));
    NewSim(mem, v0, w1, r1, a, words, items, it);
    ItemValueGrows(mem, v0, w.seen, r.table, a, b, it, w.pending[0]);
    PutSim(mem, v0, WriteStep(mem, w).w, NewCell(r1, mem[a].tag, words, items), it, w.pending[0], Ref(b));
  }

  /** Refreshing an object number touches no slot but that one. */
  lemma RefreshSim(mem: Mem, v0: Value, w: Writer, r: Reader)
    requires Sim(mem, v0, w, r, NO_HOLE) && r.items != [] && r.items[0].FreshId?
    requires IsObject(r.mem, r.items[0].a)
    ensures Sim(mem, v0, w, Refresh(r), NO_HOLE)
  {
    var r' := Refresh(r);
    forall i | 0 <= i < |w.seen| ensures SameShape(mem, w.seen, r'.mem, r'.table, i) {
      assert SameShape(mem, w.seen, r.mem, r.table, i);
    }
    forall i: nat, j: nat ensures SlotOk(mem, w.seen, r', NO_HOLE, i, j) {
      assert SlotOk(mem, w.seen, r, NO_HOLE, i, j);
      if i < |w.seen| {
        assert SameShape(mem, w.seen, r'.mem, r'.table, i);
        assert SlotDone(mem, w.seen, r, i, j) && !OidSlot(mem, w.seen[i], j, r.oid) ==> SlotDone(mem, w.seen, r', i, j);
      }
    }
  }

  // ----- Object numbers -----

  ghost predicate IsObject(mem: Mem, a: nat) {
    a in mem && mem[a].tag == OBJECT_TAG && |mem[a].words| >= 2
  }

  ghost predicate Known(r: Reader, it: Item) {
    match it
    case RootSlot => true
    case Slot(a, j) => a in r.mem
    case FreshId(a) => IsObject(r.mem, a)
  }

  /** The number of an object is refreshed after the old one has been read. */
  ghost predicate RefreshedLater(r: Reader, p: nat) {
    p < |r.items| && r.items[p].Slot? && r.items[p].j == 1 && IsObject(r.mem, r.items[p].a) ==>
      FreshId(r.items[p].a) in r.items[p..]
  }

  ghost predicate Settled(r: Reader, a: nat) {
    IsObject(r.mem, a) && FreshId(a) !in r.items
  }

  ghost predicate HasId(mem: Mem, a: nat, low: int, high: int) {
    IsObject(mem, a) && mem[a].words[1].V? && mem[a].words[1].v.Long? && low <= mem[a].words[1].v.n < high
  }

  ghost predicate ItemsOk(r: Reader) {
    && (forall a :: a in r.mem ==> a <= r.dest)
    && (forall k :: 0 <= k < |r.items| ==> Known(r, r.items[k]))
    && (forall p: nat {:trigger RefreshedLater(r, p)} :: RefreshedLater(r, p))
  }

  /** Objects that need no refreshing any more have numbers of their own. */
  ghost predicate IdsOk(r: Reader, low: int) {
    && r.oid.LastOid? && low <= r.oid.n
    && (forall a {:trigger Settled(r, a)} :: Settled(r, a) ==> HasId(r.mem, a, low, r.oid.n))
    && (forall a, b {:trigger Settled(r, a), Settled(r, b)} ::
          Settled(r, a) && Settled(r, b) && a != b ==> r.mem[a].words[1] != r.mem[b].words[1])
  }

  ghost predicate KeepsIds(r: Reader, r': Reader, low: int) {
    ItemsOk(r') && (IdsOk(r, low) ==> IdsOk(r', low))
  }

  /** `it` can be filled: if it is the number of an object, that one is refreshed later. */
  ghost predicate Fillable(r: Reader, it: Item) {
    Known(r, it) && (it.Slot? && it.j == 1 && IsObject(r.mem, it.a) ==> FreshId(it.a) in r.items)
  }

  lemma RefreshIds(r: Reader, low: int)
    requires ItemsOk(r) && r.items != [] && r.items[0].FreshId?
    ensures KeepsIds(r, Refresh(r), low) == true
  {
    var r', x := Refresh(r), r.items[0].a;
    assert Known(r, r.items[0]);
    forall k | 0 <= k < |r'.items| ensures Known(r', r'.items[k]) {
      assert Known(r, r.items[k + 1]);
    }
    forall p: nat ensures RefreshedLater(r', p) {
      assert RefreshedLater(r, p + 1);
      assert p < |r'.items| ==> r'.items[p] == r.items[p + 1] && r'.items[p..] == r.items[p + 1..];
    }
    if IdsOk(r, low) {
      forall a | Settled(r', a) ensures HasId(r'.mem, a, low, r'.oid.n) && (a != x ==> Settled(r, a)) {
        assert a != x ==> Settled(r, a);
      }
      forall a, b | Settled(r', a) && Settled(r', b) && a != b ensures r'.mem[a].words[1] != r'.mem[b].words[1] {
        assert a != x ==> Settled(r, a) && HasId(r.mem, a, low, r.oid.n);
        assert b != x ==> Settled(r, b) && HasId(r.mem, b, low, r.oid.n);
      }
    }
  }

  /** Storing into the slot that was just taken off the items. */
  lemma PutIds(r: Reader, it: Item, v: Value, low: int)
    requires ItemsOk(r) && Fillable(r, it)
    ensures KeepsIds(r, Put(r, it, v), low) == true
  {
    var r' := Put(r, it, v);
    assert forall a :: IsObject(r'.mem, a) <==> IsObject(r.mem, a);
    forall k | 0 <= k < |r'.items| ensures Known(r', r'.items[k]) {
      assert Known(r, r.items[k]);
    }
    forall p: nat ensures RefreshedLater(r', p) {
      assert RefreshedLater(r, p);
    }
    if IdsOk(r, low) {
      forall a | Settled(r', a)
        ensures Settled(r, a) && HasId(r'.mem, a, low, r'.oid.n) && r'.mem[a].words[1] == r.mem[a].words[1]
      {
        assert Settled(r, a) && HasId(r.mem, a, low, r.oid.n);
      }
    }
  }

  /** The items are those of the cell that comes next; only objects must have them. */
  ghost predicate OwnItems(r: Reader, tag: byte, words: seq<Word>, items: seq<Item>) {
    items == BlockItems(r.dest + 1, tag, |words|) || (items == [] && tag != OBJECT_TAG)
  }

  /** A new cell with items for its own fields. */
  lemma NewCellIds(r: Reader, tag: byte, words: seq<Word>, items: seq<Item>, low: int)
    requires ItemsOk(r) && OwnItems(r, tag, words, items)
    ensures KeepsIds(r, NewCell(r, tag, words, items), low) == true
  {
    var r', b := NewCell(r, tag, words, items), r.dest + 1;
    assert forall a :: a != b ==> (IsObject(r'.mem, a) <==> IsObject(r.mem, a));
    forall k | 0 <= k < |r'.items| ensures Known(r', r'.items[k]) {
      assert k >= |items| ==> r'.items[k] == r.items[k - |items|] && Known(r, r.items[k - |items|]);
    }
    forall p: nat ensures RefreshedLater(r', p) {
      if p < |items| {
        if IsObject(r'.mem, b) && r'.items[p] == Slot(b, 1) {
          assert r'.items[p..][2 - p] == FreshId(b);
        }
      } else if p < |r'.items| {
        assert RefreshedLater(r, p - |items|);
        assert r'.items[p..] == r.items[p - |items|..];
      }
    }
    if IdsOk(r, low) {
      if IsObject(r'.mem, b) {
        assert r'.items[2] == FreshId(b);
      }
      forall a | Settled(r', a) ensures Settled(r, a) && HasId(r'.mem, a, low, r'.oid.n) && r'.mem[a] == r.mem[a] {
        assert a != b;
        forall k | 0 <= k < |r.items| ensures r.items[k] != FreshId(a) {
          assert r'.items[k + |items|] == r.items[k];
        }
        assert Settled(r, a);
      }
    }
  }

  lemma ReadStepIds(r: Reader, t: Token, low: int)
    requires ItemsOk(r) && r.items != [] && !r.items[0].FreshId? && ReadStep(r, t).Reads?
    ensures KeepsIds(r, ReadStep(r, t).r, low) == true
  {
    match t
    case TInt(n) => ReadValueIds(r, Long(n), low);
    case TAtom(tag) => ReadValueIds(r, Atom(tag), low);
    case TShared(d) => ReadValueIds(r, Ref(r.table[|r.table| - d]), low);
    case TBlock(tag, size) => ReadCellIds(r, tag, JunkWords(size), BlockItems(r.dest + 1, tag, size), low);
    case _ => ReadDataIds(r, t, low);
  }

  lemma ReadDataIds(r: Reader, t: Token, low: int)
    requires ItemsOk(r) && r.items != [] && !r.items[0].FreshId? && (t.TString? || t.TDouble? || t.TDoubles?)
    ensures KeepsIds(r, ReadStep(r, t).r, low) == true
  {
    match t
    case TString(s) => ReadCellIds(r, STRING_TAG, StringWords(s), [], low);
    case TDouble(s) => ReadCellIds(r, DOUBLE_TAG, Words(s), [], low);
    case TDoubles(s) => ReadCellIds(r, DOUBLE_ARRAY_TAG, Words(s), [], low);
  }

  lemma ReadValueIds(r: Reader, v: Value, low: int)
    requires ItemsOk(r) && r.items != [] && !r.items[0].FreshId?
    ensures KeepsIds(r, Put(r.(items := r.items[1..]), r.items[0], v), low) == true
  {
    PopIds(r, low);
    PutIds(r.(items := r.items[1..]), r.items[0], v, low);
  }

  lemma ReadCellIds(r: Reader, tag: byte, words: seq<Word>, items: seq<Item>, low: int)
    requires ItemsOk(r) && r.items != [] && !r.items[0].FreshId? && OwnItems(r, tag, words, items)
    ensures KeepsIds(r, Put(NewCell(r.(items := r.items[1..]), tag, words, items), r.items[0], Ref(r.dest + 1)), low) ==
            true
  {
    var it, r1 := r.items[0], r.(items := r.items[1..]);
    PopIds(r, low);
    NewCellIds(r1, tag, words, items, low);
    NewCellFillable(r1, it, tag, words, items);
    PutIds(NewCell(r1, tag, words, items), it, Ref(r.dest + 1), low);
  }

  lemma NewCellFillable(r: Reader, it: Item, tag: byte, words: seq<Word>, items: seq<Item>)
    requires ItemsOk(r) && Fillable(r, it)
    ensures Fillable(NewCell(r, tag, words, items), it) == true
  {
  }

  lemma PopIds(r: Reader, low: int)
    requires ItemsOk(r) && r.items != [] && !r.items[0].FreshId?
    ensures var r1 := r.(items := r.items[1..]);
            KeepsIds(r, r1, low) == true && Fillable(r1, r.items[0]) == true
  {
    var it, r1 := r.items[0], r.(items := r.items[1..]);
    assert Known(r, it);
    assert RefreshedLater(r, 0) && r.items[0..] == r.items;
    forall k | 0 <= k < |r1.items| ensures Known(r1, r1.items[k]) {
      assert Known(r, r.items[k + 1]);
    }
    forall p: nat ensures RefreshedLater(r1, p) {
      assert RefreshedLater(r, p + 1);
      assert p < |r1.items| ==> r1.items[p] == r.items[p + 1] && r1.items[p..] == r.items[p + 1..];
    }
    forall a | Settled(r1, a) ensures Settled(r, a) {
      forall k | 0 <= k < |r.items| ensures r.items[k] != FreshId(a) {
        assert k > 0 ==> r.items[k] == r1.items[k - 1];
      }
    }
  }

  /** After any stream of tokens, every rebuilt object has a number of its own, not
      below the first free one. */
  lemma {:induction false} NumbersAreFresh(toks: seq<Token>, r: Reader, low: int)
    requires ItemsOk(r) && IdsOk(r, low) && ReadAll(toks, r).Rebuilt?
    ensures var r' := ReadAll(toks, r).r;
            && r'.oid.LastOid?
            && (forall a {:trigger IsObject(r'.mem, a)} :: IsObject(r'.mem, a) ==> HasId(r'.mem, a, low, r'.oid.n))
            && (forall a, b :: IsObject(r'.mem, a) && IsObject(r'.mem, b) && a != b ==>
              r'.mem[a].words[1] != r'.mem[b].words[1])
    decreases |toks|, |r.items|
  {
    if r.items == [] {
      assert forall a :: IsObject(r.mem, a) ==> Settled(r, a);
    } else if r.items[0].FreshId? {
      RefreshIds(r, low);
      NumbersAreFresh(toks, Refresh(r), low);
    } else {
      ReadStepIds(r, toks[0], low);
      NumbersAreFresh(toks[1..], ReadStep(r, toks[0]).r, low);
    }
  }

  // ----- Whole streams -----

  lemma {:induction false} ReadBack(mem: Mem, v0: Value, w: Writer, r: Reader)
    requires MemOk(mem) && Sim(mem, v0, w, r, NO_HOLE) && ItemsOk(r) && WriteAll(mem, w).Written?
    ensures var out := WriteAll(mem, w);
            && ReadAll(out.toks, r).Rebuilt? && ReadAll(out.toks, r).left == []
            && Isomorphic(mem, v0, out.seen, ReadAll(out.toks, r).r)
              && ReadAll(out.toks, r).r.dest == SizeOf(mem, out.seen)
    decreases Unseen(mem, w.seen), |w.pending|, |r.items|
  {
    if r.items == [] {
      Finished(mem, v0, w, r);
    } else if r.items[0].FreshId? {
      assert Known(r, r.items[0]);
      RefreshSim(mem, v0, w, r);
      RefreshIds(r, 0);
      ReadBack(mem, v0, w, Refresh(r));
    } else {
      var e := WriteStep(mem, w);
      assert WriteAll(mem, w) == Prefixed(e.t, WriteAll(mem, e.w));
      StepSim(mem, v0, w, r);
      ReadStepIds(r, e.t, 0);
      assert e.w.seen != w.seen ==> w.pending[0].a in Unseen(mem, w.seen) && w.pending[0].a !in Unseen(mem, e.w.seen);
      ReadBack(mem, v0, e.w, ReadStep(r, e.t).r);
      assert WriteAll(mem, w).toks[1..] == WriteAll(mem, e.w).toks;
    }
  }

  lemma Finished(mem: Mem, v0: Value, w: Writer, r: Reader)
    requires Sim(mem, v0, w, r, NO_HOLE) && r.items == []
    ensures w.pending == [] && Isomorphic(mem, v0, w.seen, r)
  {
    forall i: nat, j: nat ensures FieldCopied(mem, w.seen, r, i, j) {
      assert SlotOk(mem, w.seen, r, NO_HOLE, i, j);
    }
  }

  /** What the reader makes of the tokens of `v` is isomorphic to `v`, and takes
      exactly the words that the writer has counted. */
  lemma TokensRoundTrip(mem: Mem, v: Value, oid: Oid, color: Color)
    requires MemOk(mem) && WriteAll(mem, Writer([], [v])).Written?
    ensures var out := WriteAll(mem, Writer([], [v]));
            var inp := ReadAll(out.toks, InitReader(oid, color));
            && inp.Rebuilt? && inp.left == [] && Isomorphic(mem, v, out.seen, inp.r)
            && inp.r.dest == SizeOf(mem, out.seen) && |inp.r.table| == |out.seen|
  {
    var r := InitReader(oid, color);
    assert Takers(r.items) == [RootSlot];
    ReadBack(mem, v, Writer([], [v]), r);
  }
}
