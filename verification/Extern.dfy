/**
 The writer of byterun/extern.c: it marks the objects it has met in place, keeps a
 trail to undo this, an explicit stack of fields still to be written, and a list
 of output blocks.  It is proved to write the message of MarshalMessage.dfy and to
 leave the heap as it was, whichever way it ends.
 */
module Extern {
  import opened Mlvalues
  import opened MarshalCodec
  import opened MarshalGraph
  import opened MarshalRoundTrip
  import opened MarshalMessage

  const ENTRIES_PER_TRAIL_BLOCK: nat := 1025
  const SIZE_EXTERN_OUTPUT_BLOCK: nat := 8100
  const EXTERN_STACK_MAX_SIZE: nat := 1024 * 1024 * 100

  /** How the writer ends: normally, or with one of the exceptions. */
  datatype Status = Done | OutOfMemory | InvalidArgument | Failure

  /** What the trail remembers of an object. */
  datatype Entry = Entry(obj: nat, color: Color, field0: Word)

  /** `count` fields of the object `a`, from field `next` on. */
  datatype Frame = Frame(a: nat, next: nat, count: nat)

  datatype OutBlock = OutBlock(data: seq<byte>, cap: nat)

  // ----- Objects marked in place -----

  function MarkedCell(c: Cell, k: nat): Cell {
    if |c.words| > 0 then c.(color := Blue, words := c.words[0 := Count(k)]) else c
  }

  ghost predicate CellState(mem0: Mem, seen: seq<nat>, mem: Mem, a: nat) {
    a in mem0 ==> a in mem && mem[a] == if a in seen then MarkedCell(mem0[a], IndexOf(seen, a)) else mem0[a]
  }

  /** `mem` is `mem0` with the objects of `seen` marked by their numbers. */
  ghost predicate MarkedMem(mem0: Mem, seen: seq<nat>, mem: Mem) {
    && mem.Keys == mem0.Keys
    && forall a {:trigger CellState(mem0, seen, mem, a)} :: CellState(mem0, seen, mem, a)
  }

  lemma IndexOfDistinct(s: seq<nat>, i: nat)
    requires Distinct(s) && i < |s|
    ensures IndexOf(s, s[i]) == i
  {
    SameIndex(s, IndexOf(s, s[i]), i);
  }

  lemma IndexOfAppend(s: seq<nat>, a: nat, x: nat)
    requires Distinct(s) && x in s && x != a
    ensures IndexOf(s + [a], x) == IndexOf(s, x)
  {
    SameIndex(s, IndexOf(s + [a], x), IndexOf(s, x));
  }

  lemma MarkOne(mem0: Mem, seen: seq<nat>, mem: Mem, a: nat)
    requires Distinct(seen) && MarkedMem(mem0, seen, mem) && a in mem0 && a !in seen
    ensures MarkedMem(mem0, seen + [a], mem[a := MarkedCell(mem0[a], |seen|)])
  {
    var mem' := mem[a := MarkedCell(mem0[a], |seen|)];
    assert (seen + [a])[IndexOf(seen + [a], a)] == a;
    forall x ensures CellState(mem0, seen + [a], mem', x) {
      assert CellState(mem0, seen, mem, x);
      if x in seen {
        IndexOfAppend(seen, a, x);
      }
    }
  }

  /** Objects are blue exactly when they have been written; then field 0 is their
      number. */
  lemma SeenIsBlue(mem0: Mem, seen: seq<nat>, mem: Mem, a: nat)
    requires MemOk(mem0) && MarkedMem(mem0, seen, mem) && (forall x :: x in seen ==> x in mem0)
    ensures a in mem <==> a in mem0
    ensures a in mem ==> (mem[a].color == Blue <==> a in seen) && mem[a].tag == mem0[a].tag
    ensures a in seen ==> mem[a].words != [] && mem[a].words[0] == Count(IndexOf(seen, a))
  {
    assert CellState(mem0, seen, mem, a);
    assert Sound(mem0, a);
  }

  // ----- The trail -----

  ghost predicate TrailOk(trail: seq<seq<Entry>>) {
    && |trail| > 0
    && (forall b :: 0 <= b < |trail| - 1 ==> |trail[b]| == ENTRIES_PER_TRAIL_BLOCK)
    && |trail[|trail| - 1]| <= ENTRIES_PER_TRAIL_BLOCK
  }

  /** The entry that undoes the marking of object number `k`. */
  ghost predicate EntryFor(mem0: Mem, seen: seq<nat>, k: nat, e: Entry) {
    k < |seen| && seen[k] in mem0 && |mem0[seen[k]].words| > 0
      && e == Entry(seen[k], mem0[seen[k]].color, mem0[seen[k]].words[0])
  }

  function Number(b: nat, e: nat): nat { ENTRIES_PER_TRAIL_BLOCK * b + e }

  /** The trail has the objects of `seen`, in order. */
  ghost predicate TrailFor(mem0: Mem, seen: seq<nat>, trail: seq<seq<Entry>>) {
    && TrailOk(trail) && |seen| == Number(|trail| - 1, |trail[|trail| - 1]|)
    && forall b: nat, e: nat {:trigger Number(b, e)} :: b < |trail| && e < |trail[b]| ==>
      EntryFor(mem0, seen, Number(b, e), trail[b][e])
  }

  lemma TrailEntry(mem0: Mem, seen: seq<nat>, trail: seq<seq<Entry>>, a: nat)
    requires TrailFor(mem0, seen, trail) && a in mem0 && |mem0[a].words| > 0
             && |trail[|trail| - 1]| < ENTRIES_PER_TRAIL_BLOCK
    ensures var n := |trail| - 1;
            TrailFor(mem0, seen + [a], trail[n := trail[n] + [Entry(a, mem0[a].color, mem0[a].words[0])]])
  {
    var n, entry := |trail| - 1, Entry(a, mem0[a].color, mem0[a].words[0]);
    var trail' := trail[n := trail[n] + [entry]];
    forall b: nat, e: nat | b < |trail'| && e < |trail'[b]|
      ensures EntryFor(mem0, seen + [a], Number(b, e), trail'[b][e])
    {
      if b < n || e < |trail[n]| {
        assert EntryFor(mem0, seen, Number(b, e), trail[b][e]);
      }
    }
  }

  lemma TrailBlock(mem0: Mem, seen: seq<nat>, trail: seq<seq<Entry>>)
    requires TrailFor(mem0, seen, trail) && |trail[|trail| - 1]| == ENTRIES_PER_TRAIL_BLOCK
    ensures TrailFor(mem0, seen, trail + [[]])
  {
    var trail' := trail + [[]];
    forall b: nat, e: nat | b < |trail'| && e < |trail'[b]| ensures EntryFor(mem0, seen, Number(b, e), trail'[b][e]) {
      assert trail'[b] == trail[b];
    }
  }

  // ----- Replaying the trail -----

  /** Undo one entry. */
  function Undo(mem: Mem, e: Entry): Mem {
    if e.obj in mem && |mem[e.obj].words| > 0 then
      mem[e.obj := mem[e.obj].(color := e.color, words := mem[e.obj].words[0 := e.field0])]
    else mem
  }

  /** Blocks from `b` + 1 on are undone, and the first `n` entries of block `b`. */
  predicate Undone(b: int, n: nat, k: nat) {
    k >= ENTRIES_PER_TRAIL_BLOCK * (b + 1) || ENTRIES_PER_TRAIL_BLOCK * b <= k < ENTRIES_PER_TRAIL_BLOCK * b + n
  }

  ghost predicate HalfCell(mem0: Mem, seen: seq<nat>, mem: Mem, b: int, n: nat, a: nat) {
    a in mem0 ==>
      && a in mem
      && mem[a] == if a in seen && !Undone(b, n, IndexOf(seen, a)) then MarkedCell(mem0[a], IndexOf(seen, a))
        else mem0[a]
  }

  ghost predicate HalfUndone(mem0: Mem, seen: seq<nat>, mem: Mem, b: int, n: nat) {
    && mem.Keys == mem0.Keys
    && forall a {:trigger HalfCell(mem0, seen, mem, b, n, a)} :: HalfCell(mem0, seen, mem, b, n, a)
  }

  lemma UndoOne(mem0: Mem, seen: seq<nat>, trail: seq<seq<Entry>>, mem: Mem, b: nat, n: nat)
    requires HalfUndone(mem0, seen, mem, b, n) && Distinct(seen) && TrailFor(mem0, seen, trail) && b < |trail|
             && n < |trail[b]|
    ensures HalfUndone(mem0, seen, Undo(mem, trail[b][n]), b, n + 1)
  {
    var k, e := Number(b, n), trail[b][n];
    assert EntryFor(mem0, seen, k, e);
    IndexOfDistinct(seen, k);
    var mem', m := Undo(mem, e), n + 1;
    assert HalfCell(mem0, seen, mem, b, n, e.obj);
    assert mem0[e.obj].words[0 := Count(k)][0 := e.field0] == mem0[e.obj].words;
    forall a ensures HalfCell(mem0, seen, mem', b, m, a) {
      assert HalfCell(mem0, seen, mem, b, n, a);
      if a in seen && a != e.obj {
        assert IndexOf(seen, a) != k;
      }
    }
  }

  lemma UndoNextBlock(mem0: Mem, seen: seq<nat>, mem: Mem, b: int, n: nat)
    requires HalfUndone(mem0, seen, mem, b, n)
    requires n == ENTRIES_PER_TRAIL_BLOCK || |seen| <= ENTRIES_PER_TRAIL_BLOCK * b + n
    ensures HalfUndone(mem0, seen, mem, b - 1, 0)
  {
    var c := b - 1;
    forall a ensures HalfCell(mem0, seen, mem, c, 0, a) {
      assert HalfCell(mem0, seen, mem, b, n, a);
    }
  }

  lemma StartUndo(mem0: Mem, seen: seq<nat>, trail: seq<seq<Entry>>, mem: Mem)
    requires MarkedMem(mem0, seen, mem) && TrailFor(mem0, seen, trail)
    ensures HalfUndone(mem0, seen, mem, |trail| - 1, 0)
  {
    var b := |trail| - 1;
    forall a ensures HalfCell(mem0, seen, mem, b, 0, a) {
      assert CellState(mem0, seen, mem, a);
    }
  }

  lemma AllUndone(mem0: Mem, seen: seq<nat>, mem: Mem)
    requires HalfUndone(mem0, seen, mem, -1, 0)
    ensures mem == mem0
  {
    forall a | a in mem0 ensures mem[a] == mem0[a] {
      assert HalfCell(mem0, seen, mem, -1, 0, a);
    }
  }

  // ----- The output -----

  function Flatten(blocks: seq<OutBlock>): seq<byte> {
    if blocks == [] then [] else Flatten(blocks[..|blocks| - 1]) + blocks[|blocks| - 1].data
  }

  lemma FlattenAppend(blocks: seq<OutBlock>, s: seq<byte>)
    requires blocks != []
    ensures var n := |blocks| - 1;
            Flatten(blocks[n := blocks[n].(data := blocks[n].data + s)]) == Flatten(blocks) + s
  {
    var n := |blocks| - 1;
    assert blocks[n := blocks[n].(data := blocks[n].data + s)][..n] == blocks[..n];
  }

  /** No block holds more than it has room for. */
  ghost predicate Within(blocks: seq<OutBlock>) {
    forall b :: 0 <= b < |blocks| ==> |blocks[b].data| <= blocks[b].cap
  }

  /** `after` is `before` with `s` written to it, unless that failed. */
  ghost predicate Appended(before: seq<OutBlock>, after: seq<OutBlock>, user: bool, st: Status, s: seq<byte>) {
    && before != [] && after != []
    && after[0].cap == before[0].cap && before[0].data <= after[0].data && (user ==> |after| == |before|)
    && (st == Done ==>
        && Flatten(after) == Flatten(before) + s
        && (Within(before) || (user && |before| == 1 && s != []) ==> Within(after)))
    && (st != Done ==> st == OutOfMemory || (st == Failure && user && (|before| == 1 ==> NoRoom(before, s))))
  }

  /** The one block of the caller has no room for `s`. */
  ghost predicate NoRoom(blocks: seq<OutBlock>, s: seq<byte>)
    requires blocks != []
  {
    |blocks[0].data| + |s| > blocks[0].cap
  }

  lemma AppendedTwice(a: seq<OutBlock>, b: seq<OutBlock>, c: seq<OutBlock>, user: bool, st: Status, s: seq<byte>,
                      s': seq<byte>)
    requires Appended(a, b, user, Done, s) && Appended(b, c, user, st, s')
    ensures Appended(a, c, user, st, s + s')
  {
    ThreeParts(Flatten(a), s, s');
    if |a| == |b| == 1 {
      assert Flatten(a) == a[0].data && Flatten(b) == b[0].data;
    }
  }

  // ----- The stack -----

  ghost predicate FrameOk(mem0: Mem, f: Frame) {
    f.a in mem0 && 1 <= f.next && 1 <= f.count && f.next + f.count == |mem0[f.a].words| && mem0[f.a].tag < NO_SCAN_TAG
  }

  ghost predicate StackOk(mem0: Mem, stack: seq<Frame>) {
    forall k :: 0 <= k < |stack| ==> FrameOk(mem0, stack[k])
  }

  /** The values that the stack still stands for, top first. */
  ghost function StackValues(mem0: Mem, stack: seq<Frame>): seq<Value>
    requires StackOk(mem0, stack)
  {
    if stack == [] then []
    else
      var n := |stack| - 1;
      Fields(mem0[stack[n].a].words)[stack[n].next..] + StackValues(mem0, stack[..n])
  }

  lemma PushedValues(mem0: Mem, stack: seq<Frame>, a: nat)
    requires MemOk(mem0) && StackOk(mem0, stack) && a in mem0 && |mem0[a].words| > 1 && mem0[a].tag < NO_SCAN_TAG
    ensures var stack' := stack + [Frame(a, 1, |mem0[a].words| - 1)];
            && StackOk(mem0, stack') && mem0[a].words[0].V?
            && [mem0[a].words[0].v] + StackValues(mem0, stack') == Fields(mem0[a].words) + StackValues(mem0, stack)
  {
    var f := Frame(a, 1, |mem0[a].words| - 1);
    var stack', fields := stack + [f], Fields(mem0[a].words);
    assert stack'[..|stack|] == stack;
    assert Sound(mem0, a);
    assert fields == [mem0[a].words[0].v] + fields[1..];
  }

  /** The stack after one more value has been taken off it. */
  function Popped(stack: seq<Frame>): seq<Frame>
    requires stack != [] && stack[|stack| - 1].count > 0
  {
    var n := |stack| - 1;
    var Frame(a, next, count) := stack[n];
    if count == 1 then stack[..n] else stack[n := Frame(a, next + 1, count - 1)]
  }

  lemma PoppedValues(mem0: Mem, stack: seq<Frame>)
    requires stack != [] && StackOk(mem0, stack)
    ensures FrameOk(mem0, stack[|stack| - 1]) && StackOk(mem0, Popped(stack))
    ensures var Frame(a, next, _) := stack[|stack| - 1];
            [Fields(mem0[a].words)[next]] + StackValues(mem0, Popped(stack)) == StackValues(mem0, stack)
  {
    var n := |stack| - 1;
    var f, rest := stack[n], StackValues(mem0, stack[..n]);
    assert FrameOk(mem0, f);
    var fields, stack' := Fields(mem0[f.a].words), Popped(stack);
    assert fields[f.next..] == [fields[f.next]] + fields[f.next + 1..];
    if f.count == 1 {
      assert fields[f.next + 1..] == [];
      assert [fields[f.next]] + rest == fields[f.next..] + rest;
    } else {
      assert stack'[..n] == stack[..n];
      assert [fields[f.next]] + (fields[f.next + 1..] + rest) == fields[f.next..] + rest;
    }
  }

  lemma NextItemOk(mem0: Mem, seen: seq<nat>, mem: Mem, stack: seq<Frame>)
    requires MemOk(mem0) && MarkedMem(mem0, seen, mem) && stack != [] && StackOk(mem0, stack)
    ensures var f := stack[|stack| - 1];
            && f.count > 0 && f.a in mem && f.next < |mem[f.a].words| && mem[f.a].words[f.next].V?
            && StackOk(mem0, Popped(stack))
            && [mem[f.a].words[f.next].v] + StackValues(mem0, Popped(stack)) == StackValues(mem0, stack)
  {
    PoppedValues(mem0, stack);
    var f := stack[|stack| - 1];
    assert CellState(mem0, seen, mem, f.a) && Sound(mem0, f.a);
  }

  lemma SizesGrow(mem0: Mem, seen: seq<nat>, a: nat)
    requires a in mem0
    ensures Size32(mem0, seen + [a]) == Size32(mem0, seen) + CellSize32(mem0[a])
    ensures SizeOf(mem0, seen + [a]) == SizeOf(mem0, seen) + (1 + |mem0[a].words|)
  {
    assert (seen + [a])[..|seen|] == seen;
  }

  // ----- Tokens written so far -----

  ghost predicate Stepped(mem0: Mem, w: Writer, t: Token, w': Writer) {
    w.pending != [] && WriteStep(mem0, w) == Emits(t, w')
  }

  ghost predicate IsTrace(mem0: Mem, ws: seq<Writer>, toks: seq<Token>) {
    |ws| == |toks| + 1 && forall k :: 0 <= k < |toks| ==> Stepped(mem0, ws[k], toks[k], ws[k + 1])
  }

  /** The writer has got from `w0` to `w` by writing `toks`. */
  ghost predicate OnTheWay(mem0: Mem, w0: Writer, toks: seq<Token>, w: Writer) {
    exists ws :: IsTrace(mem0, ws, toks) && ws[0] == w0 && ws[|toks|] == w
  }

  lemma WayStarts(mem0: Mem, w: Writer)
    ensures OnTheWay(mem0, w, [], w)
  {
    assert IsTrace(mem0, [w], []);
  }

  lemma WayOn(mem0: Mem, w0: Writer, toks: seq<Token>, w: Writer, t: Token, w': Writer)
    requires OnTheWay(mem0, w0, toks, w) && Stepped(mem0, w, t, w')
    ensures OnTheWay(mem0, w0, toks + [t], w')
  {
    var ws :| IsTrace(mem0, ws, toks) && ws[0] == w0 && ws[|toks|] == w;
    var ws', toks' := ws + [w'], toks + [t];
    forall k | 0 <= k < |toks'| ensures Stepped(mem0, ws'[k], toks'[k], ws'[k + 1]) {
      assert k < |toks| ==> Stepped(mem0, ws[k], toks[k], ws[k + 1]);
    }
    assert IsTrace(mem0, ws', toks');
  }

  /** A trace up to `w` and the output of `w` make the output of the first writer. */
  lemma {:induction false} TraceOutput(mem0: Mem, ws: seq<Writer>, toks: seq<Token>)
    requires IsTrace(mem0, ws, toks)
    ensures var out := WriteAll(mem0, ws[|toks|]);
            WriteAll(mem0, ws[0]) == (if out.Written? then Written(toks + out.toks, out.seen) else Refusal)
    decreases |toks|
  {
    var out := WriteAll(mem0, ws[|toks|]);
    if toks == [] {
      assert out.Written? ==> [] + out.toks == out.toks;
    } else {
      assert Stepped(mem0, ws[0], toks[0], ws[1]);
      forall k | 0 <= k < |toks| - 1 ensures Stepped(mem0, ws[1..][k], toks[1..][k], ws[1..][k + 1]) {
        assert Stepped(mem0, ws[k + 1], toks[k + 1], ws[k + 2]);
      }
      TraceOutput(mem0, ws[1..], toks[1..]);
      assert out.Written? ==> [toks[0]] + (toks[1..] + out.toks) == toks + out.toks;
    }
  }

  ghost predicate NoOutput(mem0: Mem, v0: Value) {
    Marshal(mem0, v0) == NotMarshallable
  }

  lemma WayRefused(mem0: Mem, v0: Value, toks: seq<Token>, w: Writer)
    requires OnTheWay(mem0, Writer([], [v0]), toks, w) && RefusedAt(mem0, w)
    ensures NoOutput(mem0, v0)
  {
    var ws :| IsTrace(mem0, ws, toks) && ws[0] == Writer([], [v0]) && ws[|toks|] == w;
    TraceOutput(mem0, ws, toks);
  }

  /** What the writer writes next, even if there is no room for it. */
  ghost predicate NextToken(mem0: Mem, w: Writer, t: Token) {
    w.pending != [] && WriteStep(mem0, w).Emits? && WriteStep(mem0, w).t == t
  }

  /** The tokens of `v0`, if there are any, take more than `room` bytes. */
  ghost predicate Overflows(mem0: Mem, v0: Value, room: int) {
    var out := WriteAll(mem0, Writer([], [v0]));
    out.Written? ==> |EncodeAll(out.toks)| > room
  }

  lemma {:induction false} EncodeAllLonger(a: seq<Token>, b: seq<Token>)
    ensures |EncodeAll(a + b)| >= |EncodeAll(a)|
    decreases |b|
  {
    if b == [] {
      assert a + b == a;
    } else {
      assert a + b == (a + b[..|b| - 1]) + [b[|b| - 1]];
      EncodeAllAppend(a + b[..|b| - 1], b[|b| - 1]);
      EncodeAllLonger(a, b[..|b| - 1]);
    }
  }

  /** The tokens so far and the next one are part of the output. */
  lemma WayPrefix(mem0: Mem, v0: Value, toks: seq<Token>, w: Writer, t: Token) returns (more: seq<Token>)
    requires OnTheWay(mem0, Writer([], [v0]), toks, w) && NextToken(mem0, w, t)
    ensures var out := WriteAll(mem0, Writer([], [v0]));
            out.Written? ==> out.toks == (toks + [t]) + more
  {
    var ws :| IsTrace(mem0, ws, toks) && ws[0] == Writer([], [v0]) && ws[|toks|] == w;
    TraceOutput(mem0, ws, toks);
    var out := WriteAll(mem0, w);
    more := [];
    if out.Written? {
      more := out.toks[1..];
      assert out.toks == [t] + more;
    }
  }

  lemma LongOutput(mem0: Mem, v0: Value, toks: seq<Token>, more: seq<Token>, room: int)
    requires var out := WriteAll(mem0, Writer([], [v0])); out.Written? ==> out.toks == toks + more
    requires |EncodeAll(toks)| > room
    ensures Overflows(mem0, v0, room) == true
  {
    EncodeAllLonger(toks, more);
  }

  lemma WayOverflows(mem0: Mem, v0: Value, before: seq<OutBlock>, between: seq<OutBlock>, after: seq<OutBlock>,
                     toks: seq<Token>, w: Writer, t: Token)
    requires OnTheWay(mem0, Writer([], [v0]), toks, w) && NextToken(mem0, w, t) && |before| == 1
    requires Appended(before, between, true, Done, EncodeAll(toks)) && Wrote(between, after, true, Failure, t)
    ensures Overflows(mem0, v0, before[0].cap - |before[0].data|) == true
  {
    TokensTooLong(before, between, after, toks, t);
    var more := WayPrefix(mem0, v0, toks, w, t);
    LongOutput(mem0, v0, toks + [t], more, before[0].cap - |before[0].data|);
  }

  lemma TokensTooLong(before: seq<OutBlock>, between: seq<OutBlock>, after: seq<OutBlock>, toks: seq<Token>, t: Token)
    requires |before| == 1 && Appended(before, between, true, Done, EncodeAll(toks))
             && Wrote(between, after, true, Failure, t)
    ensures |EncodeAll(toks + [t])| > before[0].cap - |before[0].data|
  {
    assert IsCode(t, Encode(t));
    OneBlock(before, between, after, EncodeAll(toks), Encode(t));
    EncodeAllAppend(toks, t);
  }

  lemma OneBlock(before: seq<OutBlock>, between: seq<OutBlock>, after: seq<OutBlock>, s: seq<byte>, s': seq<byte>)
    requires |before| == 1 && Appended(before, between, true, Done, s) && Appended(between, after, true, Failure, s')
    ensures before[0].cap - |before[0].data| < |s| + |s'|
  {
    assert Flatten(before) == before[0].data && Flatten(between) == between[0].data;
  }

  lemma WayEnds(mem0: Mem, v0: Value, toks: seq<Token>, seen: seq<nat>)
    requires OnTheWay(mem0, Writer([], [v0]), toks, Writer(seen, []))
    ensures WriteAll(mem0, Writer([], [v0])) == Written(toks, seen)
  {
    var ws :| IsTrace(mem0, ws, toks) && ws[0] == Writer([], [v0]) && ws[|toks|] == Writer(seen, []);
    TraceOutput(mem0, ws, toks);
    assert toks + [] == toks;
  }

  /** After a token, what is left is a field to go on with, if any, and the stack. */
  ghost predicate ToGo(mem0: Mem, w: Writer, t: Token, w': Writer, descend: bool, next: Value, stack: seq<Frame>) {
    && Stepped(mem0, w, t, w') && StackOk(mem0, stack)
    && w'.pending == (if descend then [next] else []) + StackValues(mem0, stack) && (!descend ==> next == Long(0))
  }

  ghost predicate RefusedAt(mem0: Mem, w: Writer) {
    w.pending != [] && WriteStep(mem0, w).Refuses?
  }

  ghost predicate Wrote(before: seq<OutBlock>, after: seq<OutBlock>, user: bool, st: Status, t: Token) {
    forall s {:trigger IsCode(t, s)} :: IsCode(t, s) ==> Appended(before, after, user, st, s)
  }

  ghost predicate IsCode(t: Token, s: seq<byte>) {
    s == Encode(t)
  }

  ghost function FreshWriter(mem0: Mem, w: Writer, a: nat, stack: seq<Frame>): Writer
    requires a in mem0 && StackOk(mem0, stack)
  {
    Writer(w.seen + [a], Children(mem0[a]) + StackValues(mem0, stack))
  }

  lemma RefStep(mem0: Mem, w: Writer, a: nat, stack: seq<Frame>)
    requires StackOk(mem0, stack) && w.pending == [Ref(a)] + StackValues(mem0, stack)
    ensures if a in w.seen then
              var t := TShared(|w.seen| - IndexOf(w.seen, a));
              && ToGo(mem0, w, t, Writer(w.seen, w.pending[1..]), false, Long(0), stack) == true
              && NextToken(mem0, w, t) == true
            else if a !in mem0 || Refused(mem0[a]) then RefusedAt(mem0, w) == true
            else
              && Stepped(mem0, w, ObjectToken(mem0[a]), FreshWriter(mem0, w, a, stack)) == true
              && NextToken(mem0, w, ObjectToken(mem0[a])) == true
  {
    assert w.pending[1..] == StackValues(mem0, stack);
  }

  /** What handling one value comes to. */
  ghost predicate ValueOut(mem0: Mem, before: seq<OutBlock>, after: seq<OutBlock>, user: bool, w: Writer, st: Status,
                           t: Token, w': Writer, descend: bool, next: Value, stack: seq<Frame>) {
    && (if st == InvalidArgument then RefusedAt(mem0, w) else Wrote(before, after, user, st, t))
    && (st == Done ==> ToGo(mem0, w, t, w', descend, next, stack))
    && (st == Failure ==> NextToken(mem0, w, t))
  }

  lemma ValueDone(mem0: Mem, before: seq<OutBlock>, after: seq<OutBlock>, user: bool, w: Writer, t: Token,
                  w': Writer, descend: bool, next: Value, stack: seq<Frame>)
    requires ValueOut(mem0, before, after, user, w, Done, t, w', descend, next, stack)
    ensures Wrote(before, after, user, Done, t) == true
    ensures ToGo(mem0, w, t, w', descend, next, stack) == true && Stepped(mem0, w, t, w') == true
  {
  }

  ghost function LeafToken(v: Value): Token {
    match v
    case Atom(tag) => TAtom(tag)
    case Long(n) => TInt(n)
    case _ => TInt(0)
  }

  lemma LeafStep(mem0: Mem, w: Writer, v: Value, stack: seq<Frame>)
    requires StackOk(mem0, stack) && w.pending == [v] + StackValues(mem0, stack) && !v.Ref?
    ensures var t, w' := LeafToken(v), Writer(w.seen, w.pending[1..]);
            if v.Long? || v.Atom? then ToGo(mem0, w, t, w', false, Long(0), stack) == true
              && NextToken(mem0, w, t) == true
            else RefusedAt(mem0, w) == true
  {
    assert w.pending[1..] == StackValues(mem0, stack);
  }

  lemma StartGoing(mem0: Mem, v0: Value, blocks: seq<OutBlock>, user: bool)
    requires blocks != []
    ensures OnTheWay(mem0, Writer([], [v0]), [], Writer([], [v0]))
            && Appended(blocks, blocks, user, Done, EncodeAll([]))
    ensures [v0] == [v0] + StackValues(mem0, [])
  {
    WayStarts(mem0, Writer([], [v0]));
    assert Flatten(blocks) == Flatten(blocks) + [];
  }

  /** What one more token means for the output and for what is to go. */
  lemma StepOut(mem0: Mem, v0: Value, before: seq<OutBlock>, between: seq<OutBlock>, after: seq<OutBlock>, user: bool,
                toks: seq<Token>, w: Writer, t: Token, w': Writer)
    requires Stepped(mem0, w, t, w') && Wrote(between, after, user, Done, t)
    requires OnTheWay(mem0, Writer([], [v0]), toks, w) && Appended(before, between, user, Done, EncodeAll(toks))
    ensures OnTheWay(mem0, Writer([], [v0]), toks + [t], w') == true
    ensures Appended(before, after, user, Done, EncodeAll(toks + [t])) == true
  {
    WayOn(mem0, Writer([], [v0]), toks, w, t, w');
    assert IsCode(t, Encode(t));
    AppendedTwice(before, between, after, user, Done, EncodeAll(toks), Encode(t));
    EncodeAllAppend(toks, t);
  }

  /** There is less to write after each token. */
  lemma StepLess(mem0: Mem, w: Writer, t: Token, w': Writer)
    requires Stepped(mem0, w, t, w')
    ensures Unseen(mem0, w'.seen) < Unseen(mem0, w.seen) || (w'.seen == w.seen && |w'.pending| < |w.pending|)
  {
    assert w'.seen != w.seen ==> w.pending[0].a in Unseen(mem0, w.seen) && w.pending[0].a !in Unseen(mem0, w'.seen);
  }

  // ----- The writer -----

  /** The objects of `seen` are marked, and the trail can undo that. */
  ghost predicate Marked(mem0: Mem, seen: seq<nat>, mem: Mem, trail: seq<seq<Entry>>, counter: nat) {
    && Distinct(seen) && (forall a :: a in seen ==> a in mem0)
    && MarkedMem(mem0, seen, mem) && TrailFor(mem0, seen, trail) && counter == |seen|
  }

  ghost predicate Sized(mem0: Mem, seen: seq<nat>, size32: nat, size64: nat) {
    size32 == Size32(mem0, seen) && size64 == SizeOf(mem0, seen)
  }

  /** Between two iterations: `toks` are out, `v` and the stack are to go. */
  ghost predicate Going(mem0: Mem, v0: Value, before: seq<OutBlock>, blocks: seq<OutBlock>, user: bool,
                        toks: seq<Token>, w: Writer, v: Value, stack: seq<Frame>) {
    && StackOk(mem0, stack) && w.pending == [v] + StackValues(mem0, stack)
    && OnTheWay(mem0, Writer([], [v0]), toks, w) && Appended(before, blocks, user, Done, EncodeAll(toks))
  }

  /** All tokens are out. */
  ghost predicate AllOut(mem0: Mem, v0: Value, before: seq<OutBlock>, blocks: seq<OutBlock>, user: bool,
                         toks: seq<Token>, seen: seq<nat>) {
    OnTheWay(mem0, Writer([], [v0]), toks, Writer(seen, [])) && Appended(before, blocks, user, Done, EncodeAll(toks))
  }

  /** A failed step: `v0` cannot be marshalled, or the caller's buffer is too small. */
  ghost predicate FailedFor(mem0: Mem, v0: Value, before: seq<OutBlock>, user: bool, st: Status) {
    && (st == InvalidArgument ==> NoOutput(mem0, v0))
    && (st == Failure ==> user && (|before| == 1 ==> Overflows(mem0, v0, before[0].cap - |before[0].data|)))
  }

  lemma OnlyUserFails(before: seq<OutBlock>, after: seq<OutBlock>, user: bool, t: Token)
    requires Wrote(before, after, user, Failure, t)
    ensures user
  {
    assert IsCode(t, Encode(t));
  }

  lemma WayFailed(mem0: Mem, v0: Value, before: seq<OutBlock>, between: seq<OutBlock>, after: seq<OutBlock>, user: bool,
                  toks: seq<Token>, w: Writer, v: Value, stack: seq<Frame>, st: Status, t: Token, w': Writer,
                  descend: bool, next: Value, stack': seq<Frame>)
    requires Going(mem0, v0, before, between, user, toks, w, v, stack) && st != Done
    requires ValueOut(mem0, between, after, user, w, st, t, w', descend, next, stack')
    ensures FailedFor(mem0, v0, before, user, st) == true
  {
    if st == InvalidArgument {
      WayRefused(mem0, v0, toks, w);
    } else if st == Failure {
      OnlyUserFails(between, after, user, t);
      if |before| == 1 {
        WayOverflows(mem0, v0, before, between, after, toks, w, t);
      }
    }
  }

  /** The state after a token: on with the first field of the new block. */
  lemma DescendGoing(mem0: Mem, v0: Value, before: seq<OutBlock>, between: seq<OutBlock>, after: seq<OutBlock>,
                     user: bool, toks: seq<Token>, w: Writer, v: Value, stack: seq<Frame>, t: Token, w': Writer,
                     next: Value, stack': seq<Frame>)
    requires Going(mem0, v0, before, between, user, toks, w, v, stack) && Wrote(between, after, user, Done, t)
    requires ToGo(mem0, w, t, w', true, next, stack')
    ensures Going(mem0, v0, before, after, user, toks + [t], w', next, stack') == true
  {
    StepOut(mem0, v0, before, between, after, user, toks, w, t, w');
  }

  /** Or on with what the stack has next. */
  lemma PopGoing(mem0: Mem, v0: Value, before: seq<OutBlock>, between: seq<OutBlock>, after: seq<OutBlock>, user: bool,
                 toks: seq<Token>, w: Writer, v: Value, stack: seq<Frame>, t: Token, w': Writer, stack': seq<Frame>,
                 seen: seq<nat>, mem: Mem)
    requires Going(mem0, v0, before, between, user, toks, w, v, stack) && Wrote(between, after, user, Done, t)
    requires ToGo(mem0, w, t, w', false, Long(0), stack') && stack' != [] && MemOk(mem0) && MarkedMem(mem0, seen, mem)
    ensures var f := stack'[|stack'| - 1];
            && f.count > 0 && f.a in mem && f.next < |mem[f.a].words| && mem[f.a].words[f.next].V?
            && Going(mem0, v0, before, after, user, toks + [t], w', mem[f.a].words[f.next].v, Popped(stack')) == true
  {
    StepOut(mem0, v0, before, between, after, user, toks, w, t, w');
    NextItemOk(mem0, seen, mem, stack');
  }

  /** Or everything is written. */
  lemma EndGoing(mem0: Mem, v0: Value, before: seq<OutBlock>, between: seq<OutBlock>, after: seq<OutBlock>, user: bool,
                 toks: seq<Token>, w: Writer, v: Value, stack: seq<Frame>, t: Token, w': Writer)
    requires Going(mem0, v0, before, between, user, toks, w, v, stack) && Wrote(between, after, user, Done, t)
    requires ToGo(mem0, w, t, w', false, Long(0), [])
    ensures AllOut(mem0, v0, before, after, user, toks + [t], w'.seen) == true
  {
    StepOut(mem0, v0, before, between, after, user, toks, w, t, w');
    assert w' == Writer(w'.seen, []);
  }

  // ----- The header -----

  lemma StartMarked(mem0: Mem)
    ensures Marked(mem0, [], mem0, [[]], 0) && Sized(mem0, [], 0, 0)
  {
    forall a ensures CellState(mem0, [], mem0, a) {
    }
  }

  /** Leave sixteen bytes for the sizes in the first block. */
  function SkipSizes(blocks: seq<OutBlock>): seq<OutBlock>
    requires blocks != []
  {
    blocks[0 := blocks[0].(data := blocks[0].data + seq(16, _ => 0))]
  }

  /** Write the sizes into the space left for them. */
  function Patched(data: seq<byte>, len: nat, objects: nat, size32: nat, size64: nat): seq<byte>
    requires |data| >= 20
  {
    data[..4] + BigEndian(len, WORD) + BigEndian(objects, WORD) + BigEndian(size32, WORD) + BigEndian(size64, WORD)
      + data[20..]
  }

  /** The magic number and the space for the sizes are in the first block. */
  ghost predicate HeaderSpace(blocks: seq<OutBlock>, user: bool) {
    && |blocks| == 1 && |blocks[0].data| == 20 && blocks[0].data[..4] == BigEndian(MAGIC, WORD)
      && (!user ==> Within(blocks))
  }

  lemma {:induction false} FlattenFirst(blocks: seq<OutBlock>)
    requires blocks != []
    ensures Flatten(blocks) == blocks[0].data + Flatten(blocks[1..])
  {
    var n := |blocks| - 1;
    if n == 0 {
      assert blocks[..0] == [] && blocks[1..] == [];
    } else {
      FlattenFirst(blocks[..n]);
      assert blocks[..n][1..] == blocks[1..][..n - 1];
      ThreeParts(blocks[0].data, Flatten(blocks[1..][..n - 1]), blocks[n].data);
    }
  }

  lemma PatchedBytes(d: seq<byte>, rest: seq<byte>, a: seq<byte>, b: seq<byte>, c: seq<byte>, e: seq<byte>,
                     f: seq<byte>)
    requires |d| >= 20 && d[..4] == a
    ensures (d[..4] + b + c + e + f + d[20..]) + rest == (a + b + c + e + f) + (d + rest)[20..]
  {
  }

  lemma PatchedFlat(blocks: seq<OutBlock>, len: nat, objects: nat, size32: nat, size64: nat)
    requires blocks != [] && |blocks[0].data| >= 20 && blocks[0].data[..4] == BigEndian(MAGIC, WORD)
    ensures |Flatten(blocks)| >= 20
    ensures var after := blocks[0 := blocks[0].(data := Patched(blocks[0].data, len, objects, size32, size64))];
            Flatten(after) == Header(len, objects, size32, size64) + Flatten(blocks)[20..]
              && (Within(blocks) ==> Within(after))
  {
    var after := blocks[0 := blocks[0].(data := Patched(blocks[0].data, len, objects, size32, size64))];
    FlattenFirst(blocks);
    FlattenFirst(after);
    assert after[1..] == blocks[1..];
    PatchedBytes(blocks[0].data, Flatten(blocks[1..]), BigEndian(MAGIC, WORD), BigEndian(len, WORD),
      BigEndian(objects, WORD),
                 BigEndian(size32, WORD), BigEndian(size64, WORD));
  }

  lemma PrefixKept(a: seq<byte>, b: seq<byte>, s: seq<byte>)
    requires a <= b && |a| >= 20 && a[..4] == s
    ensures |b| >= 20 && b[..4] == s
  {
    assert b[..4] == a[..4];
  }

  /** The output with the sizes written into it. */
  function WithSizes(blocks: seq<OutBlock>, len: nat, objects: nat, size32: nat, size64: nat): seq<OutBlock>
    requires blocks != [] && |blocks[0].data| >= 20
  {
    blocks[0 := blocks[0].(data := Patched(blocks[0].data, len, objects, size32, size64))]
  }

  lemma BodyOut(before: seq<OutBlock>, blocks: seq<OutBlock>, user: bool, body: seq<byte>, objects: nat, size32: nat,
                size64: nat)
    requires HeaderSpace(before, user) && Appended(before, blocks, user, Done, body) && body != []
    ensures |blocks[0].data| >= 20 && |Flatten(blocks)| == 20 + |body|
    ensures Flatten(WithSizes(blocks, |body|, objects, size32, size64)) ==
            Header(|body|, objects, size32, size64) + body
    ensures Within(WithSizes(blocks, |body|, objects, size32, size64))
  {
    FlattenFirst(before);
    assert Flatten(before) == before[0].data;
    PrefixKept(before[0].data, blocks[0].data, before[0].data[..4]);
    assert Flatten(blocks)[20..] == body;
    PatchedFlat(blocks, |body|, objects, size32, size64);
  }

  lemma MarshalOf(mem0: Mem, v: Value, toks: seq<Token>, seen: seq<nat>)
    requires OnTheWay(mem0, Writer([], [v]), toks, Writer(seen, []))
    ensures EncodeAll(toks) != []
    ensures var body, s32, s64 := EncodeAll(toks), Size32(mem0, seen), SizeOf(mem0, seen);
            20 + |body| < 0x1_0000_0000 && s32 < 0x1_0000_0000 && s64 < 0x1_0000_0000 ==>
              IsMessage(mem0, v, Header(|body|, |seen|, s32, s64) + body) == true
  {
    WayEnds(mem0, v, toks, seen);
    assert toks != [];
    assert |EncodeAll(toks)| >= |Encode(toks[0])|;
  }

  ghost predicate IsMessage(mem0: Mem, v: Value, bytes: seq<byte>) {
    Marshal(mem0, v).Message? && Marshal(mem0, v).bytes == bytes
  }

  /** The output is the message of `v`. */
  ghost predicate Complete(mem0: Mem, v: Value, blocks: seq<OutBlock>) {
    IsMessage(mem0, v, Flatten(blocks)) && Within(blocks)
  }

  /** What the finished output is, once the sizes are written. */
  lemma MessageOut(mem0: Mem, v: Value, before: seq<OutBlock>, blocks: seq<OutBlock>, user: bool, toks: seq<Token>,
                   seen: seq<nat>, len: nat, objects: nat, size32: nat, size64: nat)
    requires HeaderSpace(before, user) && AllOut(mem0, v, before, blocks, user, toks, seen)
    requires len == |Flatten(blocks)| && objects == |seen| && Sized(mem0, seen, size32, size64)
    requires len < 0x1_0000_0000 && size32 < 0x1_0000_0000 && size64 < 0x1_0000_0000
    ensures len >= 20 && blocks != [] && |blocks[0].data| >= 20
    ensures Complete(mem0, v, WithSizes(blocks, len - 20, objects, size32, size64)) == true
  {
    MarshalOf(mem0, v, toks, seen);
    BodyOut(before, blocks, user, EncodeAll(toks), objects, size32, size64);
  }

  lemma MessageTooBig(mem0: Mem, v: Value, before: seq<OutBlock>, blocks: seq<OutBlock>, user: bool, toks: seq<Token>,
                      seen: seq<nat>)
    requires HeaderSpace(before, user) && AllOut(mem0, v, before, blocks, user, toks, seen)
    requires |Flatten(blocks)| >= 0x1_0000_0000 || Size32(mem0, seen) >= 0x1_0000_0000
             || SizeOf(mem0, seen) >= 0x1_0000_0000
    ensures Marshal(mem0, v).TooBig?
  {
    WayEnds(mem0, v, toks, seen);
    assert Flatten(before) == before[0].data;
  }

  /** A buffer of `cap` bytes has no room for the message of `v`, if there is one. */
  ghost predicate NotWithin(mem0: Mem, v: Value, cap: nat) {
    Marshal(mem0, v).Message? ==> |Marshal(mem0, v).bytes| > cap
  }

  lemma OverflowsMessage(mem0: Mem, v: Value, cap: nat)
    requires Overflows(mem0, v, cap - 20)
    ensures NotWithin(mem0, v, cap)
  {
  }

  class Marshaller {
    var mem: Mem
    var blocks: seq<OutBlock>
    var user: bool
    var trail: seq<seq<Entry>>
    var objCounter: nat
    var size32: nat
    var size64: nat
    var stack: seq<Frame>
    var stackLimit: nat

    /** `grow_extern_output_r`; `malloc` may fail. */
    method Grow(required: nat) returns (st: Status)
      requires blocks != []
      modifies this`blocks
      ensures var extra := if required <= SIZE_EXTERN_OUTPUT_BLOCK / 2 then 0 else required;
              st == Done ==> blocks == old(blocks) + [OutBlock([], SIZE_EXTERN_OUTPUT_BLOCK + extra)]
      ensures st != Done ==> st in {Failure, OutOfMemory} && blocks == old(blocks)
      ensures user <==> st == Failure
    {
      if user {
        return Failure;
      }
      var extra := if required <= SIZE_EXTERN_OUTPUT_BLOCK / 2 then 0 else required;
      var room: bool := *;
      if !room {
        return OutOfMemory;
      }
      blocks := blocks + [OutBlock([], SIZE_EXTERN_OUTPUT_BLOCK + extra)];
      st := Done;
    }

    /** `writeblock_r`, and the writing of codes. */
    method WriteBytes(s: seq<byte>) returns (st: Status)
      requires blocks != []
      modifies this`blocks
      ensures Appended(old(blocks), blocks, user, st, s)
      ensures var n := |old(blocks)| - 1;
              if |old(blocks)[n].data| + |s| <= old(blocks)[n].cap
              then st == Done && blocks == old(blocks)[n := old(blocks)[n].(data := old(blocks)[n].data + s)]
              else user ==> st == Failure
    {
      var n := |blocks| - 1;
      if |blocks[n].data| + |s| > blocks[n].cap {
        st := Grow(|s|);
        if st != Done {
          return;
        }
        n := |blocks| - 1;
        assert blocks[..n] == old(blocks);
        assert Flatten(blocks) == Flatten(old(blocks)) + [];
      }
      FlattenAppend(blocks, s);
      blocks := blocks[n := blocks[n].(data := blocks[n].data + s)];
      st := Done;
    }

    method WriteInt(n: int) returns (st: Status)
      requires blocks != []
      modifies this`blocks
      ensures Appended(old(blocks), blocks, user, st, Encode(TInt(n)))
    {
      if 0 <= n < 0x40 {
        st := WriteBytes([PREFIX_SMALL_INT + n]);
      } else if -0x80 <= n < 0x80 {
        st := WriteBytes([CODE_INT8] + BigEndian(n, 1));
      } else if -0x8000 <= n < 0x8000 {
        st := WriteBytes([CODE_INT16] + BigEndian(n, 2));
      } else if n < -0x8000_0000 || n >= 0x8000_0000 {
        st := WriteBytes([CODE_INT64] + BigEndian(n, 8));
      } else {
        st := WriteBytes([CODE_INT32] + BigEndian(n, 4));
      }
    }

    method WriteAtom(tag: byte) returns (st: Status)
      requires blocks != []
      modifies this`blocks
      ensures Appended(old(blocks), blocks, user, st, Encode(TAtom(tag)))
    {
      if tag < 16 {
        st := WriteBytes([PREFIX_SMALL_BLOCK + tag]);
      } else {
        st := WriteBytes([CODE_BLOCK32] + BigEndian(HeaderWord(tag, 0), 4));
      }
    }

    method WriteShared(d: nat) returns (st: Status)
      requires blocks != []
      modifies this`blocks
      ensures Appended(old(blocks), blocks, user, st, Encode(TShared(d)))
    {
      if d < 0x100 {
        st := WriteBytes([CODE_SHARED8] + BigEndian(d, 1));
      } else if d < 0x1_0000 {
        st := WriteBytes([CODE_SHARED16] + BigEndian(d, 2));
      } else {
        st := WriteBytes([CODE_SHARED32] + BigEndian(d, 4));
      }
    }

    method WriteHeader(tag: byte, size: nat) returns (st: Status)
      requires blocks != []
      modifies this`blocks
      ensures Appended(old(blocks), blocks, user, st, Encode(TBlock(tag, size)))
    {
      if tag < 16 && size < 8 {
        st := WriteBytes([PREFIX_SMALL_BLOCK + tag + 16 * size]);
      } else if HeaderWord(tag, size) >= 0x1_0000_0000 {
        st := WriteBytes([CODE_BLOCK64] + BigEndian(HeaderWord(tag, size), 8));
      } else {
        st := WriteBytes([CODE_BLOCK32] + BigEndian(HeaderWord(tag, size), 4));
      }
    }

    /** A prefix, and then the data. */
    method WriteData(prefix: seq<byte>, data: seq<byte>) returns (st: Status)
      requires blocks != []
      modifies this`blocks
      ensures Appended(old(blocks), blocks, user, st, prefix + data)
    {
      st := WriteBytes(prefix);
      if st != Done {
        return;
      }
      ghost var between := blocks;
      st := WriteBytes(data);
      AppendedTwice(old(blocks), between, blocks, user, st, prefix, data);
    }

    method WriteString(data: seq<byte>) returns (st: Status)
      requires blocks != []
      modifies this`blocks
      ensures Appended(old(blocks), blocks, user, st, Encode(TString(data)))
    {
      if |data| < 0x20 {
        st := WriteData([PREFIX_SMALL_STRING + |data|], data);
      } else if |data| < 0x100 {
        st := WriteData([CODE_STRING8] + BigEndian(|data|, 1), data);
      } else {
        st := WriteData([CODE_STRING32] + BigEndian(|data|, 4), data);
      }
    }

    method WriteDoubles(data: seq<byte>) returns (st: Status)
      requires blocks != []
      modifies this`blocks
      ensures Appended(old(blocks), blocks, user, st, Encode(TDoubles(data)))
    {
      if |data| / 8 < 0x100 {
        st := WriteData([CODE_DOUBLE_ARRAY8] + BigEndian(|data| / 8, 1), data);
      } else {
        st := WriteData([CODE_DOUBLE_ARRAY32] + BigEndian(|data| / 8, 4), data);
      }
    }

    /** The first token of an object that has not been met before. */
    method WriteObject(c: Cell) returns (st: Status)
      requires blocks != []
      modifies this`blocks
      ensures Appended(old(blocks), blocks, user, st, Encode(ObjectToken(c)))
    {
      if c.tag == STRING_TAG {
        st := WriteString(Payload(c.words));
      } else if c.tag == DOUBLE_TAG {
        st := WriteData([CODE_DOUBLE], Flat(c.words));
      } else if c.tag == DOUBLE_ARRAY_TAG {
        st := WriteDoubles(Flat(c.words));
      } else {
        st := WriteHeader(c.tag, |c.words|);
      }
    }

    /** `extern_record_location_r`: mark object `a` with its number, and enter what
        this destroys into the trail. */
    method RecordLocation(a: nat, ghost mem0: Mem, ghost seen: seq<nat>) returns (st: Status)
      requires Marked(mem0, seen, mem, trail, objCounter) && a in mem0 && a !in seen && |mem0[a].words| > 0
      modifies this`mem, this`trail, this`objCounter
      ensures st == Done ==> Marked(mem0, seen + [a], mem, trail, objCounter) == true
      ensures st != Done ==> st == OutOfMemory && Marked(mem0, seen, mem, trail, objCounter) == true
    {
      var n := |trail| - 1;
      if |trail[n]| == ENTRIES_PER_TRAIL_BLOCK {
        var room: bool := *;
        if !room {
          return OutOfMemory;
        }
        TrailBlock(mem0, seen, trail);
        trail := trail + [[]];
        n := n + 1;
      }
      assert CellState(mem0, seen, mem, a);
      TrailEntry(mem0, seen, trail, a);
      MarkOne(mem0, seen, mem, a);
      DistinctAppend(seen, a);
      trail := trail[n := trail[n] + [Entry(a, mem[a].color, mem[a].words[0])]];
      mem := mem[a := mem[a].(color := Blue, words := mem[a].words[0 := Count(objCounter)])];
      objCounter := objCounter + 1;
      st := Done;
    }

    /** `extern_replay_trail_r`: the blocks of the trail from the last to the first,
        each from its first entry on. */
    method ReplayTrail(ghost mem0: Mem, ghost seen: seq<nat>)
      requires Marked(mem0, seen, mem, trail, objCounter)
      modifies this`mem, this`trail
      ensures mem == mem0 && trail == [[]]
    {
      var b := |trail| - 1;
      var lim := |trail[b]|;
      StartUndo(mem0, seen, trail, mem);
      while b >= 0
        invariant -1 <= b < |trail| && trail == old(trail)
        invariant HalfUndone(mem0, seen, mem, b, 0)
        invariant b >= 0 ==> lim == |trail[b]|
      {
        var n := 0;
        while n < lim
          invariant 0 <= n <= lim && trail == old(trail) && HalfUndone(mem0, seen, mem, b, n)
        {
          UndoOne(mem0, seen, trail, mem, b, n);
          var e := trail[b][n];
          assert EntryFor(mem0, seen, Number(b, n), e) && HalfCell(mem0, seen, mem, b, n, e.obj);
          mem := mem[e.obj := mem[e.obj].(color := e.color, words := mem[e.obj].words[0 := e.field0])];
          n := n + 1;
        }
        UndoNextBlock(mem0, seen, mem, b, n);
        b := b - 1;
        lim := ENTRIES_PER_TRAIL_BLOCK;
      }
      AllUndone(mem0, seen, mem);
      trail := [[]];
    }

    /** Remember the fields of `a` from field 1 on. */
    method PushFields(a: nat, count: nat) returns (st: Status)
      requires count > 0
      modifies this`stack, this`stackLimit
      ensures st == Done ==> stack == old(stack) + [Frame(a, 1, count)]
      ensures st != Done ==> st == OutOfMemory && stack == old(stack)
    {
      if |stack| + 1 >= stackLimit {
        var room: bool := *;
        if 2 * stackLimit >= EXTERN_STACK_MAX_SIZE || !room {
          return OutOfMemory;
        }
        stackLimit := 2 * stackLimit;
      }
      stack := stack + [Frame(a, 1, count)];
      st := Done;
    }

    /** Go on with the first field of the block `a`, whose fields are `words`, and
        remember the others. */
    method Descend(a: nat, words: seq<Word>, ghost mem0: Mem) returns (st: Status, next: Value)
      requires MemOk(mem0) && StackOk(mem0, stack) && a in mem0 && mem0[a].tag < NO_SCAN_TAG && words == mem0[a].words
      modifies this`stack, this`stackLimit
      ensures st == Done ==>
                && StackOk(mem0, stack)
                && [next] + StackValues(mem0, stack) == Fields(words) + StackValues(mem0, old(stack))
      ensures st != Done ==> st == OutOfMemory
    {
      assert Sound(mem0, a);
      st, next := Done, words[0].v;
      if |words| > 1 {
        PushedValues(mem0, stack, a);
        st := PushFields(a, |words| - 1);
      } else {
        assert Fields(words) == [next];
      }
    }

    /** An object that has not been met before: its token, its sizes and its mark. */
    method WriteNew(a: nat, ghost mem0: Mem, ghost seen: seq<nat>) returns (st: Status, ghost seen': seq<nat>)
      requires Marked(mem0, seen, mem, trail, objCounter) && Sized(mem0, seen, size32, size64) && MemOk(mem0)
               && blocks != []
      requires a in mem0 && a !in seen
      modifies this`mem, this`blocks, this`trail, this`objCounter, this`size32, this`size64
      ensures Marked(mem0, seen', mem, trail, objCounter) == true
      ensures Appended(old(blocks), blocks, user, st, Encode(ObjectToken(mem0[a])))
      ensures st == Done ==> seen' == seen + [a] && Sized(mem0, seen', size32, size64)
    {
      seen' := seen;
      assert CellState(mem0, seen, mem, a) && Sound(mem0, a);
      var c := mem[a];
      st := WriteObject(c);
      if st == Done {
        SizesGrow(mem0, seen, a);
        size32 := size32 + CellSize32(c);
        size64 := size64 + (1 + |c.words|);
        st := RecordLocation(a, mem0, seen);
        if st == Done {
          seen' := seen + [a];
        }
      }
    }

    /** The same, and the first field comes next, if there are fields to scan. */
    method WriteFresh(a: nat, ghost mem0: Mem, ghost seen: seq<nat>)
      returns (st: Status, descend: bool, next: Value, ghost seen': seq<nat>)
      requires Marked(mem0, seen, mem, trail, objCounter) && Sized(mem0, seen, size32, size64) && MemOk(mem0)
               && blocks != [] && StackOk(mem0, stack)
      requires a in mem0 && a !in seen
      modifies this
      ensures Marked(mem0, seen', mem, trail, objCounter) && user == old(user)
      ensures Appended(old(blocks), blocks, user, st, Encode(ObjectToken(mem0[a])))
      ensures st == Done ==>
                && seen' == seen + [a] && Sized(mem0, seen', size32, size64) && StackOk(mem0, stack)
                  && (!descend ==> next == Long(0))
                && (if descend then [next] else []) + StackValues(mem0, stack) ==
                  Children(mem0[a]) + StackValues(mem0, old(stack))
    {
      descend, next := false, Long(0);
      assert CellState(mem0, seen, mem, a);
      var c := mem[a];
      st, seen' := WriteNew(a, mem0, seen);
      if st == Done && c.tag < NO_SCAN_TAG {
        descend := true;
        st, next := Descend(a, c.words, mem0);
      }
    }

    /** A block, new or already written. */
    method WriteRef(a: nat, ghost mem0: Mem, ghost w: Writer)
      returns (st: Status, descend: bool, next: Value, ghost t: Token, ghost w': Writer)
      requires Marked(mem0, w.seen, mem, trail, objCounter) && Sized(mem0, w.seen, size32, size64) && MemOk(mem0)
               && blocks != [] && StackOk(mem0, stack)
      requires w.pending == [Ref(a)] + StackValues(mem0, stack)
      modifies this
      ensures Marked(mem0, w'.seen, mem, trail, objCounter) == true && user == old(user)
      ensures ValueOut(mem0, old(blocks), blocks, user, w, st, t, w', descend, next, stack) == true
      ensures st == Done ==> Sized(mem0, w'.seen, size32, size64) == true
    {
      descend, next, t, w' := false, Long(0), TInt(0), Writer(w.seen, w.pending[1..]);
      SeenIsBlue(mem0, w.seen, mem, a);
      RefStep(mem0, w, a, stack);
      if a !in mem {
        st := InvalidArgument;
      } else if mem[a].color == Blue {
        t := TShared(objCounter - mem[a].words[0].n);
        st := WriteShared(objCounter - mem[a].words[0].n);
      } else if mem[a].tag == ABSTRACT_TAG || mem[a].tag == CUSTOM_TAG {
        st := InvalidArgument;
      } else {
        t := ObjectToken(mem0[a]);
        st, descend, next, w' := WriteFreshRef(a, mem0, w);
      }
    }

    method WriteFreshRef(a: nat, ghost mem0: Mem, ghost w: Writer)
      returns (st: Status, descend: bool, next: Value, ghost w': Writer)
      requires Marked(mem0, w.seen, mem, trail, objCounter) && Sized(mem0, w.seen, size32, size64) && MemOk(mem0)
               && blocks != [] && StackOk(mem0, stack)
      requires a in mem0 && a !in w.seen && NextToken(mem0, w, ObjectToken(mem0[a])) == true
      requires Stepped(mem0, w, ObjectToken(mem0[a]), FreshWriter(mem0, w, a, stack)) == true
      modifies this
      ensures Marked(mem0, w'.seen, mem, trail, objCounter) == true && user == old(user)
      ensures ValueOut(mem0, old(blocks), blocks, user, w, st, ObjectToken(mem0[a]), w', descend, next, stack) == true
      ensures st == Done ==> Sized(mem0, w'.seen, size32, size64) == true
    {
      ghost var seen';
      w' := FreshWriter(mem0, w, a, stack);
      st, descend, next, seen' := WriteFresh(a, mem0, w.seen);
      w' := w'.(seen := seen');
    }

    /** One iteration of the loop of `extern_rec_r`, up to the next item. */
    method WriteValue(v: Value, ghost mem0: Mem, ghost w: Writer)
      returns (st: Status, descend: bool, next: Value, ghost t: Token, ghost w': Writer)
      requires Marked(mem0, w.seen, mem, trail, objCounter) && Sized(mem0, w.seen, size32, size64) && MemOk(mem0)
               && blocks != [] && StackOk(mem0, stack)
      requires w.pending == [v] + StackValues(mem0, stack)
      modifies this
      ensures Marked(mem0, w'.seen, mem, trail, objCounter) == true && user == old(user)
      ensures ValueOut(mem0, old(blocks), blocks, user, w, st, t, w', descend, next, stack) == true
      ensures st == Done ==> Sized(mem0, w'.seen, size32, size64) == true
    {
      if v.Ref? {
        st, descend, next, t, w' := WriteRef(v.a, mem0, w);
      } else {
        descend, next := false, Long(0);
        st, t, w' := WriteLeaf(v, mem0, w);
      }
    }

    method WriteLeaf(v: Value, ghost mem0: Mem, ghost w: Writer) returns (st: Status, ghost t: Token, ghost w': Writer)
      requires blocks != [] && StackOk(mem0, stack) && w.pending == [v] + StackValues(mem0, stack) && !v.Ref?
      modifies this`blocks
      ensures w'.seen == w.seen
      ensures ValueOut(mem0, old(blocks), blocks, user, w, st, t, w', false, Long(0), stack) == true
    {
      t, w' := LeafToken(v), Writer(w.seen, w.pending[1..]);
      LeafStep(mem0, w, v, stack);
      match v
      case Long(n) => st := WriteInt(n);
      case Atom(tag) => st := WriteAtom(tag);
      case _ => st := InvalidArgument;
    }

    /** After a token: go on with the first field of a new block, or with the next
        item of the stack, or end. */
    method NextValue(descend: bool, next: Value, ghost mem0: Mem, ghost v0: Value, ghost before: seq<OutBlock>,
                     ghost between: seq<OutBlock>, ghost toks: seq<Token>, ghost w: Writer, ghost v: Value,
                     ghost stack0: seq<Frame>, ghost t: Token, ghost w': Writer)
      returns (finished: bool, v': Value)
      requires MemOk(mem0) == true && MarkedMem(mem0, w'.seen, mem) == true
      requires Going(mem0, v0, before, between, user, toks, w, v, stack0) == true
               && Wrote(between, blocks, user, Done, t) == true
      requires ToGo(mem0, w, t, w', descend, next, stack) == true
      modifies this`stack
      ensures if finished then AllOut(mem0, v0, before, blocks, user, toks + [t], w'.seen) == true
              else Going(mem0, v0, before, blocks, user, toks + [t], w', v', stack) == true
    {
      finished, v' := false, next;
      if descend {
        DescendGoing(mem0, v0, before, between, blocks, user, toks, w, v, stack0, t, w', next, stack);
      } else if stack == [] {
        EndGoing(mem0, v0, before, between, blocks, user, toks, w, v, stack0, t, w');
        finished := true;
      } else {
        PopGoing(mem0, v0, before, between, blocks, user, toks, w, v, stack0, t, w', stack, w'.seen, mem);
        var f := stack[|stack| - 1];
        v' := mem[f.a].words[f.next].v;
        stack := Popped(stack);
      }
    }

    /** The body of the loop of `extern_rec_r`. */
    method Iterate(v: Value, ghost mem0: Mem, ghost v0: Value, ghost before: seq<OutBlock>, ghost toks: seq<Token>,
                   ghost w: Writer)
      returns (st: Status, finished: bool, v': Value, ghost t: Token, ghost w': Writer)
      requires MemOk(mem0) == true && Marked(mem0, w.seen, mem, trail, objCounter) == true
               && Sized(mem0, w.seen, size32, size64) == true
      requires Going(mem0, v0, before, blocks, user, toks, w, v, stack) == true
      modifies this
      ensures user == old(user) && Marked(mem0, w'.seen, mem, trail, objCounter) == true
      ensures st != Done ==> FailedFor(mem0, v0, before, user, st) == true
      ensures st == Done ==>
                && Sized(mem0, w'.seen, size32, size64) == true && Stepped(mem0, w, t, w') == true
                && if finished then AllOut(mem0, v0, before, blocks, user, toks + [t], w'.seen) == true
                   else Going(mem0, v0, before, blocks, user, toks + [t], w', v', stack) == true
    {
      ghost var between, stack0 := blocks, stack;
      var descend, next;
      finished, v' := false, v;
      st, descend, next, t, w' := WriteValue(v, mem0, w);
      if st == Done {
        ValueDone(mem0, between, blocks, user, w, t, w', descend, next, stack);
        finished, v' := NextValue(descend, next, mem0, v0, before, between, toks, w, v, stack0, t, w');
      } else {
        WayFailed(mem0, v0, before, between, blocks, user, toks, w, v, stack0, st, t, w', descend, next, stack);
      }
    }

    /** `extern_rec_r`: it writes the tokens of `v0`, or fails and leaves the heap as
        it was. */
    method ExternRec(v0: Value, ghost mem0: Mem) returns (st: Status, ghost toks: seq<Token>, ghost seen: seq<nat>)
      requires MemOk(mem0) && Marked(mem0, [], mem, trail, objCounter) && Sized(mem0, [], size32, size64)
               && blocks != []
      modifies this
      ensures user == old(user)
      ensures st == Done ==>
                && AllOut(mem0, v0, old(blocks), blocks, user, toks, seen) == true
                  && Marked(mem0, seen, mem, trail, objCounter) == true
                && Sized(mem0, seen, size32, size64) == true
      ensures st != Done ==> FailedFor(mem0, v0, old(blocks), user, st) == true
      ensures st != Done ==> mem == mem0
    {
      var v, finished := v0, false;
      ghost var w := Writer([], [v0]);
      stack := [];
      toks, seen, st := [], [], Done;
      StartGoing(mem0, v0, blocks, user);
      while !finished
        invariant user == old(user) && st == Done
        invariant Marked(mem0, w.seen, mem, trail, objCounter) == true && Sized(mem0, w.seen, size32, size64) == true
        invariant !finished ==> Going(mem0, v0, old(blocks), blocks, user, toks, w, v, stack) == true
        invariant finished ==> AllOut(mem0, v0, old(blocks), blocks, user, toks, w.seen) == true
        decreases !finished, Unseen(mem0, w.seen), |w.pending|
      {
        ghost var w0, t := w, TInt(0);
        st, finished, v, t, w := Iterate(v, mem0, v0, old(blocks), toks, w);
        toks := toks + [t];
        if st == Done {
          StepLess(mem0, w0, t, w);
        } else {
          ReplayTrail(mem0, w.seen);
          return;
        }
      }
      seen := w.seen;
    }

    /** `extern_output_length_r` is the length of the output. */
    method OutputLength() returns (len: nat)
      ensures len == |Flatten(blocks)|
    {
      len := 0;
      for i := 0 to |blocks|
        invariant len == |Flatten(blocks[..i])|
      {
        assert blocks[..i + 1][..i] == blocks[..i];
        len := len + |blocks[i].data|;
      }
      assert blocks[..|blocks|] == blocks;
    }

    /** `extern_value_r`, into the empty buffer that `init_extern_output_r` made or
        the caller provided: the message of `v` is written, or the call fails; the
        heap is left as it was in either case. */
    method ExternValue(v: Value) returns (st: Status)
      requires MemOk(mem) && |blocks| == 1 && blocks[0].data == []
               && (!user ==> blocks[0].cap == SIZE_EXTERN_OUTPUT_BLOCK)
      modifies this
      ensures mem == old(mem)
      ensures st == Done ==> Complete(mem, v, blocks)
      ensures st == InvalidArgument ==> NoOutput(mem, v)
      ensures st == Failure ==> Marshal(mem, v).TooBig? || (user && NotWithin(mem, v, old(blocks[0].cap)))
    {
      ghost var mem0, toks, seen := mem, [], [];
      StartMarked(mem0);
      st := WriteMagic();
      if st != Done {
        ReplayTrail(mem0, []);
        return;
      }
      ghost var before := blocks;
      st, toks, seen := ExternRec(v, mem0);
      if st == Failure {
        OverflowsMessage(mem0, v, before[0].cap);
      }
      if st != Done {
        return;
      }
      st := WriteSizes(mem0, v, before, toks, seen);
    }

    /** Undo the marks and write the sizes into the header. */
    method WriteSizes(ghost mem0: Mem, ghost v: Value, ghost before: seq<OutBlock>, ghost toks: seq<Token>,
                      ghost seen: seq<nat>)
      returns (st: Status)
      requires HeaderSpace(before, user) && AllOut(mem0, v, before, blocks, user, toks, seen)
      requires Marked(mem0, seen, mem, trail, objCounter) && Sized(mem0, seen, size32, size64)
      modifies this`mem, this`trail, this`blocks
      ensures mem == mem0 && user == old(user) && st in {Done, Failure}
      ensures st == Done ==> Complete(mem0, v, blocks) == true
      ensures st == Failure ==> Marshal(mem0, v).TooBig?
    {
      ReplayTrail(mem0, seen);
      var len := OutputLength();
      if len >= 0x1_0000_0000 || size32 >= 0x1_0000_0000 || size64 >= 0x1_0000_0000 {
        MessageTooBig(mem0, v, before, blocks, user, toks, seen);
        return Failure;
      }
      MessageOut(mem0, v, before, blocks, user, toks, seen, len, objCounter, size32, size64);
      blocks := WithSizes(blocks, len - 20, objCounter, size32, size64);
      st := Done;
    }

    /** Write the magic number and set aside space for the sizes. */
    method WriteMagic() returns (st: Status)
      requires |blocks| == 1 && blocks[0].data == [] && (!user ==> blocks[0].cap == SIZE_EXTERN_OUTPUT_BLOCK)
      modifies this`blocks, this`trail, this`objCounter, this`size32, this`size64
      ensures trail == [[]] && objCounter == 0 && size32 == 0 && size64 == 0
      ensures st == Done ==> HeaderSpace(blocks, user) && blocks[0].cap == old(blocks[0].cap)
      ensures st == Failure ==> user && old(blocks[0].cap) < 4
      ensures st in {Done, Failure}
    {
      trail, objCounter, size32, size64 := [[]], 0, 0, 0;
      var magic := BigEndian(MAGIC, WORD);
      st := WriteBytes(magic);
      if st == Done {
        assert blocks[0].data == magic;
        blocks := SkipSizes(blocks);
        assert (magic + seq(16, _ => 0))[..4] == magic;
      }
    }
  }
}
