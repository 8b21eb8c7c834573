/**
 The generic hash function as it is carried out (byterun/hash.c): the queue is an array
 of values with a read and a write position, forwarding blocks are followed as they
 are met, and the hash is updated in place.
 */
module HashQueue {
  import opened Mlvalues
  import opened Comparison
  import opened CompareOrder
  import opened Hashing

  // ----- Data in sequence -----

  lemma UnfoldCons(h: Heap, rank: map<nat, nat>, v: Value, rest: seq<Value>)
    requires Ranked(h, rank) && Good(h, rank, v) && Data(h, rank, v) && AllGood(h, rank, rest) && AllData(h, rank, rest)
    ensures AllGood(h, rank, [v] + rest) && AllData(h, rank, [v] + rest)
    ensures UnfoldAll(h, rank, [v] + rest) == [Unfold(h, rank, v)] + UnfoldAll(h, rank, rest)
  {
    assert ([v] + rest)[1..] == rest;
  }

  lemma {:induction false} UnfoldConcat(h: Heap, rank: map<nat, nat>, a: seq<Value>, b: seq<Value>)
    requires Ranked(h, rank) && AllGood(h, rank, a) && AllGood(h, rank, b) && AllData(h, rank, a) && AllData(h, rank, b)
    ensures AllGood(h, rank, a + b) && AllData(h, rank, a + b)
    ensures UnfoldAll(h, rank, a + b) == UnfoldAll(h, rank, a) + UnfoldAll(h, rank, b)
    decreases |a|
  {
    if a == [] {
      assert a + b == b;
    } else {
      var v, rest := a[0], a[1..];
      assert a == [v] + rest && a + b == [v] + (rest + b);
      UnfoldConcat(h, rank, rest, b);
      UnfoldCons(h, rank, v, rest + b);
    }
  }

  lemma {:induction false} UnfoldTake(h: Heap, rank: map<nat, nat>, a: seq<Value>, n: nat)
    requires Ranked(h, rank) && AllGood(h, rank, a) && AllData(h, rank, a) && n <= |a|
    ensures AllGood(h, rank, a[..n]) && AllData(h, rank, a[..n])
    ensures UnfoldAll(h, rank, a[..n]) == UnfoldAll(h, rank, a)[..n]
    decreases n
  {
    if n > 0 {
      assert a[..n][1..] == a[1..][..n - 1];
      UnfoldTake(h, rank, a[1..], n - 1);
    }
  }

  // ----- The hash so far -----

  ghost predicate MixStep(hs: seq<nat>, es: seq<Event>, k: nat) {
    k < |es| && |hs| == |es| + 1 ==> hs[k + 1] == MixEvent(hs[k], es[k])
  }

  ghost predicate IsMixing(h: nat, es: seq<Event>, hs: seq<nat>) {
    |hs| == |es| + 1 && hs[0] == h && forall k: nat {:trigger MixStep(hs, es, k)} :: MixStep(hs, es, k)
  }

  /** The events `es` take the hash from `h` to `r`. */
  ghost predicate Mixed(h: nat, es: seq<Event>, r: nat) {
    exists hs :: IsMixing(h, es, hs) && hs[|es|] == r
  }

  lemma NothingMixed(h: nat)
    ensures Mixed(h, [], h) == true
  {
    assert IsMixing(h, [], [h]);
  }

  lemma OneMixed(h: nat, es: seq<Event>, r: nat, e: Event)
    requires Mixed(h, es, r)
    ensures Mixed(h, es + [e], MixEvent(r, e)) == true
  {
    var hs :| IsMixing(h, es, hs) && hs[|es|] == r;
    var es', hs' := es + [e], hs + [MixEvent(r, e)];
    forall k: nat ensures MixStep(hs', es', k) {
      assert MixStep(hs, es, k);
    }
    assert IsMixing(h, es', hs');
  }

  lemma {:induction false} MixingIsMix(h: nat, es: seq<Event>, hs: seq<nat>)
    requires IsMixing(h, es, hs)
    ensures hs[|es|] == MixEvents(h, es)
    decreases |es|
  {
    if es != [] {
      var n := |es| - 1;
      assert MixStep(hs, es, n);
      var es', hs' := es[..n], hs[..n + 1];
      forall k: nat ensures MixStep(hs', es', k) {
        assert MixStep(hs, es, k);
      }
      MixingIsMix(h, es', hs');
    }
  }

  lemma MixedIsMix(h: nat, es: seq<Event>, r: nat)
    requires Mixed(h, es, r)
    ensures r == MixEvents(h, es)
  {
    var hs :| IsMixing(h, es, hs) && hs[|es|] == r;
    MixingIsMix(h, es, hs);
  }

  method Absorb(ghost h: nat, ghost es: seq<Event>, r: nat, e: Event) returns (r': nat)
    requires Mixed(h, es, r)
    ensures Mixed(h, es + [e], r') == true
  {
    OneMixed(h, es, r, e);
    r' := MixEvent(r, e);
  }

  // ----- Leaves -----

  /** `caml_hash_mix_double`. */
  method HashDouble(ghost h: nat, ghost es: seq<Event>, r: nat, d: nat) returns (r': nat)
    requires Mixed(h, es, r)
    ensures Mixed(h, es + DoubleEvents(d), r') == true
  {
    var halves := Halves(d);
    r' := Absorb(h, es, r, Word(halves.1));
    r' := Absorb(h, es + [Word(halves.1)], r', Word(halves.0));
    assert es + [Word(halves.1)] + [Word(halves.0)] == es + DoubleEvents(d);
  }

  lemma MoreBytes(log: seq<Event>, s: seq<byte>, i: nat, all: seq<Event>)
    requires i + 4 <= |s| && log + ByteEvents(s[i..]) == all
    ensures log + [Word(LittleEndian(s[i..i + 4]))] + ByteEvents(s[i + 4..]) == all
  {
    assert s[i..][..4] == s[i..i + 4] && s[i..][4..] == s[i + 4..];
  }

  /** `caml_hash_mix_string`. */
  method HashString(ghost h: nat, ghost es: seq<Event>, r: nat, s: seq<byte>) returns (r': nat)
    requires Mixed(h, es, r)
    ensures Mixed(h, es + StringEvents(s), r') == true
  {
    r' := r;
    var i := 0;
    ghost var log := es;
    assert s[0..] == s;
    while i + 4 <= |s|
      invariant i <= |s| && log + ByteEvents(s[i..]) == es + ByteEvents(s) && Mixed(h, log, r')
    {
      var w := Word(LittleEndian(s[i..i + 4]));
      MoreBytes(log, s, i, es + ByteEvents(s));
      r' := Absorb(h, log, r', w);
      log := log + [w];
      i := i + 4;
    }
    r' := HashTail(h, log, r', s[i..]);
    r' := Absorb(h, es + ByteEvents(s), r', Length(|s|));
    assert es + ByteEvents(s) + [Length(|s|)] == es + StringEvents(s);
  }

  /** The one to three bytes that are left. */
  method HashTail(ghost h: nat, ghost log: seq<Event>, r: nat, s: seq<byte>) returns (r': nat)
    requires Mixed(h, log, r) && |s| < 4
    ensures Mixed(h, log + ByteEvents(s), r') == true
  {
    r' := r;
    if s == [] {
      assert log + [] == log;
    } else {
      r' := Absorb(h, log, r, Word(LittleEndian(s)));
    }
  }

  lemma MoreDoubles(log: seq<Event>, ds: seq<nat>, num: int, i: nat, all: seq<Event>)
    requires i < |ds| && log + ArrayEvents(ds[i..], num) == all
    ensures num - 1 < 0 ==> log + DoubleEvents(ds[i]) == all && ArrayNum(ds[i..], num) == num - 1
    ensures num - 1 >= 0 ==> log + DoubleEvents(ds[i]) + ArrayEvents(ds[i + 1..], num - 1) == all
    ensures num - 1 >= 0 ==> ArrayNum(ds[i..], num) == ArrayNum(ds[i + 1..], num - 1)
  {
    assert ds[i..][0] == ds[i] && ds[i..][1..] == ds[i + 1..];
  }

  /** The loop over the floats of an array. */
  method HashDoubles(ghost h: nat, ghost es: seq<Event>, r: nat, ds: seq<nat>, num: int) returns (r': nat, left: int)
    requires Mixed(h, es, r)
    ensures Mixed(h, es + ArrayEvents(ds, num), r') == true && left == ArrayNum(ds, num)
  {
    r', left := r, num;
    ghost var log := es;
    var i := 0;
    assert ds[0..] == ds;
    while i < |ds|
      invariant i <= |ds| && Mixed(h, log, r')
      invariant log + ArrayEvents(ds[i..], left) == es + ArrayEvents(ds, num)
                && ArrayNum(ds[i..], left) == ArrayNum(ds, num)
    {
      MoreDoubles(log, ds, left, i, es + ArrayEvents(ds, num));
      r' := HashDouble(h, log, r', ds[i]);
      log := log + DoubleEvents(ds[i]);
      left := left - 1;
      if left < 0 {
        return;
      }
      i := i + 1;
    }
    assert log + [] == log;
  }

  /** Follow forwarding blocks. */
  method SkipForward(h: Heap, ghost rank: map<nat, nat>, v: Value) returns (w: Value)
    requires Ranked(h, rank) && Good(h, rank, v) && Data(h, rank, v)
    ensures Good(h, rank, w) && Data(h, rank, w) && Unfold(h, rank, w) == Unfold(h, rank, v)
    ensures w.Ref? ==> !h[w.a].Forward?
  {
    w := v;
    while w.Ref? && h[w.a].Forward?
      invariant Good(h, rank, w) && Data(h, rank, w) && Unfold(h, rank, w) == Unfold(h, rank, v)
      decreases Rank(rank, w)
    {
      assert Ranked1(h, rank, w.a);
      w := h[w.a].v;
    }
  }

  /** A value that is no block with fields. */
  method HashLeaf(h: Heap, ghost rank: map<nat, nat>, v: Value, ghost start: nat, ghost es: seq<Event>, r: nat,
                  num: int) returns (r': nat, left: int)
    requires Ranked(h, rank) && Good(h, rank, v) && Data(h, rank, v) && Mixed(start, es, r)
    requires v.Ref? ==> !h[v.a].Forward? && !h[v.a].Blk?
    ensures var t := Unfold(h, rank, v);
            !t.TBlk? && Mixed(start, es + LeafEvents(t, num), r') == true && left == LeafNum(t, num)
  {
    left := num - 1;
    match v
    case Long(n) => r' := Absorb(start, es, r, Native(2 * n + 1));
    case Ref(a) =>
      match h[a]
      case Str(s) => r' := HashString(start, es, r, s);
      case Dbl(d) => r' := HashDouble(start, es, r, d);
      case Dbls(ds) => r', left := HashDoubles(start, es, r, ds, num);
      case Object(oid) => r' := Absorb(start, es, r, Native(oid));
  }

  // ----- The queue -----

  /** The fields of a block go into the queue as long as there is room. */
  method Enqueue(queue: array<Value>, wr: nat, sz: int, fields: seq<Value>) returns (wr': nat)
    requires wr <= queue.Length && sz <= queue.Length
    modifies queue
    ensures wr' == wr + Room(sz, wr, |fields|) <= queue.Length
    ensures queue[..wr'] == old(queue[..wr]) + fields[..Room(sz, wr, |fields|)]
  {
    wr' := wr;
    var i := 0;
    while i < |fields| && wr' < sz
      invariant i <= |fields| && wr' == wr + i <= queue.Length && (i > 0 ==> wr' <= sz)
      invariant queue[..wr'] == old(queue[..wr]) + fields[..i]
    {
      queue[wr'] := fields[i];
      assert queue[..wr' + 1] == old(queue[..wr]) + fields[..i] + [fields[i]];
      wr' := wr' + 1;
      i := i + 1;
    }
  }

  method EnqueueRest(queue: array<Value>, ghost rd: nat, wr: nat, sz: int, fields: seq<Value>) returns (wr': nat)
    requires rd <= wr <= queue.Length && sz <= queue.Length
    modifies queue
    ensures wr' == wr + Room(sz, wr, |fields|) <= queue.Length
    ensures queue[rd..wr'] == old(queue[rd..wr]) + fields[..Room(sz, wr, |fields|)]
  {
    ghost var was := queue[..wr];
    assert queue[rd..wr] == was[rd..];
    wr' := Enqueue(queue, wr, sz, fields);
    assert queue[rd..wr'] == queue[..wr'][rd..];
  }

  /** What has been mixed and what the queue still holds make up the whole traversal. */
  ghost predicate Traversed(h: Heap, rank: map<nat, nat>, queue: seq<Value>, wr: nat, sz: int, num: int,
                            done: seq<Event>, all: seq<Event>) {
    && Ranked(h, rank) && AllGood(h, rank, queue) && AllData(h, rank, queue)
    && done + Visit(UnfoldAll(h, rank, queue), wr, sz, num) == all
  }

  lemma TraversalStarts(h: Heap, rank: map<nat, nat>, obj: Value, wr: nat, sz: int, num: int)
    requires Ranked(h, rank) && Good(h, rank, obj) && Data(h, rank, obj)
    ensures Traversed(h, rank, [obj], wr, sz, num, [], Visit([Unfold(h, rank, obj)], wr, sz, num)) == true
  {
    var vs: seq<Value> := [];
    assert [obj] == [obj] + vs;
    assert [obj][1..] == vs && AllData(h, rank, vs);
    assert AllData(h, rank, [obj]);
    assert UnfoldAll(h, rank, [obj]) == [Unfold(h, rank, obj)];
  }

  lemma Dequeued(h: Heap, rank: map<nat, nat>, v: Value, rest: seq<Value>)
    requires Ranked(h, rank) && AllGood(h, rank, [v] + rest) && AllData(h, rank, [v] + rest)
    ensures Good(h, rank, v) && Data(h, rank, v) && AllGood(h, rank, rest) && AllData(h, rank, rest)
    ensures UnfoldAll(h, rank, [v] + rest) == [Unfold(h, rank, v)] + UnfoldAll(h, rank, rest)
  {
    assert ([v] + rest)[0] == v && ([v] + rest)[1..] == rest;
    assert forall i :: 0 <= i < |rest| ==> rest[i] == ([v] + rest)[i + 1];
  }

  lemma VisitLeaf(t: Tree, ts: seq<Tree>, wr: nat, sz: int, num: int, done: seq<Event>, all: seq<Event>)
    requires num > 0 && !t.TBlk? && done + Visit([t] + ts, wr, sz, num) == all
    ensures done + LeafEvents(t, num) + Visit(ts, wr, sz, LeafNum(t, num)) == all
  {
    assert ([t] + ts)[0] == t && ([t] + ts)[1..] == ts;
  }

  lemma VisitBlock(t: Tree, ts: seq<Tree>, n: nat, wr: nat, sz: int, num: int, done: seq<Event>, all: seq<Event>)
    requires num > 0 && t.TBlk? && n == Room(sz, wr, |t.kids|) && done + Visit([t] + ts, wr, sz, num) == all
    ensures done + [HeaderEvent(t.tag, |t.kids|)] + Visit(ts + t.kids[..n], wr + n, sz, num) == all
  {
    assert ([t] + ts)[0] == t && ([t] + ts)[1..] == ts;
  }

  lemma LeafStep(h: Heap, rank: map<nat, nat>, v: Value, rest: seq<Value>, w: Value, wr: nat, sz: int, num: int,
                 done: seq<Event>, all: seq<Event>)
    requires Traversed(h, rank, [v] + rest, wr, sz, num, done, all) && num > 0 && Good(h, rank, w) && Data(h, rank, w)
    requires Good(h, rank, v) && Data(h, rank, v) && Unfold(h, rank, w) == Unfold(h, rank, v)
             && !Unfold(h, rank, w).TBlk?
    ensures var t := Unfold(h, rank, w);
            Traversed(h, rank, rest, wr, sz, LeafNum(t, num), done + LeafEvents(t, num), all) == true
  {
    var t := Unfold(h, rank, w);
    Dequeued(h, rank, v, rest);
    var ts := UnfoldAll(h, rank, rest);
    VisitLeaf(t, ts, wr, sz, num, done, all);
  }

  lemma FieldsUnfold(h: Heap, rank: map<nat, nat>, w: Value, rest: seq<Value>, n: nat)
    requires Ranked(h, rank) && Good(h, rank, w) && Data(h, rank, w) && w.Ref? && h[w.a].Blk? && n <= |h[w.a].fields|
    requires AllGood(h, rank, rest) && AllData(h, rank, rest)
    ensures var t, queue := Unfold(h, rank, w), rest + h[w.a].fields[..n];
            && t.TBlk? && t.tag == h[w.a].tag && |t.kids| == |h[w.a].fields|
            && AllGood(h, rank, queue) && AllData(h, rank, queue)
            && UnfoldAll(h, rank, queue) == UnfoldAll(h, rank, rest) + t.kids[..n]
  {
    assert Ranked1(h, rank, w.a);
    var fields := h[w.a].fields;
    UnfoldTake(h, rank, fields, n);
    UnfoldConcat(h, rank, rest, fields[..n]);
  }

  lemma BlockStep(h: Heap, rank: map<nat, nat>, v: Value, rest: seq<Value>, w: Value, fields: seq<Value>, n: nat,
                  e: Event, wr: nat, sz: int, num: int, done: seq<Event>, all: seq<Event>)
    requires Traversed(h, rank, [v] + rest, wr, sz, num, done, all) && num > 0 && Good(h, rank, w) && Data(h, rank, w)
    requires Good(h, rank, v) && Data(h, rank, v) && Unfold(h, rank, w) == Unfold(h, rank, v) && w.Ref? && h[w.a].Blk?
    requires fields == h[w.a].fields && e == HeaderEvent(h[w.a].tag, |fields|) && n == Room(sz, wr, |fields|)
    ensures Traversed(h, rank, rest + fields[..n], wr + n, sz, num, done + [e], all) == true
  {
    var t := Unfold(h, rank, w);
    Dequeued(h, rank, v, rest);
    FieldsUnfold(h, rank, w, rest, n);
    var ts := UnfoldAll(h, rank, rest);
    VisitBlock(t, ts, n, wr, sz, num, done, all);
  }

  lemma TraversalEnds(h: Heap, rank: map<nat, nat>, queue: seq<Value>, wr: nat, sz: int, num: int, done: seq<Event>,
                      all: seq<Event>)
    requires Traversed(h, rank, queue, wr, sz, num, done, all) && (queue == [] || num <= 0)
    ensures done == all
  {
  }

  /** `caml_hash_r`. */
  method HashValue(h: Heap, ghost rank: map<nat, nat>, count: int, limit: int, seed: int, obj: Value) returns (r: nat)
    requires Ranked(h, rank) && Good(h, rank, obj) && Data(h, rank, obj)
    ensures r == HashTree(Unfold(h, rank, obj), count, limit, seed)
  {
    var start := seed % TWO32;
    var hash := Rolled(h, rank, start, count, QueueSize(limit), obj);
    MixedIsMix(start, TreeEvents(Unfold(h, rank, obj), count, limit), hash);
    r := FinalMix(hash) % 0x4000_0000;
  }

  /** Look at the value at the read position. */
  method VisitNext(h: Heap, ghost rank: map<nat, nat>, queue: array<Value>, rd: nat, wr: nat, sz: int, num: int,
                   ghost start: nat, hash: nat, ghost done: seq<Event>, ghost all: seq<Event>)
    returns (wr': nat, num': int, hash': nat, ghost done': seq<Event>)
    requires rd < wr <= queue.Length && sz <= queue.Length && num > 0
    requires Traversed(h, rank, queue[rd..wr], wr, sz, num, done, all) && Mixed(start, done, hash)
    modifies queue
    ensures wr' == wr || wr < wr' <= sz
    ensures Traversed(h, rank, queue[rd + 1..wr'], wr', sz, num', done', all) == true
            && Mixed(start, done', hash') == true
  {
    var v := queue[rd];
    ghost var rest := queue[rd + 1..wr];
    assert queue[rd..wr] == [v] + rest;
    Dequeued(h, rank, v, rest);
    var w := SkipForward(h, rank, v);
    wr', num' := wr, num;
    if w.Ref? && h[w.a].Blk? {
      var fields, e := h[w.a].fields, HeaderEvent(h[w.a].tag, |h[w.a].fields|);
      BlockStep(h, rank, v, rest, w, fields, Room(sz, wr, |fields|), e, wr, sz, num, done, all);
      hash' := Absorb(start, done, hash, e);
      done' := done + [e];
      wr' := EnqueueRest(queue, rd + 1, wr, sz, fields);
    } else {
      ghost var t := Unfold(h, rank, w);
      done' := done + LeafEvents(t, num);
      LeafStep(h, rank, v, rest, w, wr, sz, num, done, all);
      hash', num' := HashLeaf(h, rank, w, start, done, hash, num);
    }
  }

  /** The loop over the queue. */
  method Rolled(h: Heap, ghost rank: map<nat, nat>, start: nat, count: int, sz: int, obj: Value) returns (hash: nat)
    requires Ranked(h, rank) && Good(h, rank, obj) && Data(h, rank, obj) && sz <= HASH_QUEUE_SIZE
    ensures Mixed(start, Visit([Unfold(h, rank, obj)], 1, sz, count), hash) == true
  {
    var num := count;
    hash := start;
    var queue := new Value[HASH_QUEUE_SIZE](_ => obj);
    var rd: nat, wr: nat := 0, 1;
    ghost var all := Visit([Unfold(h, rank, obj)], 1, sz, count);
    ghost var done: seq<Event> := [];
    NothingMixed(start);
    TraversalStarts(h, rank, obj, wr, sz, num);
    assert queue[rd..wr] == [obj];
    while rd < wr && num > 0
      invariant rd <= wr <= queue.Length
      invariant Traversed(h, rank, queue[rd..wr], wr, sz, num, done, all) && Mixed(start, done, hash)
      decreases wr - rd + (if wr >= sz then 0 else sz - wr)
    {
      wr, num, hash, done := VisitNext(h, rank, queue, rd, wr, sz, num, start, hash, done, all);
      rd := rd + 1;
    }
    TraversalEnds(h, rank, queue[rd..wr], wr, sz, num, done, all);
  }
}
