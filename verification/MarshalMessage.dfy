/**
 Whole messages: the five header words and the bytes of the tokens, as
 `extern_value_r` writes them and `caml_input_value_from_block_r` reads them.
 */
module MarshalMessage {
  import opened Mlvalues
  import opened MarshalCodec
  import opened MarshalGraph
  import opened MarshalRoundTrip

  const MAGIC := 0x8495A6BE

  /** The size of a header word, in bytes. */
  const WORD: nat := 4

  /** What the object would take on a 32-bit machine. */
  function CellSize32(c: Cell): nat {
    if c.tag == STRING_TAG then 1 + (|Payload(c.words)| + 4) / 4
    else if c.tag == DOUBLE_TAG then 3
    else if c.tag == DOUBLE_ARRAY_TAG then 1 + 2 * |c.words|
    else 1 + |c.words|
  }

  function Size32(mem: Mem, seen: seq<nat>): nat {
    if seen == [] then 0
    else
      var a := seen[|seen| - 1];
      Size32(mem, seen[..|seen| - 1]) + (if a in mem then CellSize32(mem[a]) else 0)
  }

  function Header(len: nat, objects: nat, size32: nat, size64: nat): (s: seq<byte>)
    ensures |s| == 20
  {
    BigEndian(MAGIC, WORD) + BigEndian(len, WORD) + BigEndian(objects, WORD) + BigEndian(size32, WORD)
      + BigEndian(size64, WORD)
  }

  datatype Marshalled = Message(bytes: seq<byte>, seen: seq<nat>) | NotMarshallable | TooBig

  function Message32(body: seq<byte>, seen: seq<nat>, size32: nat, size64: nat): Marshalled {
    if 20 + |body| >= 0x1_0000_0000 || size32 >= 0x1_0000_0000 || size64 >= 0x1_0000_0000 then TooBig
    else Message(Header(|body|, |seen|, size32, size64) + body, seen)
  }

  ghost function Marshal(mem: Mem, v: Value): Marshalled {
    match WriteAll(mem, Writer([], [v]))
    case Refusal => NotMarshallable
    case Written(toks, seen) => Message32(EncodeAll(toks), seen, Size32(mem, seen), SizeOf(mem, seen))
  }

  datatype Load = Loaded(r: Reader, left: seq<byte>) | Unreadable

  /** `intern_rec_r` on bytes. */
  function ReadBytes(s: seq<byte>, r: Reader): Load
    decreases |s|, |r.items|
  {
    if r.items == [] then Loaded(r, s)
    else if r.items[0].FreshId? then ReadBytes(s, Refresh(r))
    else
      match Decode(s)
      case Got(t, len) =>
        (match ReadStep(r, t)
         case BadShare => Unreadable
         case Reads(r') => ReadBytes(s[len..], r'))
      case _ => Unreadable
  }

  /** The rebuilt value, and the header words that its space was allocated by. */
  datatype Unmarshalled = Result(r: Reader, objects: nat, size: nat) | BadObject | BadLength | BadData

  function Word32(s: seq<byte>, k: nat): nat
    requires 4 * k + 4 <= |s|
  {
    Unsigned(s[4 * k..4 * k + 4])
  }

  function Unmarshal(s: seq<byte>, oid: Oid, color: Color): Unmarshalled
    requires |s| >= 20
  {
    if Word32(s, 0) != MAGIC then BadObject
    else if 20 + Word32(s, 1) > |s| then BadLength
    else
      match ReadBytes(s[20..], InitReader(oid, color))
      case Unreadable => BadData
      case Loaded(r, _) => Result(r, Word32(s, 2), Word32(s, 4))
  }

  // ----- Bytes and tokens -----

  lemma {:induction false} BytesAreTokens(toks: seq<Token>, rest: seq<byte>, r: Reader)
    requires ReadAll(toks, r).Rebuilt? && forall k :: 0 <= k < |toks| ==> TokenOk(toks[k])
    ensures ReadBytes(EncodeAll(toks) + rest, r) == Loaded(ReadAll(toks, r).r, EncodeAll(ReadAll(toks, r).left) + rest)
    decreases |toks|, |r.items|
  {
    if r.items == [] {
    } else if r.items[0].FreshId? {
      BytesAreTokens(toks, rest, Refresh(r));
    } else {
      var t, s := toks[0], EncodeAll(toks) + rest;
      ThreeParts(Encode(t), EncodeAll(toks[1..]), rest);
      TokenRoundTrip(t, EncodeAll(toks[1..]) + rest);
      assert s[|Encode(t)|..] == EncodeAll(toks[1..]) + rest;
      BytesAreTokens(toks[1..], rest, ReadStep(r, t).r);
    }
  }

  lemma {:induction false} SizeGrows(mem: Mem, w: Writer)
    requires WriteAll(mem, w).Written? && forall a :: a in w.seen ==> a in mem
    ensures var seen := WriteAll(mem, w).seen; |w.seen| <= |seen| && forall a :: a in seen ==> a in mem
    decreases Unseen(mem, w.seen), |w.pending|
  {
    if w.pending != [] {
      var e := WriteStep(mem, w);
      assert e.w.seen != w.seen ==> w.pending[0].a in Unseen(mem, w.seen) && w.pending[0].a !in Unseen(mem, e.w.seen);
      SizeGrows(mem, e.w);
    }
  }

  lemma {:induction false} SizeAtLeast(mem: Mem, seen: seq<nat>)
    requires forall a :: a in seen ==> a in mem
    ensures |seen| <= SizeOf(mem, seen)
  {
    if seen != [] {
      SizeAtLeast(mem, seen[..|seen| - 1]);
    }
  }

  ghost predicate PendingOk(mem: Mem, w: Writer) {
    forall k :: 0 <= k < |w.pending| ==> ValueOk(mem, w.pending[k])
  }

  lemma StepPendingOk(mem: Mem, w: Writer)
    requires MemOk(mem) && PendingOk(mem, w) && w.pending != [] && WriteStep(mem, w).Emits?
    ensures PendingOk(mem, WriteStep(mem, w).w)
  {
    var v, w' := w.pending[0], WriteStep(mem, w).w;
    if v.Ref? && v.a !in w.seen {
      var c := mem[v.a];
      assert Sound(mem, v.a);
      forall k | 0 <= k < |w'.pending| ensures ValueOk(mem, w'.pending[k]) {
        if k < |Children(c)| {
          assert w'.pending[k] == c.words[k].v;
        } else {
          assert w'.pending[k] == w.pending[1..][k - |Children(c)|];
        }
      }
    }
  }

  /** A token that was written for a message that is not too big is readable. */
  lemma StepTokenOk(mem: Mem, w: Writer)
    requires MemOk(mem) && PendingOk(mem, w) && w.pending != [] && WriteStep(mem, w).Emits?
    requires |w.seen| < 0x1_0000_0000 && |Encode(WriteStep(mem, w).t)| < 0x1_0000_0000
    ensures TokenOk(WriteStep(mem, w).t)
  {
    var v := w.pending[0];
    assert ValueOk(mem, v);
    if v.Ref? && v.a !in w.seen {
      assert Sound(mem, v.a);
      if mem[v.a].tag == DOUBLE_TAG || mem[v.a].tag == DOUBLE_ARRAY_TAG {
        WordsFlat(mem[v.a].words);
      }
    }
  }

  lemma {:induction false} TokensOk(mem: Mem, w: Writer)
    requires MemOk(mem) && PendingOk(mem, w) && WriteAll(mem, w).Written? && forall a :: a in w.seen ==> a in mem
    requires |EncodeAll(WriteAll(mem, w).toks)| < 0x1_0000_0000 && SizeOf(mem, WriteAll(mem, w).seen) < 0x1_0000_0000
    ensures forall k :: 0 <= k < |WriteAll(mem, w).toks| ==> TokenOk(WriteAll(mem, w).toks[k])
    decreases Unseen(mem, w.seen), |w.pending|
  {
    if w.pending != [] {
      var e, out := WriteStep(mem, w), WriteAll(mem, w);
      assert e.w.seen != w.seen ==> w.pending[0].a in Unseen(mem, w.seen) && w.pending[0].a !in Unseen(mem, e.w.seen);
      SizeGrows(mem, w);
      SizeAtLeast(mem, out.seen);
      assert out.toks[0] == e.t && out.toks[1..] == WriteAll(mem, e.w).toks;
      StepPendingOk(mem, w);
      StepTokenOk(mem, w);
      TokensOk(mem, e.w);
    }
  }

  lemma FiveWords(a: seq<byte>, b: seq<byte>, c: seq<byte>, d: seq<byte>, e: seq<byte>, body: seq<byte>)
    requires |a| == 4 && |b| == 4 && |c| == 4 && |d| == 4 && |e| == 4
    ensures var s := a + b + c + d + e + body;
            s[0..4] == a && s[4..8] == b && s[8..12] == c && s[16..20] == e && s[20..] == body
  {
  }

  lemma FourBytes(n: nat)
    requires n < 0x1_0000_0000
    ensures Unsigned(BigEndian(n, WORD)) == n
  {
    Pows();
    UnsignedRoundTrip(n, WORD);
  }

  lemma HeaderWords(len: nat, objects: nat, size32: nat, size64: nat, body: seq<byte>)
    requires len < 0x1_0000_0000 && objects < 0x1_0000_0000 && size64 < 0x1_0000_0000
    ensures var s := Header(len, objects, size32, size64) + body;
            && Word32(s, 0) == MAGIC && Word32(s, 1) == len && Word32(s, 2) == objects && Word32(s, 4) == size64
            && s[20..] == body
  {
    FiveWords(BigEndian(MAGIC, WORD), BigEndian(len, WORD), BigEndian(objects, WORD), BigEndian(size32, WORD),
      BigEndian(size64, WORD), body);
    FourBytes(MAGIC);
    FourBytes(len);
    FourBytes(objects);
    FourBytes(size64);
  }

  /** The marshal round trip: reading a message gives a graph isomorphic to the one
      that was written; the object table and the destination block that were
      allocated by the header are filled exactly. */
  lemma RoundTrip(mem: Mem, v: Value, oid: Oid, color: Color)
    requires MemOk(mem) && ValueOk(mem, v) && Marshal(mem, v).Message?
    ensures var m := Marshal(mem, v);
            var u := Unmarshal(m.bytes, oid, color);
            && u.Result? && Isomorphic(mem, v, m.seen, u.r)
            && u.objects == |u.r.table| && u.size == u.r.dest
  {
    var w := Writer([], [v]);
    var out := WriteAll(mem, w);
    var body := EncodeAll(out.toks);
    TokensRoundTrip(mem, v, oid, color);
    TokensOk(mem, w);
    BytesAreTokens(out.toks, [], InitReader(oid, color));
    assert body + [] == body;
    SizeGrows(mem, w);
    SizeAtLeast(mem, out.seen);
    HeaderWords(|body|, |out.seen|, Size32(mem, out.seen), SizeOf(mem, out.seen), body);
  }

  // ----- What is written is what is reachable -----

  ghost predicate PointsTo(mem: Mem, a: nat, b: nat) {
    a in mem && Ref(b) in Children(mem[a])
  }

  ghost predicate Path(mem: Mem, p: seq<nat>) {
    |p| > 0 && forall k :: 0 <= k < |p| - 1 ==> PointsTo(mem, p[k], p[k + 1])
  }

  ghost predicate Reachable(mem: Mem, v: Value, a: nat) {
    v.Ref? && exists p :: Path(mem, p) && p[0] == v.a && p[|p| - 1] == a
  }

  /** Everything listed is reachable, and what it points to is listed or pending. */
  ghost predicate Frontier(mem: Mem, v: Value, w: Writer) {
    && (forall a :: a in w.seen ==> Reachable(mem, v, a))
    && (forall b {:trigger Ref(b)} :: Ref(b) in w.pending ==> Reachable(mem, v, b))
    && (forall a, b {:trigger PointsTo(mem, a, b)} :: a in w.seen && PointsTo(mem, a, b) ==>
        || b in w.seen
        || Ref(b) in w.pending)
    && (v.Ref? ==> v.a in w.seen || v in w.pending)
  }

  lemma ReachOn(mem: Mem, v: Value, a: nat, b: nat)
    requires Reachable(mem, v, a) && PointsTo(mem, a, b)
    ensures Reachable(mem, v, b)
  {
    var p :| Path(mem, p) && p[0] == v.a && p[|p| - 1] == a;
    var q := p + [b];
    forall k | 0 <= k < |q| - 1 ensures PointsTo(mem, q[k], q[k + 1]) {
      assert k < |p| - 1 ==> PointsTo(mem, p[k], p[k + 1]);
    }
    assert Path(mem, q);
  }

  lemma StepFrontier(mem: Mem, v: Value, w: Writer)
    requires Frontier(mem, v, w) && w.pending != [] && WriteStep(mem, w).Emits?
    ensures Frontier(mem, v, WriteStep(mem, w).w)
  {
    var x, w' := w.pending[0], WriteStep(mem, w).w;
    assert w.pending == [x] + w.pending[1..];
    if x.Ref? && x.a !in w.seen {
      forall b | Ref(b) in w'.pending ensures Reachable(mem, v, b) {
        if Ref(b) in Children(mem[x.a]) {
          assert PointsTo(mem, x.a, b);
          ReachOn(mem, v, x.a, b);
        }
      }
    }
  }

  lemma {:induction false} WriteAllFrontier(mem: Mem, v: Value, w: Writer)
    requires Frontier(mem, v, w) && WriteAll(mem, w).Written?
    ensures Frontier(mem, v, Writer(WriteAll(mem, w).seen, []))
    decreases Unseen(mem, w.seen), |w.pending|
  {
    if w.pending != [] {
      var e := WriteStep(mem, w);
      assert e.w.seen != w.seen ==> w.pending[0].a in Unseen(mem, w.seen) && w.pending[0].a !in Unseen(mem, e.w.seen);
      StepFrontier(mem, v, w);
      WriteAllFrontier(mem, v, e.w);
    }
  }

  lemma {:induction false} PathIsSeen(mem: Mem, v: Value, seen: seq<nat>, p: seq<nat>)
    requires Frontier(mem, v, Writer(seen, [])) && v.Ref? && Path(mem, p) && p[0] == v.a
    ensures p[|p| - 1] in seen
  {
    if |p| > 1 {
      var q := p[..|p| - 1];
      assert Path(mem, q) by {
        forall k | 0 <= k < |q| - 1 ensures PointsTo(mem, q[k], q[k + 1]) {
          assert PointsTo(mem, p[k], p[k + 1]);
        }
      }
      PathIsSeen(mem, v, seen, q);
      assert PointsTo(mem, p[|p| - 2], p[|p| - 1]);
    }
  }

  /** The objects of a message are exactly the reachable ones. */
  lemma MessageIsReachable(mem: Mem, v: Value, a: nat)
    requires Marshal(mem, v).Message?
    ensures a in Marshal(mem, v).seen <==> Reachable(mem, v, a)
  {
    var w := Writer([], [v]);
    assert v.Ref? ==> Path(mem, [v.a]);
    WriteAllFrontier(mem, v, w);
    var seen := WriteAll(mem, w).seen;
    if Reachable(mem, v, a) {
      var p :| Path(mem, p) && p[0] == v.a && p[|p| - 1] == a;
      PathIsSeen(mem, v, seen, p);
    }
  }

  /** Every finite graph without abstract parts has its tokens: the writer only
      refuses when such a part is reachable. */
  lemma {:induction false} RefusalIsReachable(mem: Mem, v: Value, w: Writer)
    requires Frontier(mem, v, w) && WriteAll(mem, w).Refusal?
    requires forall a :: Reachable(mem, v, a) ==> a in mem && Outside !in Children(mem[a])
    requires Outside !in w.pending
    ensures exists a :: Reachable(mem, v, a) && Refused(mem[a])
    decreases Unseen(mem, w.seen), |w.pending|
  {
    var x, e := w.pending[0], WriteStep(mem, w);
    if e.Emits? {
      assert e.w.seen != w.seen ==> w.pending[0].a in Unseen(mem, w.seen) && w.pending[0].a !in Unseen(mem, e.w.seen);
      StepFrontier(mem, v, w);
      RefusalIsReachable(mem, v, e.w);
    } else {
      assert x.Ref? && Reachable(mem, v, x.a);
    }
  }
}
