/**
 Marshalling at the level of tokens: the writer of byterun/extern.c walks a graph
 of blocks depth first and emits one token per value; the reader of
 byterun/intern.c rebuilds the graph from the tokens.  Both keep the values that
 are still to come as one list; the explicit stacks are in Extern.dfy and
 Intern.dfy.
 */
module MarshalGraph {
  import opened Mlvalues
  import opened MarshalCodec

  // ----- Memory -----

  /** An integer, an atom (a block without fields), a pointer to the block whose
      first field is at `a`, or a pointer outside the value area. */
  datatype Value = Long(n: int) | Atom(tag: byte) | Ref(a: nat) | Outside

  /** A word of a block: a value, eight bytes of data, the object number that the
      writer puts into field 0, or a word that is not initialized. */
  datatype Word = V(v: Value) | B(bytes: seq<byte>) | Count(n: nat) | Junk

  datatype Cell = Cell(color: Color, tag: byte, words: seq<Word>)

  type Mem = map<nat, Cell>

  function Bytes(w: Word): seq<byte> { if w.B? then w.bytes else [] }

  function Flat(words: seq<Word>): seq<byte> {
    if words == [] then [] else Bytes(words[0]) + Flat(words[1..])
  }

  function Words(s: seq<byte>): seq<Word> {
    if |s| < 8 then [] else [B(s[..8])] + Words(s[8..])
  }

  ghost predicate DataWords(words: seq<Word>) {
    forall i :: 0 <= i < |words| ==> words[i].B? && |words[i].bytes| == 8
  }

  lemma {:induction false} WordsFlat(words: seq<Word>)
    requires DataWords(words)
    ensures |Flat(words)| == 8 * |words| && Words(Flat(words)) == words
  {
    if words != [] {
      WordsFlat(words[1..]);
      var b, rest := words[0].bytes, Flat(words[1..]);
      assert (b + rest)[..8] == b && (b + rest)[8..] == rest;
    }
  }

  lemma {:induction false} FlatWords(s: seq<byte>)
    requires |s| % 8 == 0
    ensures DataWords(Words(s)) && 8 * |Words(s)| == |s| && Flat(Words(s)) == s
  {
    if |s| >= 8 {
      FlatWords(s[8..]);
      var w := Words(s);
      assert w[0] == B(s[..8]) && w[1..] == Words(s[8..]);
      forall i | 0 <= i < |w| ensures w[i].B? && |w[i].bytes| == 8 {
        assert i > 0 ==> w[i] == w[1..][i - 1];
      }
      assert Flat(w) == s[..8] + s[8..];
    } else {
      assert s == [];
    }
  }

  // ----- Strings -----

  /** The last byte says how many bytes before it are padding. */
  function StringBytes(s: seq<byte>): (r: seq<byte>)
    ensures |r| % 8 == 0
  {
    var size := (|s| + 8) / 8;
    var pad := 8 * size - 1 - |s|;
    s + seq(pad, _ => 0) + [pad]
  }

  function StringWords(s: seq<byte>): seq<Word> { Words(StringBytes(s)) }

  /** `caml_string_length`, or 0 if the padding makes no sense. */
  function StringLength(bytes: seq<byte>): (n: nat)
    ensures n <= |bytes|
  {
    if bytes == [] || bytes[|bytes| - 1] >= |bytes| then 0 else |bytes| - 1 - bytes[|bytes| - 1]
  }

  function Payload(words: seq<Word>): seq<byte> {
    Flat(words)[..StringLength(Flat(words))]
  }

  /** What was stored as a string has the length and the bytes of the string. */
  lemma StringPayload(s: seq<byte>)
    ensures DataWords(StringWords(s)) && |StringWords(s)| == (|s| + 8) / 8 && Payload(StringWords(s)) == s
  {
    FlatWords(StringBytes(s));
    var r := StringBytes(s);
    assert StringLength(r) == |s|;
    assert r[..|s|] == s;
  }

  // ----- Well-formed memory -----

  ghost predicate ValueOk(mem: Mem, v: Value) {
    && (v.Long? ==> TokenOk(TInt(v.n)))
    && (v.Ref? ==> v.a in mem)
  }

  ghost predicate FieldsOk(mem: Mem, words: seq<Word>) {
    forall j :: 0 <= j < |words| ==> words[j].V? && ValueOk(mem, words[j].v)
  }

  /** Blocks that are neither forwarding blocks nor seen as infix pointers. */
  ghost predicate CellOk(mem: Mem, c: Cell) {
    && c.color != Blue && 1 <= |c.words| < 0x40_0000_0000_0000
    && c.tag != FORWARD_TAG && c.tag != INFIX_TAG
    && (c.tag < NO_SCAN_TAG ==> FieldsOk(mem, c.words))
    && (c.tag == OBJECT_TAG ==> |c.words| >= 2)
    && (c.tag == STRING_TAG ==> DataWords(c.words) && c.words == StringWords(Payload(c.words)))
    && (c.tag == DOUBLE_TAG ==> DataWords(c.words) && |c.words| == 1)
    && (c.tag == DOUBLE_ARRAY_TAG ==> DataWords(c.words))
  }

  ghost predicate Sound(mem: Mem, a: nat) {
    a in mem ==> CellOk(mem, mem[a])
  }

  ghost predicate MemOk(mem: Mem) {
    forall a {:trigger Sound(mem, a)} :: Sound(mem, a)
  }

  // ----- The writer -----

  /** The objects written so far, in order, and the values still to be written. */
  datatype Writer = Writer(seen: seq<nat>, pending: seq<Value>)

  datatype Emission = Emits(t: Token, w: Writer) | Refuses

  ghost function IndexOf(s: seq<nat>, a: nat): (i: nat)
    requires a in s
    ensures i < |s| && s[i] == a
  {
    var i :| 0 <= i < |s| && s[i] == a;
    i
  }

  function Fields(words: seq<Word>): (f: seq<Value>)
    ensures |f| == |words|
  {
    seq(|words|, j requires 0 <= j < |words| => if words[j].V? then words[j].v else Outside)
  }

  /** What is written for an object that has not been met before. */
  function ObjectToken(c: Cell): Token {
    if c.tag == STRING_TAG then TString(Payload(c.words))
    else if c.tag == DOUBLE_TAG then TDouble(Flat(c.words))
    else if c.tag == DOUBLE_ARRAY_TAG then TDoubles(Flat(c.words))
    else TBlock(c.tag, |c.words|)
  }

  /** Abstract blocks, and custom blocks without a serializer. */
  predicate Refused(c: Cell) {
    c.tag == ABSTRACT_TAG || c.tag == CUSTOM_TAG
  }

  function Children(c: Cell): seq<Value> {
    if c.tag < NO_SCAN_TAG then Fields(c.words) else []
  }

  /** One iteration of the loop of `extern_rec_r`. */
  ghost function WriteStep(mem: Mem, w: Writer): Emission
    requires w.pending != []
  {
    var v, rest := w.pending[0], w.pending[1..];
    match v
    case Long(n) => Emits(TInt(n), w.(pending := rest))
    case Atom(tag) => Emits(TAtom(tag), w.(pending := rest))
    case Outside => Refuses
    case Ref(a) =>
      if a in w.seen then Emits(TShared(|w.seen| - IndexOf(w.seen, a)), w.(pending := rest))
      else if a !in mem || Refused(mem[a]) then Refuses
      else Emits(ObjectToken(mem[a]), Writer(w.seen + [a], Children(mem[a]) + rest))
  }

  datatype Output = Written(toks: seq<Token>, seen: seq<nat>) | Refusal

  ghost function Unseen(mem: Mem, seen: seq<nat>): set<nat> {
    set a | a in mem && a !in seen
  }

  function Prefixed(t: Token, out: Output): Output {
    match out
    case Written(toks, seen) => Written([t] + toks, seen)
    case Refusal => Refusal
  }

  /** All the tokens for the values that are pending. */
  ghost function WriteAll(mem: Mem, w: Writer): Output
    decreases Unseen(mem, w.seen), |w.pending|
  {
    if w.pending == [] then Written([], w.seen)
    else
      match WriteStep(mem, w)
      case Refuses => Refusal
      case Emits(t, w') =>
        assert w'.seen != w.seen ==> w.pending[0].a in Unseen(mem, w.seen) && w.pending[0].a !in Unseen(mem, w'.seen);
        Prefixed(t, WriteAll(mem, w'))
  }

  /** `size_64`: the words of the objects, headers included. */
  function SizeOf(mem: Mem, seen: seq<nat>): nat {
    if seen == [] then 0
    else
      var a := seen[|seen| - 1];
      SizeOf(mem, seen[..|seen| - 1]) + (if a in mem then 1 + |mem[a].words| else 0)
  }

  // ----- The reader -----

  /** A place that is to receive the next value, or an object to be numbered. */
  datatype Item = RootSlot | Slot(a: nat, j: nat) | FreshId(a: nat)

  /** `CamlinternalOO.last_id`, if it is registered. */
  datatype Oid = NoOid | LastOid(n: int)

  /** `dest` is the number of words used of the destination block. */
  datatype Reader = Reader(mem: Mem, table: seq<nat>, dest: nat, items: seq<Item>, root: Value, oid: Oid, color: Color)

  function SetWord(mem: Mem, a: nat, j: nat, w: Word): Mem {
    if a in mem && j < |mem[a].words| then mem[a := mem[a].(words := mem[a].words[j := w])] else mem
  }

  function Put(r: Reader, it: Item, v: Value): Reader {
    match it
    case RootSlot => r.(root := v)
    case Slot(a, j) => r.(mem := SetWord(r.mem, a, j, V(v)))
    case FreshId(_) => r
  }

  function Slots(a: nat, from: nat, to: nat): (s: seq<Item>)
    requires from <= to
    ensures |s| == to - from && forall k :: 0 <= k < |s| ==> s[k] == Slot(a, from + k)
  {
    seq(to - from, k requires 0 <= k < to - from => Slot(a, from + k))
  }

  /** What is to be read for a new block: for an object, its number is refreshed
      once its first two fields have been read. */
  function BlockItems(a: nat, tag: byte, size: nat): seq<Item> {
    if tag == OBJECT_TAG && size >= 2 then Slots(a, 0, 2) + [FreshId(a)] + Slots(a, 2, size) else Slots(a, 0, size)
  }

  function JunkWords(size: nat): (s: seq<Word>)
    ensures |s| == size
  {
    seq(size, _ => Junk)
  }

  function NewCell(r: Reader, tag: byte, words: seq<Word>, items: seq<Item>): Reader {
    var a := r.dest + 1;
    r.(mem := r.mem[a := Cell(r.color, tag, words)], table := r.table + [a], dest := r.dest + 1 + |words|, items :=
      items + r.items)
  }

  datatype Reading = Reads(r: Reader) | BadShare

  /** Read one token for the first item. */
  function ReadStep(r: Reader, t: Token): Reading
    requires r.items != []
  {
    var it, r1, a := r.items[0], r.(items := r.items[1..]), r.dest + 1;
    match t
    case TInt(n) => Reads(Put(r1, it, Long(n)))
    case TAtom(tag) => Reads(Put(r1, it, Atom(tag)))
    case TShared(d) => if 1 <= d <= |r.table| then Reads(Put(r1, it, Ref(r.table[|r.table| - d]))) else BadShare
    case TString(s) => Reads(Put(NewCell(r1, STRING_TAG, StringWords(s), []), it, Ref(a)))
    case TDouble(s) => Reads(Put(NewCell(r1, DOUBLE_TAG, Words(s), []), it, Ref(a)))
    case TDoubles(s) => Reads(Put(NewCell(r1, DOUBLE_ARRAY_TAG, Words(s), []), it, Ref(a)))
    case TBlock(tag, size) => Reads(Put(NewCell(r1, tag, JunkWords(size), BlockItems(a, tag, size)), it, Ref(a)))
  }

  /** `OFreshOID`. */
  function Refresh(r: Reader): Reader
    requires r.items != [] && r.items[0].FreshId?
  {
    var r1 := r.(items := r.items[1..]);
    match r.oid
    case NoOid => r1
    case LastOid(n) => r1.(mem := SetWord(r.mem, r.items[0].a, 1, V(Long(n))), oid := LastOid(n + 1))
  }

  datatype Input = Rebuilt(r: Reader, left: seq<Token>) | Stuck

  /** `intern_rec_r` on a stream of tokens. */
  function ReadAll(toks: seq<Token>, r: Reader): Input
    decreases |toks|, |r.items|
  {
    if r.items == [] then Rebuilt(r, toks)
    else if r.items[0].FreshId? then ReadAll(toks, Refresh(r))
    else if toks == [] then Stuck
    else
      match ReadStep(r, toks[0])
      case BadShare => Stuck
      case Reads(r') => ReadAll(toks[1..], r')
  }

  function InitReader(oid: Oid, color: Color): Reader {
    Reader(map[], [], 0, [RootSlot], Long(0), oid, color)
  }
}
