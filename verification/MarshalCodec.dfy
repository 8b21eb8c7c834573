/**
 The compact format of marshalled data (byterun/intext.h): one token per value,
 written by byterun/extern.c and read back by byterun/intern.c, on a 64-bit
 little-endian machine.
 */
module MarshalCodec {
  import opened Mlvalues

  const PREFIX_SMALL_BLOCK := 0x80
  const PREFIX_SMALL_INT := 0x40
  const PREFIX_SMALL_STRING := 0x20
  const CODE_INT8 := 0x0
  const CODE_INT16 := 0x1
  const CODE_INT32 := 0x2
  const CODE_INT64 := 0x3
  const CODE_SHARED8 := 0x4
  const CODE_SHARED16 := 0x5
  const CODE_SHARED32 := 0x6
  const CODE_DOUBLE_ARRAY32 := 0x7
  const CODE_BLOCK32 := 0x8
  const CODE_STRING8 := 0x9
  const CODE_STRING32 := 0xA
  const CODE_DOUBLE := 0xC
  const CODE_DOUBLE_ARRAY8 := 0xE
  const CODE_BLOCK64 := 0x13

  // ----- Big-endian numbers -----

  function Pow256(k: nat): (p: nat)
    ensures p > 0
  {
    if k == 0 then 1 else 256 * Pow256(k - 1)
  }

  /** The `k` low bytes of `n`. */
  function BigEndian(n: int, k: nat): (s: seq<byte>)
    ensures |s| == k
    decreases k
  {
    if k == 0 then [] else BigEndian(n / 256, k - 1) + [n % 256]
  }

  function Unsigned(s: seq<byte>): nat {
    if s == [] then 0 else 256 * Unsigned(s[..|s| - 1]) + s[|s| - 1]
  }

  /** The leading byte is sign-extended. */
  function Signed(s: seq<byte>): int {
    if s == [] then 0
    else if |s| == 1 then (if s[0] >= 128 then s[0] - 256 else s[0])
    else 256 * Signed(s[..|s| - 1]) + s[|s| - 1]
  }

  lemma {:induction false} UnsignedRoundTrip(n: nat, k: nat)
    requires n < Pow256(k)
    ensures Unsigned(BigEndian(n, k)) == n
  {
    if k > 0 {
      UnsignedRoundTrip(n / 256, k - 1);
      assert BigEndian(n, k)[..k - 1] == BigEndian(n / 256, k - 1);
    }
  }

  lemma {:induction false} SignedRoundTrip(n: int, k: nat)
    requires k > 0 && -(Pow256(k) / 2) <= n < Pow256(k) / 2
    ensures Signed(BigEndian(n, k)) == n
    decreases k
  {
    if k > 1 {
      HalfPow(k);
      SignedRoundTrip(n / 256, k - 1);
      assert BigEndian(n, k)[..k - 1] == BigEndian(n / 256, k - 1);
    }
  }

  lemma HalfPow(k: nat)
    requires k > 1
    ensures Pow256(k) / 2 == 256 * (Pow256(k - 1) / 2)
  {
    assert Pow256(k - 1) == 256 * Pow256(k - 2);
  }

  lemma Pows()
    ensures Pow256(1) == 0x100 && Pow256(2) == 0x1_0000 && Pow256(4) == 0x1_0000_0000
    ensures Pow256(8) == 0x1_0000_0000_0000_0000
  {
    assert Pow256(3) == 256 * Pow256(2) && Pow256(5) == 256 * Pow256(4);
    assert Pow256(6) == 256 * Pow256(5) && Pow256(7) == 256 * Pow256(6);
  }

  // ----- Tokens -----

  /** What is written for one value: an integer, an atom, a reference back to the
      `d`-th last object, a string, a float, an array of floats, or the header of a
      block whose fields follow. */
  datatype Token =
    | TInt(n: int)
    | TAtom(tag: byte)
    | TShared(d: nat)
    | TString(s: seq<byte>)
    | TDouble(s: seq<byte>)
    | TDoubles(s: seq<byte>)
    | TBlock(tag: byte, size: nat)

  /** Tokens that fit their fields: `output_value: object too big` is raised for
      longer data. */
  predicate TokenOk(t: Token) {
    match t
    case TInt(n) => -0x4000_0000_0000_0000 <= n < 0x4000_0000_0000_0000
    case TAtom(_) => true
    case TShared(d) => 1 <= d < 0x1_0000_0000
    case TString(s) => |s| < 0x1_0000_0000
    case TDouble(s) => |s| == 8
    case TDoubles(s) => |s| % 8 == 0 && |s| / 8 < 0x1_0000_0000
    case TBlock(_, size) => 1 <= size < 0x40_0000_0000_0000
  }

  /** `hd`: the header of a white block. */
  function HeaderWord(tag: byte, size: nat): nat { 1024 * size + tag }

  function Encode(t: Token): (s: seq<byte>)
    ensures |s| > 0
  {
    match t
    case TInt(n) =>
      if 0 <= n < 0x40 then [PREFIX_SMALL_INT + n]
      else if -0x80 <= n < 0x80 then [CODE_INT8] + BigEndian(n, 1)
      else if -0x8000 <= n < 0x8000 then [CODE_INT16] + BigEndian(n, 2)
      else if n < -0x8000_0000 || n >= 0x8000_0000 then [CODE_INT64] + BigEndian(n, 8)
      else [CODE_INT32] + BigEndian(n, 4)
    case TAtom(tag) =>
      if tag < 16 then [PREFIX_SMALL_BLOCK + tag] else [CODE_BLOCK32] + BigEndian(HeaderWord(tag, 0), 4)
    case TShared(d) =>
      if d < 0x100 then [CODE_SHARED8] + BigEndian(d, 1)
      else if d < 0x1_0000 then [CODE_SHARED16] + BigEndian(d, 2)
      else [CODE_SHARED32] + BigEndian(d, 4)
    case TString(s) =>
      (if |s| < 0x20 then [PREFIX_SMALL_STRING + |s|]
       else if |s| < 0x100 then [CODE_STRING8] + BigEndian(|s|, 1)
       else [CODE_STRING32] + BigEndian(|s|, 4)) + s
    case TDouble(s) => [CODE_DOUBLE] + s
    case TDoubles(s) =>
      (if |s| / 8 < 0x100 then [CODE_DOUBLE_ARRAY8] + BigEndian(|s| / 8, 1)
       else [CODE_DOUBLE_ARRAY32] + BigEndian(|s| / 8, 4)) + s
    case TBlock(tag, size) =>
      if tag < 16 && size < 8 then [PREFIX_SMALL_BLOCK + tag + 16 * size]
      else if HeaderWord(tag, size) >= 0x1_0000_0000 then [CODE_BLOCK64] + BigEndian(HeaderWord(tag, size), 8)
      else [CODE_BLOCK32] + BigEndian(HeaderWord(tag, size), 4)
  }

  /** A token and the number of bytes it took; or what is wrong.  `Foreign` stands
      for the codes of code pointers, infix pointers, custom blocks and big-endian
      floats. */
  datatype Parse = Got(t: Token, len: nat) | Truncated | IllFormed | Foreign

  function BlockToken(hd: nat): Token {
    if hd / 1024 == 0 then TAtom(hd % 256) else TBlock(hd % 256, hd / 1024)
  }

  /** `n` bytes of data after a prefix of `k` bytes. */
  function Data(s: seq<byte>, k: nat, n: nat, f: seq<byte> -> Token): Parse {
    if |s| < k + n then Truncated else Got(f(s[k..k + n]), k + n)
  }

  function Decode(s: seq<byte>): (p: Parse)
    ensures p.Got? ==> 0 < p.len <= |s|
  {
    if s == [] then Truncated
    else
      var code := s[0];
      if code >= PREFIX_SMALL_BLOCK then
        var tag, size := code % 16, (code / 16) % 8;
        Got(if size == 0 then TAtom(tag) else TBlock(tag, size), 1)
      else if code >= PREFIX_SMALL_INT then Got(TInt(code % 64), 1)
      else if code >= PREFIX_SMALL_STRING then Data(s, 1, code % 32, b => TString(b))
      else if code == CODE_INT8 then Data(s, 1, 1, b => TInt(Signed(b)))
      else if code == CODE_INT16 then Data(s, 1, 2, b => TInt(Signed(b)))
      else if code == CODE_INT32 then Data(s, 1, 4, b => TInt(Signed(b)))
      else if code == CODE_INT64 then Data(s, 1, 8, b => TInt(Signed(b)))
      else if code == CODE_SHARED8 then Data(s, 1, 1, b => TShared(Unsigned(b)))
      else if code == CODE_SHARED16 then Data(s, 1, 2, b => TShared(Unsigned(b)))
      else if code == CODE_SHARED32 then Data(s, 1, 4, b => TShared(Unsigned(b)))
      else if code == CODE_BLOCK32 then Data(s, 1, 4, b => BlockToken(Unsigned(b)))
      else if code == CODE_BLOCK64 then Data(s, 1, 8, b => BlockToken(Unsigned(b)))
      else if code == CODE_STRING8 then Counted(s, 1, 1, b => TString(b))
      else if code == CODE_STRING32 then Counted(s, 4, 1, b => TString(b))
      else if code == CODE_DOUBLE then Data(s, 1, 8, b => TDouble(b))
      else if code == CODE_DOUBLE_ARRAY8 then Counted(s, 1, 8, b => TDoubles(b))
      else if code == CODE_DOUBLE_ARRAY32 then Counted(s, 4, 8, b => TDoubles(b))
      else if code in {0xB, 0xD, 0xF, 0x10, 0x11, 0x12} then Foreign
      else IllFormed
  }

  /** Data whose length, in units of `unit` bytes, stands in the `k` bytes before it. */
  function Counted(s: seq<byte>, k: nat, unit: nat, f: seq<byte> -> Token): Parse {
    if |s| < 1 + k then Truncated else Data(s, 1 + k, unit * Unsigned(s[1..1 + k]), f)
  }

  lemma DataAt(s: seq<byte>, prefix: seq<byte>, data: seq<byte>, rest: seq<byte>, f: seq<byte> -> Token)
    requires s == prefix + data + rest
    ensures Data(s, |prefix|, |data|, f) == Got(f(data), |prefix| + |data|)
  {
    assert s[|prefix|..|prefix| + |data|] == data;
  }

  lemma CountedAt(s: seq<byte>, code: byte, k: nat, unit: nat, data: seq<byte>, rest: seq<byte>, f: seq<byte> -> Token)
    requires (unit == 1 || unit == 8) && |data| % unit == 0 && |data| / unit < Pow256(k)
    requires s == [code] + BigEndian(|data| / unit, k) + data + rest
    ensures Counted(s, k, unit, f) == Got(f(data), 1 + k + |data|)
  {
    var n := |data| / unit;
    UnsignedRoundTrip(n, k);
    assert s[1..1 + k] == BigEndian(n, k);
    assert unit * n == |data|;
    DataAt(s, [code] + BigEndian(n, k), data, rest, f);
  }

  lemma FixedAt(s: seq<byte>, code: byte, n: int, k: nat, rest: seq<byte>, f: seq<byte> -> Token)
    requires s == [code] + BigEndian(n, k) + rest
    ensures Data(s, 1, k, f) == Got(f(BigEndian(n, k)), 1 + k)
  {
    DataAt(s, [code], BigEndian(n, k), rest, f);
  }

  lemma IntRoundTrip(n: int, rest: seq<byte>)
    requires TokenOk(TInt(n))
    ensures Decode(Encode(TInt(n)) + rest) == Got(TInt(n), |Encode(TInt(n))|)
  {
    Pows();
    var s := Encode(TInt(n)) + rest;
    if 0 <= n < 0x40 {
      assert s[0] == PREFIX_SMALL_INT + n;
    } else {
      var k := |Encode(TInt(n))| - 1;
      assert s == [s[0]] + BigEndian(n, k) + rest;
      FixedAt(s, s[0], n, k, rest, b => TInt(Signed(b)));
      SignedRoundTrip(n, k);
    }
  }

  lemma SharedRoundTrip(d: nat, rest: seq<byte>)
    requires TokenOk(TShared(d))
    ensures Decode(Encode(TShared(d)) + rest) == Got(TShared(d), |Encode(TShared(d))|)
  {
    Pows();
    var s, k := Encode(TShared(d)) + rest, |Encode(TShared(d))| - 1;
    assert s == [s[0]] + BigEndian(d, k) + rest;
    FixedAt(s, s[0], d, k, rest, b => TShared(Unsigned(b)));
    UnsignedRoundTrip(d, k);
  }

  lemma SizeAndTag(size: nat, tag: int)
    requires 0 <= tag < 256
    ensures (1024 * size + tag) / 1024 == size && (1024 * size + tag) % 256 == tag
  {
  }

  lemma HeaderParts(tag: byte, size: nat)
    ensures BlockToken(HeaderWord(tag, size)) == if size == 0 then TAtom(tag) else TBlock(tag, size)
  {
    SizeAndTag(size, tag);
  }

  lemma HeaderRoundTrip(tag: byte, size: nat, code: byte, k: nat, rest: seq<byte>)
    requires HeaderWord(tag, size) < Pow256(k)
    requires (code == CODE_BLOCK32 && k == 4) || (code == CODE_BLOCK64 && k == 8)
    ensures Decode([code] + BigEndian(HeaderWord(tag, size), k) + rest)
            == Got(if size == 0 then TAtom(tag) else TBlock(tag, size), 1 + k)
  {
    var hd := HeaderWord(tag, size);
    var s := [code] + BigEndian(hd, k) + rest;
    FixedAt(s, code, hd, k, rest, b => BlockToken(Unsigned(b)));
    UnsignedRoundTrip(hd, k);
    HeaderParts(tag, size);
  }

  lemma SmallBlock(tag: byte, size: nat, rest: seq<byte>)
    requires tag < 16 && 1 <= size < 8
    ensures Decode([PREFIX_SMALL_BLOCK + tag + 16 * size] + rest) == Got(TBlock(tag, size), 1)
  {
    var code := PREFIX_SMALL_BLOCK + tag + 16 * size;
    assert code == 16 * (8 + size) + tag;
    assert ([code] + rest)[0] == code;
  }

  lemma BlockRoundTrip(tag: byte, size: nat, rest: seq<byte>)
    requires TokenOk(TBlock(tag, size))
    ensures Decode(Encode(TBlock(tag, size)) + rest) == Got(TBlock(tag, size), |Encode(TBlock(tag, size))|)
  {
    Pows();
    var hd := HeaderWord(tag, size);
    if tag < 16 && size < 8 {
      SmallBlock(tag, size, rest);
    } else if hd >= 0x1_0000_0000 {
      HeaderRoundTrip(tag, size, CODE_BLOCK64, 8, rest);
    } else {
      HeaderRoundTrip(tag, size, CODE_BLOCK32, 4, rest);
    }
  }

  lemma AtomRoundTrip(tag: byte, rest: seq<byte>)
    ensures Decode(Encode(TAtom(tag)) + rest) == Got(TAtom(tag), |Encode(TAtom(tag))|)
  {
    Pows();
    if tag >= 16 {
      HeaderRoundTrip(tag, 0, CODE_BLOCK32, 4, rest);
    }
  }

  lemma StringRoundTrip(data: seq<byte>, rest: seq<byte>)
    requires TokenOk(TString(data))
    ensures Decode(Encode(TString(data)) + rest) == Got(TString(data), |Encode(TString(data))|)
  {
    Pows();
    var s, f := Encode(TString(data)) + rest, (b: seq<byte>) => TString(b);
    if |data| < 0x20 {
      DataAt(s, [PREFIX_SMALL_STRING + |data|], data, rest, f);
    } else if |data| < 0x100 {
      CountedAt(s, CODE_STRING8, 1, 1, data, rest, f);
    } else {
      CountedAt(s, CODE_STRING32, 4, 1, data, rest, f);
    }
  }

  lemma DoublesRoundTrip(data: seq<byte>, rest: seq<byte>)
    requires TokenOk(TDoubles(data))
    ensures Decode(Encode(TDoubles(data)) + rest) == Got(TDoubles(data), |Encode(TDoubles(data))|)
  {
    Pows();
    var s, f := Encode(TDoubles(data)) + rest, (b: seq<byte>) => TDoubles(b);
    if |data| / 8 < 0x100 {
      CountedAt(s, CODE_DOUBLE_ARRAY8, 1, 8, data, rest, f);
    } else {
      CountedAt(s, CODE_DOUBLE_ARRAY32, 4, 8, data, rest, f);
    }
  }

  /** Every token is read back as it was written, whatever follows it. */
  lemma TokenRoundTrip(t: Token, rest: seq<byte>)
    requires TokenOk(t)
    ensures Decode(Encode(t) + rest) == Got(t, |Encode(t)|)
  {
    match t
    case TInt(n) => IntRoundTrip(n, rest);
    case TShared(d) => SharedRoundTrip(d, rest);
    case TString(data) => StringRoundTrip(data, rest);
    case TDoubles(data) => DoublesRoundTrip(data, rest);
    case TDouble(data) => DataAt(Encode(t) + rest, [CODE_DOUBLE], data, rest, b => TDouble(b));
    case TAtom(tag) => AtomRoundTrip(tag, rest);
    case TBlock(tag, size) => BlockRoundTrip(tag, size, rest);
  }

  // ----- Streams of tokens -----

  function EncodeAll(toks: seq<Token>): (s: seq<byte>) {
    if toks == [] then [] else Encode(toks[0]) + EncodeAll(toks[1..])
  }

  lemma ThreeParts(a: seq<byte>, b: seq<byte>, c: seq<byte>)
    ensures a + (b + c) == (a + b) + c
  {
  }

  lemma {:induction false} EncodeAllAppend(a: seq<Token>, t: Token)
    ensures EncodeAll(a + [t]) == EncodeAll(a) + Encode(t)
  {
    if a == [] {
      assert [t][1..] == [];
    } else {
      assert (a + [t])[1..] == a[1..] + [t];
      EncodeAllAppend(a[1..], t);
      ThreeParts(Encode(a[0]), EncodeAll(a[1..]), Encode(t));
    }
  }
}
