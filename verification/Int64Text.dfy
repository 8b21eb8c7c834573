/**
 Printing 64-bit integers (byterun/int64_format.h) and reading them
 (byterun/ints.c): what is printed with "%d" or "%#x" is read back as it was.
 */
module Int64Text {
  import opened Int64
  import opened Int64Div

  // ----- Digits -----

  function DigitChar(d: nat, upper: bool): char
    requires d < 16
  {
    if upper then "0123456789ABCDEF"[d] else "0123456789abcdef"[d]
  }

  /** `parse_digit`. */
  function DigitOf(c: char): int {
    if '0' <= c <= '9' then c as int - '0' as int
    else if 'A' <= c <= 'F' then c as int - 'A' as int + 10
    else if 'a' <= c <= 'f' then c as int - 'a' as int + 10
    else -1
  }

  lemma DigitRoundTrip(d: nat, upper: bool)
    requires d < 16
    ensures DigitOf(DigitChar(d, upper)) == d && DigitChar(d, upper) != '_' && (DigitChar(d, upper) == '0' <==> d == 0)
    ensures DigitChar(d, upper) != '-'
  {
  }

  /** The digits of a number, most significant first. */
  function Digits(n: nat, base: nat, upper: bool): (s: string)
    requires 2 <= base <= 16
    ensures s != []
  {
    if n < base then [DigitChar(n, upper)] else Digits(n / base, base, upper) + [DigitChar(n % base, upper)]
  }

  /** There is no leading zero, but for zero itself. */
  lemma {:induction false} LeadingDigit(n: nat, base: nat, upper: bool)
    requires 2 <= base <= 16
    ensures var c := Digits(n, base, upper)[0];
            (c == '0' <==> n == 0) && 0 <= DigitOf(c) < base && c != '_' && c != '-'
    ensures n == 0 ==> |Digits(n, base, upper)| == 1
  {
    if n < base {
      DigitRoundTrip(n, upper);
    } else {
      LeadingDigit(n / base, base, upper);
    }
  }

  function Pow8(n: nat): nat {
    if n == 0 then 1 else 8 * Pow8(n - 1)
  }

  lemma {:induction false} Pow8Sum(m: nat, n: nat)
    ensures Pow8(m + n) == Pow8(m) * Pow8(n)
  {
    if m > 0 {
      Pow8Sum(m - 1, n);
      Associate(8, Pow8(m - 1), Pow8(n));
    }
  }

  lemma Associate(a: nat, b: nat, c: nat)
    ensures a * (b * c) == a * b * c
  {
  }

  lemma EnoughDigits()
    ensures Pow8(22) >= Z
  {
    assert Pow8(2) == 64;
    Pow8Sum(2, 2);
    Pow8Sum(4, 4);
    Pow8Sum(8, 8);
    Pow8Sum(16, 4);
    Pow8Sum(20, 2);
  }

  lemma {:induction false} DigitCount(n: nat, base: nat, upper: bool, k: nat)
    requires 8 <= base <= 16 && n < Pow8(k) && k > 0
    ensures |Digits(n, base, upper)| <= k
    decreases k
  {
    if n >= base {
      SmallerQuotient(n, base);
      DigitCount(n / base, base, upper, k - 1);
    }
  }

  lemma SmallerQuotient(n: nat, base: nat)
    requires 8 <= base
    ensures n / base <= n / 8
  {
    var q := n / base;
    assert q * 8 <= q * base <= n;
  }

  // ----- Printing -----

  /** What a format asks for. */
  datatype Spec = Spec(left: bool, signStyle: char, filler: char, alternate: bool, base: nat, signed: bool, upper: bool,
    width: nat)

  const PLAIN := Spec(false, '-', ' ', false, 0, false, false, 0)

  /** The value and the length of the digits that a string starts with. */
  function Width(fmt: string, w: nat): (nat, nat) {
    if fmt != [] && '0' <= fmt[0] <= '9' then
      var (v, n) := Width(fmt[1..], 10 * w + (fmt[0] as int - '0' as int));
      (v, n + 1)
    else (w, 0)
  }

  lemma {:induction false} WidthLength(fmt: string, w: nat)
    ensures Width(fmt, w).1 <= |fmt|
  {
    if fmt != [] && '0' <= fmt[0] <= '9' {
      WidthLength(fmt[1..], 10 * w + (fmt[0] as int - '0' as int));
    }
  }

  /** What a character other than a width asks for. */
  function Flag(f: Spec, c: char): Spec {
    match c
    case '-' => f.(left := true)
    case '+' => f.(signStyle := '+')
    case ' ' => f.(signStyle := ' ')
    case '0' => f.(filler := '0')
    case '#' => f.(alternate := true)
    case 'd' => f.(signed := true, base := 10)
    case 'i' => f.(signed := true, base := 10)
    case 'u' => f.(base := 10)
    case 'x' => f.(base := 16)
    case 'X' => f.(base := 16, upper := true)
    case 'o' => f.(base := 8)
    case _ => f
  }

  /** The format that a string describes: its flags, its width and its conversion; all other
      characters are passed over. */
  function ParseFormat(fmt: string, f: Spec): (g: Spec)
    ensures f.base in {0, 8, 10, 16} ==> g.base in {0, 8, 10, 16}
    decreases |fmt|
  {
    if fmt == [] then f
    else if '1' <= fmt[0] <= '9' then
      WidthLength(fmt, 0);
      ParseFormat(fmt[Width(fmt, 0).1..], f.(width := Width(fmt, 0).0))
    else ParseFormat(fmt[1..], Flag(f, fmt[0]))
  }

  function Repeat(c: char, n: int): string {
    if n <= 0 then [] else [c] + Repeat(c, n - 1)
  }

  function SignPart(f: Spec, negative: bool): string {
    if !f.signed then [] else if negative then "-" else if f.signStyle != '-' then [f.signStyle] else []
  }

  function BasePart(f: Spec): string {
    if !f.alternate then [] else if f.base == 8 then "0" else if f.base == 16 then "0x" else []
  }

  /** The digits with their sign, their prefix and their padding. */
  function Layout(f: Spec, negative: bool, raw: string): string {
    var pad := f.width - (|SignPart(f, negative)| + |BasePart(f)| + |raw|);
    (if !f.left && f.filler == ' ' then Repeat(' ', pad) else [])
    + SignPart(f, negative) + BasePart(f)
    + (if !f.left && f.filler == '0' then Repeat('0', pad) else [])
    + raw
    + (if f.left then Repeat(' ', pad) else [])
  }

  /** The number as printed. */
  function Formatted(f: Spec, x: I64): string
    requires Ok(x) && f.base in {0, 8, 10, 16}
  {
    if f.base == 0 then []
    else
      var negative := f.signed && Negative(x);
      Layout(f, negative, Digits(if negative then Z - U(x) else U(x), f.base, f.upper))
  }

  /** The first loop of `I64_format`. */
  method ReadFormat(fmt: string) returns (f: Spec)
    ensures f == ParseFormat(fmt, PLAIN)
  {
    f := PLAIN;
    var i := 0;
    assert fmt[0..] == fmt;
    while i < |fmt|
      invariant i <= |fmt| && ParseFormat(fmt[i..], f) == ParseFormat(fmt, PLAIN)
      decreases |fmt| - i
    {
      assert fmt[i..][1..] == fmt[i + 1..];
      if '1' <= fmt[i] <= '9' {
        var w, j := ReadWidth(fmt, i);
        assert fmt[i..][Width(fmt[i..], 0).1..] == fmt[j..];
        f, i := f.(width := w), j;
      } else {
        f, i := Flag(f, fmt[i]), i + 1;
      }
    }
    assert fmt[i..] == [];
  }

  method ReadWidth(fmt: string, i: nat) returns (w: nat, j: nat)
    requires i < |fmt| && '1' <= fmt[i] <= '9'
    ensures i < j <= |fmt| && Width(fmt[i..], 0) == (w, j - i)
  {
    w, j := 0, i;
    while j < |fmt| && '0' <= fmt[j] <= '9'
      invariant i <= j <= |fmt| && (j == i ==> w == 0)
      invariant Width(fmt[i..], 0) == (Width(fmt[j..], w).0, Width(fmt[j..], w).1 + (j - i))
    {
      assert fmt[j..][1..] == fmt[j + 1..];
      w, j := 10 * w + (fmt[j] as int - '0' as int), j + 1;
    }
  }

  method Pad(c: char, from: nat, width: nat) returns (s: string)
    ensures s == Repeat(c, width - from)
  {
    s := [];
    var i := from;
    while i < width
      invariant i >= from && (i <= width || i == from) && Repeat(c, width - from) == s + Repeat(c, width - i)
    {
      assert s + ([c] + Repeat(c, width - (i + 1))) == s + [c] + Repeat(c, width - (i + 1));
      s, i := s + [c], i + 1;
    }
    assert s + [] == s;
  }

  /** One digit. */
  method DivideBase(y: I64, base: nat) returns (q: I64, d: nat)
    requires Ok(y) && 8 <= base <= 16
    ensures Ok(q) && U(q) == U(y) / base && d == U(y) % base < base && (q == I64(0, 0) <==> U(y) < base)
    ensures U(q) < U(y) || U(q) == 0
  {
    var r;
    q, r := UDivMod(y, I64(0, base));
    QuotientUnique(U(y), base, U(q), U(r));
    ZeroQuotient(U(y), base);
    d := r.l;
  }

  lemma ZeroQuotient(n: nat, base: nat)
    requires 2 <= base
    ensures (n / base == 0 <==> n < base) && (n / base < n || n / base == 0)
  {
    NoLarger(n, base);
    DivisionLaw(n, base);
  }

  lemma OneDigit(n: nat, base: nat, upper: bool, tail: string)
    requires 2 <= base <= 16
    ensures var more := [DigitChar(n % base, upper)] + tail;
            Digits(n, base, upper) + tail == if n < base then more else Digits(n / base, base, upper) + more
  {
    if n < base {
      assert n % base == n;
    } else {
      var more, c := Digits(n / base, base, upper), DigitChar(n % base, upper);
      assert more + [c] + tail == more + ([c] + tail);
    }
  }

  const RAW_SIZE := 24

  /** What is in the buffer and what is to come make up the digits of the number. */
  ghost predicate Converting(digits: string, n: nat, base: nat, upper: bool, more: bool, tail: string) {
    2 <= base <= 16 && digits == if more then Digits(n, base, upper) + tail else tail
  }

  lemma ConvertStep(digits: string, n: nat, base: nat, upper: bool, tail: string)
    requires Converting(digits, n, base, upper, true, tail)
    ensures |tail| < |digits|
    ensures Converting(digits, n / base, base, upper, n >= base, [DigitChar(n % base, upper)] + tail) == true
  {
    OneDigit(n, base, upper, tail);
  }

  /** The conversion loop of `I64_format`: the digits are stored from the end of a buffer of 24
      characters, which is long enough. */
  method Convert(x: I64, base: nat, upper: bool) returns (raw: string)
    requires Ok(x) && 8 <= base <= 16
    ensures raw == Digits(U(x), base, upper) && |raw| < RAW_SIZE
  {
    ghost var digits := Digits(U(x), base, upper);
    FewDigits(x, base, upper);
    var buffer := new char[RAW_SIZE];
    var r, y, more := RAW_SIZE, x, true;
    assert buffer[r..] == [] && digits + [] == digits;
    while more
      invariant 0 <= r <= RAW_SIZE && Ok(y) && Converting(digits, U(y), base, upper, more, buffer[r..])
      decreases more, U(y)
    {
      ghost var tail := buffer[r..];
      ConvertStep(digits, U(y), base, upper, tail);
      var q, d := DivideBase(y, base);
      r := r - 1;
      buffer[r] := DigitChar(d, upper);
      assert buffer[r..] == [DigitChar(d, upper)] + tail;
      more := !(q.h == 0 && q.l == 0);
      y := q;
    }
    raw := buffer[r..];
  }

  lemma FewDigits(x: I64, base: nat, upper: bool)
    requires Ok(x) && 8 <= base <= 16
    ensures |Digits(U(x), base, upper)| <= 22
  {
    EnoughDigits();
    Range(x);
    DigitCount(U(x), base, upper, 22);
  }

  /** `I64_format`. */
  method Format(fmt: string, x: I64) returns (s: string)
    requires Ok(x)
    ensures s == Formatted(ParseFormat(fmt, PLAIN), x)
  {
    var f := ReadFormat(fmt);
    s := Print(f, x);
  }

  /** The number, in the format `f`. */
  method Print(f: Spec, x: I64) returns (s: string)
    requires Ok(x) && f.base in {0, 8, 10, 16}
    ensures s == Formatted(f, x)
  {
    if f.base == 0 {
      return [];
    }
    var negative := f.signed && Negative(x);
    NegExact(x);
    var raw := Convert(if negative then Neg(x) else x, f.base, f.upper);
    s := Lay(f, negative, raw);
  }

  /** The padding goes before the sign, before the digits or after them. */
  method Lay(f: Spec, negative: bool, raw: string) returns (s: string)
    ensures s == Layout(f, negative, raw)
  {
    var sign, prefix := SignPart(f, negative), BasePart(f);
    var n := |sign| + |prefix| + |raw|;
    var before, middle, after := [], [], [];
    if !f.left && f.filler == ' ' {
      before := Pad(' ', n, f.width);
    }
    if !f.left && f.filler == '0' {
      middle := Pad('0', n, f.width);
    }
    if f.left {
      after := Pad(' ', n, f.width);
    }
    s := before + sign + prefix + middle + raw + after;
  }

  // ----- Reading -----

  datatype Result = Value(x: I64) | Failure

  /** The character at `i` of a string that ends in a null character. */
  function At(s: string, i: nat): char {
    if i < |s| then s[i] else '\0'
  }

  /** `parse_sign_and_base`: where the digits start, their base, and whether there is a sign. */
  function SignAndBase(s: string): (nat, nat, bool) {
    var negative := At(s, 0) == '-';
    var p := if negative then 1 else 0;
    if At(s, p) != '0' then (p, 10, negative)
    else
      match At(s, p + 1)
      case 'x' => (p + 2, 16, negative)
      case 'X' => (p + 2, 16, negative)
      case 'o' => (p + 2, 8, negative)
      case 'O' => (p + 2, 8, negative)
      case 'b' => (p + 2, 2, negative)
      case 'B' => (p + 2, 2, negative)
      case _ => (p, 10, negative)
  }

  predicate IsDigit(c: char, base: nat) { 0 <= DigitOf(c) < base }

  /** The number that the digits from `i` on make of `n`, and where they end; underscores are
      passed over. There is none when it takes more than 64 bits. */
  datatype Scanned = Number(n: nat, end: nat) | TooLarge

  function Scan(s: string, i: nat, base: nat, n: nat): Scanned
    decreases |s| - i
  {
    if i >= |s| then Number(n, i)
    else if s[i] == '_' then Scan(s, i + 1, base, n)
    else if !IsDigit(s[i], base) then Number(n, i)
    else if base * n + DigitOf(s[i]) >= Z then TooLarge
    else Scan(s, i + 1, base, base * n + DigitOf(s[i]))
  }

  /** `caml_int64_of_string_r`: a decimal number must fit with its sign; others are taken
      modulo 2^64. */
  function OfString(s: string): Result {
    var (p, base, negative) := SignAndBase(s);
    if p >= |s| || !IsDigit(s[p], base) then Failure
    else
      var r := Scan(s, p, base, 0);
      if r.TooLarge? || r.end != |s| then Failure
      else if base == 10 && r.n > (if negative then Z / 2 else Z / 2 - 1) then Failure
      else
        var x := I64(r.n / W, r.n % W);
        if Ok(x) && negative then Value(Neg(x)) else Value(x)
  }

  /** A sum that takes more than 64 bits is less than what was added. */
  lemma SumCheck(m: nat, d: nat)
    requires m < Z && d < 16
    ensures m + d < Z ==> (m + d) % Z == m + d >= d
    ensures m + d >= Z ==> (m + d) % Z < d
  {
    Wrapped(m + d);
  }

  /** The threshold is the greatest number whose product with the base fits. */
  lemma ProductCheck(base: nat, n: nat, threshold: nat)
    requires 2 <= base <= 16 && threshold == (Z - 1) / base
    ensures threshold < n <==> base * n >= Z
  {
    DivisionLaw(Z - 1, base);
    Product(base, n, threshold);
  }

  lemma Product(base: nat, n: nat, t: nat)
    ensures t < n ==> base * (t + 1) <= base * n
    ensures t >= n ==> base * n <= base * t
    ensures base * (t + 1) == base * t + base
  {
  }

  /** The checks that `caml_int64_of_string_r` makes are exact; `y` is what it has computed. */
  lemma ChecksExact(base: nat, n: nat, d: nat, threshold: nat, y: nat)
    requires 2 <= base <= 16 && d < base && threshold == (Z - 1) / base && y == (base * n % Z + d) % Z
    ensures threshold < n ==> base * n + d >= Z
    ensures threshold >= n ==> (y >= d <==> base * n + d < Z) && (y >= d ==> y == base * n + d)
  {
    ProductCheck(base, n, threshold);
    if threshold >= n {
      Wrapped(base * n);
      SumCheck(base * n, d);
    }
  }

  /** One digit more, or an overflow. */
  method AddDigit(x: I64, ghost n: nat, base: nat, d: nat, threshold: I64) returns (y: I64, ok: bool)
    requires Ok(x) && U(x) == n && Ok(threshold) && 2 <= base <= 16 && d < base && U(threshold) == (Z - 1) / base
    ensures ok == (base * n + d < Z) && (ok ==> Ok(y) && U(y) == base * n + d)
  {
    y := MulAdd(x, n, base, d);
    ChecksExact(base, n, d, U(threshold), U(y));
    UCompareExact(threshold, x);
    UCompareExact(y, I64(0, d));
    ok := UCompare(threshold, x) >= 0 && UCompare(y, I64(0, d)) >= 0;
  }

  method MulAdd(x: I64, ghost n: nat, base: nat, d: nat) returns (y: I64)
    requires Ok(x) && U(x) == n && 2 <= base <= 16 && d < base
    ensures Ok(y) && U(y) == (base * n % Z + d) % Z
  {
    MulExact(I64(0, base), x);
    y := Mul(I64(0, base), x);
    AddExact(y, I64(0, d));
    y := Add(y, I64(0, d));
  }

  /** The loop over the digits. */
  method ReadDigits(s: string, p: nat, base: nat) returns (x: I64, end: nat, ok: bool)
    requires p < |s| && IsDigit(s[p], base) && s[p] != '_' && base in {2, 8, 10, 16}
    ensures if ok then Ok(x) && Scan(s, p, base, 0) == Number(U(x), end) else Scan(s, p, base, 0) == TooLarge
  {
    var threshold, rest := UDivMod(I64(W - 1, W - 1), I64(0, base));
    QuotientUnique(Z - 1, base, U(threshold), U(rest));
    x, end, ok := I64(0, DigitOf(s[p])), p + 1, true;
    while end < |s| && (s[end] == '_' || IsDigit(s[end], base))
      invariant p < end <= |s| && Ok(x) && Scan(s, p, base, 0) == Scan(s, end, base, U(x))
    {
      if s[end] != '_' {
        x, ok := AddDigit(x, U(x), base, DigitOf(s[end]), threshold);
        if !ok {
          return;
        }
      }
      end := end + 1;
    }
  }

  /** `caml_int64_of_string_r`. */
  method ReadInt64(s: string) returns (r: Result)
    ensures r == OfString(s)
  {
    var (p, base, negative) := SignAndBase(s);
    if p >= |s| || !IsDigit(s[p], base) {
      return Failure;
    }
    var x, end, ok := ReadDigits(s, p, base);
    if !ok || end != |s| {
      return Failure;
    }
    var limit := if negative then I64(0x8000_0000, 0) else I64(0x7FFF_FFFF, W - 1);
    UCompareExact(limit, x);
    if base == 10 && UCompare(limit, x) < 0 {
      return Failure;
    }
    return Value(if negative then Neg(x) else x);
  }

  // ----- Round trips -----

  lemma ScanOne(s: string, j: nat, base: nat, q: nat, d: nat, upper: bool)
    requires 2 <= base <= 16 && d < base && base * q + d < Z && j < |s| && s[j] == DigitChar(d, upper)
    ensures Scan(s, j, base, q) == Scan(s, j + 1, base, base * q + d)
  {
    DigitRoundTrip(d, upper);
  }

  lemma LastDigit(s: string, i: nat, front: string, c: char)
    requires i + |front| < |s| && s[i..i + |front| + 1] == front + [c]
    ensures s[i..i + |front|] == front && s[i + |front|] == c
  {
    var j := i + |front|;
    assert s[i..j] == s[i..j + 1][..|front|];
    assert s[j] == s[i..j + 1][|front|];
  }

  /** Reading the digits of a number gives the number. */
  lemma {:induction false} ScanDigits(s: string, i: nat, n: nat, base: nat, upper: bool, digits: string)
    requires 2 <= base <= 16 && n < Z && digits == Digits(n, base, upper) && i + |digits| <= |s|
    requires s[i..i + |digits|] == digits
    ensures Scan(s, i, base, 0) == Scan(s, i + |digits|, base, n)
    decreases n
  {
    if n < base {
      LastDigit(s, i, [], DigitChar(n, upper));
      ScanOne(s, i, base, 0, n, upper);
    } else {
      var q, d := n / base, n % base;
      DivisionLaw(n, base);
      ZeroQuotient(n, base);
      var front := Digits(q, base, upper);
      LastDigit(s, i, front, DigitChar(d, upper));
      ScanDigits(s, i, q, base, upper, front);
      ScanOne(s, i + |front|, base, q, d, upper);
    }
  }

  /** A decimal number without its sign. */
  lemma ReadDecimal(s: string, n: nat, negative: bool)
    requires n < Z && s == (if negative then "-" else "") + Digits(n, 10, false)
    ensures SignAndBase(s) == (if negative then 1 else 0, 10, negative)
    ensures var p := if negative then 1 else 0;
            p < |s| && IsDigit(s[p], 10) && Scan(s, p, 10, 0) == Number(n, |s|)
  {
    var p := if negative then 1 else 0;
    var digits := Digits(n, 10, false);
    LeadingDigit(n, 10, false);
    assert s[p..p + |digits|] == digits && s[p] == digits[0];
    ScanDigits(s, p, n, 10, false, digits);
  }

  lemma PlainDecimal()
    ensures ParseFormat("%d", PLAIN) == PLAIN.(signed := true, base := 10)
  {
    assert "%d"[1..] == "d" && "d"[1..] == "";
  }

  /** What is printed with "%d" is read back as it was. */
  lemma DecimalRoundTrip(x: I64)
    requires Ok(x)
    ensures OfString(Formatted(ParseFormat("%d", PLAIN), x)) == Value(x)
  {
    PlainDecimal();
    Range(x);
    var negative := Negative(x);
    var n := if negative then Z - U(x) else U(x);
    var s := Formatted(ParseFormat("%d", PLAIN), x);
    assert s == (if negative then "-" else "") + Digits(n, 10, false);
    ReadDecimal(s, n, negative);
    BackFrom(x, n, negative);
  }

  /** The number from its magnitude. */
  lemma BackFrom(x: I64, n: nat, negative: bool)
    requires Ok(x) && n == if negative then Z - U(x) else U(x)
    requires negative ==> U(x) > 0
    ensures var y := I64(n / W, n % W); Ok(y) && x == if negative then Neg(y) else y
  {
    Range(x);
    var y := I64(n / W, n % W);
    assert U(y) == n;
    NegExact(y);
    SameNumber(x, if negative then Neg(y) else y);
  }

  lemma PlainHexadecimal()
    ensures ParseFormat("%#x", PLAIN) == PLAIN.(alternate := true, base := 16)
  {
    assert "%#x"[1..] == "#x" && "#x"[1..] == "x" && "x"[1..] == "";
  }

  lemma ReadHexadecimal(s: string, n: nat)
    requires n < Z && s == "0x" + Digits(n, 16, false)
    ensures SignAndBase(s) == (2, 16, false) && 2 < |s| && IsDigit(s[2], 16) && Scan(s, 2, 16, 0) == Number(n, |s|)
  {
    var digits := Digits(n, 16, false);
    LeadingDigit(n, 16, false);
    assert s[2..2 + |digits|] == digits && s[2] == digits[0];
    ScanDigits(s, 2, n, 16, false, digits);
  }

  /** What is printed with "%#x" is read back as it was. */
  lemma HexadecimalRoundTrip(x: I64)
    requires Ok(x)
    ensures OfString(Formatted(ParseFormat("%#x", PLAIN), x)) == Value(x)
  {
    PlainHexadecimal();
    Range(x);
    var s := Formatted(ParseFormat("%#x", PLAIN), x);
    assert s == "0x" + Digits(U(x), 16, false);
    ReadHexadecimal(s, U(x));
    BackFrom(x, U(x), false);
  }
}
