/**
 64-bit integers from 32-bit halves (byterun/int64_emul.h): each operation on halves
 is the operation on numbers, modulo 2^64.
 */
module Int64 {
  const W := 0x1_0000_0000
  const Z := 0x1_0000_0000_0000_0000

  datatype I64 = I64(h: nat, l: nat)

  predicate Ok(x: I64) { x.h < W && x.l < W }

  /** The unsigned number. */
  function U(x: I64): nat { x.h * W + x.l }

  predicate Negative(x: I64) { x.h >= 0x8000_0000 }

  /** The signed number. */
  function S(x: I64): int { if Negative(x) then U(x) - Z else U(x) }

  /** Halves are determined by the number, signed or not. */
  lemma SameNumber(x: I64, y: I64)
    requires Ok(x) && Ok(y)
    ensures U(x) == U(y) <==> x == y
    ensures S(x) == S(y) <==> x == y
  {
  }

  lemma Range(x: I64)
    requires Ok(x)
    ensures U(x) < Z && (Negative(x) <==> U(x) >= Z / 2)
    ensures -Z / 2 <= S(x) < Z / 2 && U(x) == S(x) % Z
  {
    Wrapped(S(x));
  }

  /** Numbers less than 2^64 apart, modulo 2^64. */
  lemma Wrapped(n: int)
    ensures 0 <= n < Z ==> n % Z == n
    ensures -Z <= n < 0 ==> n % Z == n + Z
    ensures Z <= n < 2 * Z ==> n % Z == n - Z
  {
  }

  // ----- Comparison -----

  /** `I64_ucompare`. */
  function UCompare(x: I64, y: I64): int {
    if x.h > y.h then 1
    else if x.h < y.h then -1
    else if x.l > y.l then 1
    else if x.l < y.l then -1
    else 0
  }

  lemma UCompareExact(x: I64, y: I64)
    requires Ok(x) && Ok(y)
    ensures UCompare(x, y) < 0 <==> U(x) < U(y)
    ensures UCompare(x, y) == 0 <==> U(x) == U(y)
  {
  }

  function Signed32(n: nat): int { if n >= 0x8000_0000 then n - W else n }

  /** `I64_compare`. */
  function Compare(x: I64, y: I64): int {
    if Signed32(x.h) > Signed32(y.h) then 1
    else if Signed32(x.h) < Signed32(y.h) then -1
    else if x.l > y.l then 1
    else if x.l < y.l then -1
    else 0
  }

  lemma CompareExact(x: I64, y: I64)
    requires Ok(x) && Ok(y)
    ensures Compare(x, y) < 0 <==> S(x) < S(y)
    ensures Compare(x, y) == 0 <==> S(x) == S(y)
  {
  }

  // ----- Negation, addition, subtraction -----

  /** `I64_neg`. */
  function Neg(x: I64): I64
    requires Ok(x)
  {
    var l := if x.l == 0 then 0 else W - x.l;
    var h := W - 1 - x.h;
    I64(if l == 0 then (h + 1) % W else h, l)
  }

  lemma NegExact(x: I64)
    requires Ok(x)
    ensures Ok(Neg(x)) && U(Neg(x)) == if U(x) == 0 then 0 else Z - U(x)
  {
  }

  /** `I64_add`. */
  function Add(x: I64, y: I64): I64 {
    var l := (x.l + y.l) % W;
    var h := (x.h + y.h) % W;
    I64(if l < x.l then (h + 1) % W else h, l)
  }

  /** The high word of a sum with a carry. */
  lemma HighSum(a: nat, b: nat, c: nat)
    requires a < W && b < W && c <= 1
    ensures ((a + b) % W + c) % W == if a + b + c < W then a + b + c else a + b + c - W
  {
  }

  lemma AddExact(x: I64, y: I64)
    requires Ok(x) && Ok(y)
    ensures Ok(Add(x, y)) && U(Add(x, y)) == (U(x) + U(y)) % Z
  {
    var c := if x.l + y.l < W then 0 else 1;
    HighSum(x.h, y.h, c);
    assert Add(x, y).l == x.l + y.l - c * W;
    Wrapped(U(x) + U(y));
  }

  /** `I64_sub`. */
  function Sub(x: I64, y: I64): I64 {
    var l := (x.l - y.l) % W;
    var h := (x.h - y.h) % W;
    I64(if x.l < y.l then (h - 1) % W else h, l)
  }

  /** The high word of a difference with a borrow. */
  lemma HighDifference(a: nat, b: nat, c: nat)
    requires a < W && b < W && c <= 1
    ensures ((a - b) % W - c) % W == if a >= b + c then a - b - c else a - b - c + W
  {
  }

  lemma SubExact(x: I64, y: I64)
    requires Ok(x) && Ok(y)
    ensures Ok(Sub(x, y)) && U(Sub(x, y)) == (U(x) - U(y)) % Z
  {
    var c := if x.l < y.l then 1 else 0;
    HighDifference(x.h, y.h, c);
    HighDifference(x.l, y.l, 0);
    var r := Sub(x, y);
    assert r.l == x.l - y.l + c * W;
    assert r.h == if x.h >= y.h + c then x.h - y.h - c else x.h - y.h - c + W;
    assert U(r) == if x.h >= y.h + c then U(x) - U(y) else U(x) - U(y) + Z;
    Wrapped(U(x) - U(y));
  }

  // ----- Multiplication -----

  /** The sum of two words that fits in 32 bits, and what is carried out of it. */
  function PlusCarry(h: nat, l: nat, p: nat): I64 {
    var l' := (l + p) % W;
    I64(if l' < p then h + 1 else h, l')
  }

  lemma CarryExact(h: nat, l: nat, p: nat)
    requires l < W && p < W
    ensures PlusCarry(h, l, p).l < W && U(PlusCarry(h, l, p)) == h * W + l + p
  {
  }

  /** The product of two words, from the products of their halves. */
  function LowMul(xl: nat, yl: nat): I64 {
    var a1, a0, b1, b0 := xl / 0x1_0000, xl % 0x1_0000, yl / 0x1_0000, yl % 0x1_0000;
    var p01, p10 := a0 * b1, a1 * b0;
    var r := PlusCarry(a1 * b1 + p01 / 0x1_0000 + p10 / 0x1_0000, a0 * b0, p01 % 0x1_0000 * 0x1_0000);
    PlusCarry(r.h, r.l, p10 % 0x1_0000 * 0x1_0000)
  }

  /** `I64_mul`. */
  function Mul(x: I64, y: I64): I64 {
    var r := LowMul(x.l, y.l);
    I64((r.h + (x.l * y.h + x.h * y.l)) % W, r.l)
  }

  lemma Monotone(a: nat, b: nat, c: nat)
    requires b <= c
    ensures a * b <= a * c
  {
  }

  lemma ProductBelow(a: nat, b: nat)
    requires a < 0x1_0000 && b < 0x1_0000
    ensures a * b < W
  {
    Monotone(a, b, 0xFFFF);
  }

  lemma Distribute(a: nat, b: nat, c: nat, d: nat)
    ensures (a + b) * (c + d) == a * c + a * d + b * c + b * d
  {
  }

  lemma Scale(a: nat, b: nat, k: nat, m: nat)
    ensures k * a * (m * b) == k * m * (a * b)
  {
    assert k * a * (m * b) == k * (a * (m * b));
    assert a * (m * b) == m * (a * b);
  }

  /** The product of two words from those of their halves. */
  lemma LowProduct(a1: nat, a0: nat, b1: nat, b0: nat)
    ensures (0x1_0000 * a1 + a0) * (0x1_0000 * b1 + b0) ==
            W * (a1 * b1) + 0x1_0000 * (a1 * b0) + 0x1_0000 * (a0 * b1) + a0 * b0
  {
    Distribute(0x1_0000 * a1, a0, 0x1_0000 * b1, b0);
    Scale(a1, b1, 0x1_0000, 0x1_0000);
    Scale(a1, b0, 0x1_0000, 1);
    Scale(a0, b1, 1, 0x1_0000);
  }

  lemma LowMulExact(xl: nat, yl: nat)
    requires xl < W && yl < W
    ensures LowMul(xl, yl).l < W && U(LowMul(xl, yl)) == xl * yl
  {
    var a1, a0, b1, b0 := xl / 0x1_0000, xl % 0x1_0000, yl / 0x1_0000, yl % 0x1_0000;
    LowProduct(a1, a0, b1, b0);
    ProductBelow(a0, b0);
    SumOfProducts(a1 * b1, a0 * b1, a1 * b0, a0 * b0);
  }

  /** The four products, with the middle ones split over the two words. */
  lemma SumOfProducts(p11: nat, p01: nat, p10: nat, p00: nat)
    requires p00 < W
    ensures var r := PlusCarry(p11 + p01 / 0x1_0000 + p10 / 0x1_0000, p00, p01 % 0x1_0000 * 0x1_0000);
            var s := PlusCarry(r.h, r.l, p10 % 0x1_0000 * 0x1_0000);
            s.l < W && U(s) == W * p11 + 0x1_0000 * p10 + 0x1_0000 * p01 + p00
  {
    var h := p11 + p01 / 0x1_0000 + p10 / 0x1_0000;
    CarryExact(h, p00, p01 % 0x1_0000 * 0x1_0000);
    var r := PlusCarry(h, p00, p01 % 0x1_0000 * 0x1_0000);
    CarryExact(r.h, r.l, p10 % 0x1_0000 * 0x1_0000);
  }

  /** The product of two numbers from those of their words. */
  lemma FullProduct(xh: nat, xl: nat, yh: nat, yl: nat)
    ensures (xh * W + xl) * (yh * W + yl) == Z * (xh * yh) + W * (xl * yh + xh * yl) + xl * yl
  {
    Distribute(W * xh, xl, W * yh, yl);
    Scale(xh, yh, W, W);
    Scale(xh, yl, W, 1);
    Scale(xl, yh, 1, W);
  }

  /** What is above 64 bits goes away. */
  lemma Truncate(k: nat, t: nat, l: nat)
    requires l < W
    ensures (Z * k + W * t + l) % Z == t % W * W + l
  {
    var q := t / W;
    assert W * t == Z * q + t % W * W;
    Remainder(k + q, t % W * W + l);
  }

  lemma Remainder(q: nat, m: nat)
    requires m < Z
    ensures (Z * q + m) % Z == m
  {
  }

  lemma MulFrom(x: I64, y: I64, r: I64)
    requires r.l < W && U(r) == x.l * y.l
    ensures U(I64((r.h + (x.l * y.h + x.h * y.l)) % W, r.l)) == U(x) * U(y) % Z
  {
    FullProduct(x.h, x.l, y.h, y.l);
    Collect(x.h * y.h, x.l * y.h + x.h * y.l, r);
  }

  /** Multiplication is exact modulo 2^64. */
  lemma MulExact(x: I64, y: I64)
    requires Ok(x) && Ok(y)
    ensures Ok(Mul(x, y)) && U(Mul(x, y)) == U(x) * U(y) % Z
  {
    LowMulExact(x.l, y.l);
    MulFrom(x, y, LowMul(x.l, y.l));
  }

  lemma Collect(k: nat, t: nat, r: I64)
    requires r.l < W
    ensures (Z * k + W * t + U(r)) % Z == U(I64((r.h + t) % W, r.l))
  {
    Truncate(k, r.h + t, r.l);
  }

  // ----- Shifts by one -----

  /** `I64_SHL1`. */
  function Shl1(x: I64): I64 { I64(2 * x.h % W + x.l / 0x8000_0000, 2 * x.l % W) }

  lemma Shl1Exact(x: I64)
    requires Ok(x) && !Negative(x)
    ensures Ok(Shl1(x)) && U(Shl1(x)) == 2 * U(x)
  {
  }

  /** `I64_SHR1`. */
  function Shr1(x: I64): I64 { I64(x.h / 2, x.l / 2 + x.h % 2 * 0x8000_0000) }

  lemma Shr1Exact(x: I64)
    requires Ok(x)
    ensures Ok(Shr1(x)) && U(Shr1(x)) == U(x) / 2
  {
  }
}
