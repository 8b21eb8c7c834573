/**
 Division of 64-bit integers in 32-bit halves (byterun/int64_emul.h): the divisor and
 a one-bit mask are shifted to the left until the divisor is large enough, and then
 shifted back, one bit of the quotient at a time.
 */
module Int64Div {
  import opened Int64

  // ----- Bits -----

  /** Bitwise or. */
  function Or(a: nat, b: nat): nat {
    if a == 0 && b == 0 then 0 else (if a % 2 == 1 || b % 2 == 1 then 1 else 0) + 2 * Or(a / 2, b / 2)
  }

  /** `m` is a power of two. */
  predicate IsBit(m: nat) {
    m == 1 || (m > 0 && m % 2 == 0 && IsBit(m / 2))
  }

  /** All bits of `a` are above the bit `m`. */
  predicate Above(a: nat, m: nat) {
    a % 2 == 0 && (m > 1 ==> Above(a / 2, m / 2))
  }

  lemma {:induction false} NothingAbove(m: nat)
    ensures Above(0, m)
  {
    if m > 1 {
      NothingAbove(m / 2);
    }
  }

  lemma {:induction false} OrNothing(a: nat)
    ensures Or(a, 0) == a
  {
    if a > 0 {
      OrNothing(a / 2);
    }
  }

  /** To set a bit is to add it when all others are above it. */
  lemma {:induction false} OrAdds(a: nat, m: nat)
    requires IsBit(m) && Above(a, m)
    ensures Or(a, m) == a + m
  {
    if m == 1 {
      OrNothing(a / 2);
    } else {
      OrAdds(a / 2, m / 2);
    }
  }

  /** Then all bits are above the next bit. */
  lemma {:induction false} AboveNext(a: nat, m: nat)
    requires IsBit(m) && Above(a, m) && m > 1
    ensures Above(a, m / 2) && Above(a + m, m / 2)
  {
    if m > 2 {
      AboveNext(a / 2, m / 2);
    }
  }

  lemma {:induction false} BitBetween(m: nat, b: nat)
    requires IsBit(m) && IsBit(b) && b <= m < 2 * b
    ensures m == b
  {
    if b > 1 {
      BitBetween(m / 2, b / 2);
    }
  }

  lemma NextBit(m: nat, n: nat)
    requires IsBit(m) && n == 2 * m
    ensures IsBit(n) == true
  {
    assert n / 2 == m;
  }

  lemma HigherBit(m: nat)
    requires IsBit(m)
    ensures IsBit(8 * m) && IsBit(16 * m)
  {
    NextBit(m, 2 * m);
    NextBit(2 * m, 4 * m);
    NextBit(4 * m, 8 * m);
    NextBit(8 * m, 16 * m);
  }

  lemma TopBit()
    ensures IsBit(0x8000_0000) && IsBit(W)
  {
    HigherBit(1);
    HigherBit(0x10);
    HigherBit(0x100);
    HigherBit(0x1000);
    HigherBit(0x1_0000);
    HigherBit(0x10_0000);
    HigherBit(0x100_0000);
    HigherBit(0x1000_0000);
  }

  // ----- The mask -----

  /** One bit, in one of the halves. */
  predicate IsMask(mask: I64) {
    Ok(mask) && ((mask.h == 0 && IsBit(mask.l)) || (mask.l == 0 && IsBit(mask.h)))
  }

  lemma TopOnly(m: nat)
    requires IsBit(m) && 0x8000_0000 <= m < W
    ensures m == 0x8000_0000
  {
    TopBit();
    BitBetween(m, 0x8000_0000);
  }

  lemma MaskUp(mask: I64)
    requires IsMask(mask) && !Negative(mask)
    ensures IsMask(Shl1(mask))
  {
    if mask.l == 0 {
      NextBit(mask.h, 2 * mask.h);
      assert Shl1(mask) == I64(2 * mask.h, 0);
    } else if mask.l < 0x8000_0000 {
      NextBit(mask.l, 2 * mask.l);
      assert Shl1(mask) == I64(0, 2 * mask.l);
    } else {
      TopOnly(mask.l);
      assert Shl1(mask) == I64(1, 0);
    }
  }

  lemma MaskDown(mask: I64)
    requires IsMask(mask)
    ensures U(mask) == 1 || (U(mask) % 2 == 0 && IsMask(Shr1(mask)))
  {
    if mask.h == 1 {
      TopBit();
    }
  }

  /** The quotient so far has no bits at or below the mask. */
  predicate Clear(q: I64, mask: I64) {
    Ok(q) && if mask.h == 0 then Above(q.l, mask.l) else q.l == 0 && Above(q.h, mask.h)
  }

  function OrHalves(x: I64, y: I64): I64 { I64(Or(x.h, y.h), Or(x.l, y.l)) }

  /** A number with no bits below `m` stays below a bound that is a multiple of `2 * m`. */
  lemma {:induction false} StaysBelow(a: nat, m: nat, b: nat)
    requires IsBit(m) && IsBit(b) && m < b && Above(a, m) && a < b
    ensures a + m < b
  {
    if m > 1 {
      StaysBelow(a / 2, m / 2, b / 2);
    }
  }

  /** Setting the bit of the mask in the quotient adds it. */
  lemma SetBit(q: I64, mask: I64)
    requires IsMask(mask) && Clear(q, mask)
    ensures Ok(OrHalves(q, mask)) && U(OrHalves(q, mask)) == U(q) + U(mask)
  {
    TopBit();
    if mask.h == 0 {
      OrAdds(q.l, mask.l);
      OrNothing(q.h);
      StaysBelow(q.l, mask.l, W);
    } else {
      OrAdds(q.h, mask.h);
      OrNothing(0);
      StaysBelow(q.h, mask.h, W);
    }
  }

  lemma ClearNext(q: I64, mask: I64)
    requires IsMask(mask) && Clear(q, mask) && U(mask) > 1
    ensures Clear(q, Shr1(mask)) && Clear(OrHalves(q, mask), Shr1(mask))
  {
    SetBit(q, mask);
    if mask.h == 0 {
      OrAdds(q.l, mask.l);
      AboveNext(q.l, mask.l);
    } else if mask.h == 1 {
      NothingAbove(0x8000_0000);
      OrNothing(0);
    } else {
      OrAdds(q.h, mask.h);
      AboveNext(q.h, mask.h);
      OrNothing(0);
    }
  }

  // ----- Unsigned division -----

  /** The number `n` is what has been divided so far and what is left of it, and that is less
      than twice the shifted divisor. */
  ghost predicate Dividing(n: nat, d: nat, q: nat, m: nat, shifted: nat, bit: nat) {
    n == q * d + m && if bit == 0 then m < d else shifted == d * bit && m < 2 * shifted
  }

  lemma Subtracts(n: nat, d: nat, q: nat, m: nat, shifted: nat, bit: nat)
    requires n == q * d + m && shifted == d * bit && shifted <= m
    ensures n == (q + bit) * d + (m - shifted)
  {
    assert (q + bit) * d == q * d + d * bit;
  }

  lemma Halved(d: nat, shifted: nat, bit: nat)
    requires shifted == d * bit && bit % 2 == 0
    ensures shifted / 2 == d * (bit / 2) && shifted % 2 == 0
  {
    var half := bit / 2;
    assert shifted == 2 * (d * half);
  }

  /** One bit of the quotient. */
  lemma DivideStep(n: nat, d: nat, q: nat, m: nat, shifted: nat, bit: nat)
    requires Dividing(n, d, q, m, shifted, bit) && bit > 0 && (bit == 1 || bit % 2 == 0)
    ensures m >= shifted ==> Dividing(n, d, q + bit, m - shifted, shifted / 2, bit / 2)
    ensures m < shifted ==> Dividing(n, d, q, m, shifted / 2, bit / 2)
  {
    if m >= shifted {
      Subtracts(n, d, q, m, shifted, bit);
    }
    if bit > 1 {
      Halved(d, shifted, bit);
    }
  }

  lemma AtMost(bit: nat, d: nat)
    requires d > 0
    ensures bit <= d * bit
  {
  }

  /** The first loop of `I64_udivmod`: the divisor and the mask are shifted to the left. */
  method Align(modulus: I64, divisor: I64) returns (shifted: I64, mask: I64)
    requires Ok(modulus) && Ok(divisor) && U(divisor) > 0
    ensures Ok(shifted) && IsMask(mask) && U(shifted) == U(divisor) * U(mask) && U(modulus) < 2 * U(shifted)
  {
    shifted, mask := divisor, I64(0, 1);
    Range(modulus);
    while !Negative(shifted)
      invariant Ok(shifted) && IsMask(mask) && U(shifted) == U(divisor) * U(mask) && U(shifted) > 0
      decreases Z - U(shifted)
    {
      var cmp := UCompare(shifted, modulus);
      UCompareExact(shifted, modulus);
      Doubled(divisor, shifted, mask);
      shifted, mask := Shl1(shifted), Shl1(mask);
      Range(shifted);
      if cmp >= 0 {
        return;
      }
    }
    Range(shifted);
  }

  lemma Doubled(divisor: I64, shifted: I64, mask: I64)
    requires Ok(shifted) && IsMask(mask) && !Negative(shifted) && U(divisor) > 0 && U(shifted) == U(divisor) * U(mask)
    ensures Ok(Shl1(shifted)) && IsMask(Shl1(mask)) && U(Shl1(shifted)) == U(divisor) * U(Shl1(mask))
    ensures U(Shl1(shifted)) == 2 * U(shifted)
  {
    AtMost(U(mask), U(divisor));
    Range(shifted);
    Range(mask);
    Shl1Exact(shifted);
    Shl1Exact(mask);
    MaskUp(mask);
    TwiceProduct(U(divisor), U(mask));
  }

  lemma TwiceProduct(a: nat, b: nat)
    ensures a * (2 * b) == 2 * (a * b)
  {
  }

  /** What the second loop of `I64_udivmod` keeps. */
  ghost predicate Loop(n: nat, d: nat, quo: I64, mod: I64, shifted: I64, mask: I64) {
    && Ok(quo) && Ok(mod) && Ok(shifted) && Ok(mask) && (U(mask) > 0 ==> IsMask(mask) && Clear(quo, mask))
    && Dividing(n, d, U(quo), U(mod), U(shifted), U(mask))
  }

  lemma LoopStep(n: nat, d: nat, quo: I64, mod: I64, shifted: I64, mask: I64)
    requires Loop(n, d, quo, mod, shifted, mask) && U(mask) > 0
    ensures U(Shr1(mask)) < U(mask)
    ensures U(mod) >= U(shifted) ==> Loop(n, d, OrHalves(quo, mask), Sub(mod, shifted), Shr1(shifted), Shr1(mask))
    ensures U(mod) < U(shifted) ==> Loop(n, d, quo, mod, Shr1(shifted), Shr1(mask))
  {
    MaskDown(mask);
    DivideStep(n, d, U(quo), U(mod), U(shifted), U(mask));
    SetBit(quo, mask);
    if U(mask) > 1 {
      ClearNext(quo, mask);
    }
    Shr1Exact(mask);
    Shr1Exact(shifted);
    SubExact(mod, shifted);
    Range(mod);
    Wrapped(U(mod) - U(shifted));
  }

  /** `I64_udivmod`. */
  method UDivMod(modulus: I64, divisor: I64) returns (quo: I64, mod: I64)
    requires Ok(modulus) && Ok(divisor) && U(divisor) > 0
    ensures Ok(quo) && Ok(mod) && U(modulus) == U(quo) * U(divisor) + U(mod) && U(mod) < U(divisor)
  {
    var shifted, mask := Align(modulus, divisor);
    quo, mod := I64(0, 0), modulus;
    NothingAbove(mask.l);
    NothingAbove(mask.h);
    while !(mask.l == 0 && mask.h == 0)
      invariant Loop(U(modulus), U(divisor), quo, mod, shifted, mask)
      decreases U(mask)
    {
      LoopStep(U(modulus), U(divisor), quo, mod, shifted, mask);
      UCompareExact(mod, shifted);
      if UCompare(mod, shifted) >= 0 {
        quo := OrHalves(quo, mask);
        mod := Sub(mod, shifted);
      }
      mask := Shr1(mask);
      shifted := Shr1(shifted);
    }
  }

  // ----- Signed division -----

  function Abs(n: int): nat { if n < 0 then -n else n }

  /** The quotient of two numbers, rounded towards zero. */
  function Quotient(a: int, b: int): int
    requires b != 0
  {
    if (a < 0) != (b < 0) then -(Abs(a) / Abs(b)) else Abs(a) / Abs(b)
  }

  function Modulus(a: int, b: int): int
    requires b != 0
  {
    if a < 0 then -(Abs(a) % Abs(b)) else Abs(a) % Abs(b)
  }

  lemma SignedProduct(q: int, b: int)
    ensures -q * b == -(q * b) && -q * -b == q * b && q * -b == -(q * b)
  {
  }

  /** What makes them the quotient and the remainder. */
  lemma QuotientExact(a: int, b: int)
    requires b != 0
    ensures a == Quotient(a, b) * b + Modulus(a, b)
    ensures Abs(Modulus(a, b)) < Abs(b) && (Modulus(a, b) == 0 || (Modulus(a, b) < 0 <==> a < 0))
  {
    DivisionLaw(Abs(a), Abs(b));
    var q, r: nat := Abs(a) / Abs(b), Abs(a) % Abs(b);
    SignedProduct(q, Abs(b));
  }

  lemma DivisionLaw(n: nat, d: nat)
    requires d > 0
    ensures n == n / d * d + n % d && n % d < d
  {
  }

  lemma QuotientUnique(n: nat, d: nat, q: nat, r: nat)
    requires n == q * d + r && r < d
    ensures q == n / d && r == n % d
  {
    var q', r' := n / d, n % d;
    assert n == q' * d + r';
    assert (q - q') * d == q * d - q' * d;
    AtLeastOnce(q - q', d);
  }

  lemma AtLeastOnce(x: int, p: nat)
    ensures x >= 1 ==> x * p >= p
    ensures x <= -1 ==> x * p + p <= 0
  {
  }

  lemma NoLarger(n: nat, d: nat)
    requires d > 0
    ensures n / d <= n && (n / d == n && n > 0 ==> d == 1)
  {
    var q := n / d;
    assert n == q * d + n % d;
    AtLeastTwice(q, d);
  }

  lemma AtLeastTwice(q: nat, d: nat)
    ensures d >= 1 ==> q * d >= q
    ensures d >= 2 ==> q * d >= 2 * q
  {
  }

  /** The magnitude of a signed number. */
  function Magnitude(x: I64): (r: I64)
    requires Ok(x)
  {
    if Negative(x) then Neg(x) else x
  }

  lemma MagnitudeExact(x: I64)
    requires Ok(x)
    ensures Ok(Magnitude(x)) && U(Magnitude(x)) == Abs(S(x)) <= Z / 2
  {
    NegExact(x);
    Range(x);
  }

  /** A magnitude given a sign. */
  lemma NegSigned(x: I64)
    requires Ok(x) && U(x) <= Z / 2
    ensures Ok(Neg(x)) && S(Neg(x)) == -(U(x) as int)
  {
    NegExact(x);
    Range(x);
    Range(Neg(x));
  }

  /** `I64_div`: rounded towards zero; the quotient of the least integer by -1, which is too
      large, is the least integer again. */
  method Div(x: I64, y: I64) returns (q: I64)
    requires Ok(x) && Ok(y) && S(y) != 0
    ensures Ok(q)
    ensures S(q) == if S(x) == -Z / 2 && S(y) == -1 then -Z / 2 else Quotient(S(x), S(y))
  {
    MagnitudeExact(x);
    MagnitudeExact(y);
    var r;
    q, r := UDivMod(Magnitude(x), Magnitude(y));
    QuotientUnique(Abs(S(x)), Abs(S(y)), U(q), U(r));
    NoLarger(Abs(S(x)), Abs(S(y)));
    NegSigned(q);
    Range(q);
    if Negative(x) != Negative(y) {
      q := Neg(q);
    }
  }

  /** `I64_mod`: the remainder has the sign of the dividend. */
  method Mod(x: I64, y: I64) returns (r: I64)
    requires Ok(x) && Ok(y) && S(y) != 0
    ensures Ok(r) && S(r) == Modulus(S(x), S(y))
  {
    MagnitudeExact(x);
    MagnitudeExact(y);
    var q;
    q, r := UDivMod(Magnitude(x), Magnitude(y));
    QuotientUnique(Abs(S(x)), Abs(S(y)), U(q), U(r));
    NegSigned(r);
    Range(r);
    if Negative(x) {
      r := Neg(r);
    }
  }
}
