/** 128-bit and 256-bit arithmetic of the fixed-point decimal. Unsigned words are naturals below
    2^128; every wrap-around of the machine type is written out. */
module DecimalWide {
  import opened Arithmetic

  const W64: int := 0x1_0000_0000_0000_0000
  const W127: int := 0x8000_0000_0000_0000_0000_0000_0000_0000
  const W128: int := 0x1_0000_0000_0000_0000_0000_0000_0000_0000

  type U128 = x: int | 0 <= x < W128
  type I128 = x: int | -W127 <= x < W127

  datatype U256 = U256(lo: U128, hi: U128)

  /** The number a pair of words stands for. */
  function Value(n: U256): nat { n.hi * W128 + n.lo }

  /** Keeping 128 bits. */
  function Wrap(x: int): U128 { x % W128 }

  /** static_cast<int128_t>: two's complement reading of a word. */
  function ToSigned(x: U128): I128 { if x < W127 then x else x - W128 }

  /** static_cast<uint128_t>. */
  function FromSigned(v: I128): U128 { if v >= 0 then v else v + W128 }

  /** Absolute value, also of the most negative number. */
  function ToUnsigned(v: I128): (r: U128)
    ensures r == if v >= 0 then v else 0 - v
  {
    if v >= 0 then FromSigned(v) else Wrap((W128 - 1 - FromSigned(v)) + 1)
  }

  // ---- multiplication ----

  function Mul256(a: U128, b: U128): U256 {
    var a0, a1, b0, b1 := a % W64, a / W64, b % W64, b / W64;
    MulParts(a0, b0); MulParts(a0, b1); MulParts(a1, b0); MulParts(a1, b1);
    var p00: U128 := a0 * b0;
    var p01: U128 := a0 * b1;
    var p10: U128 := a1 * b0;
    var p11: U128 := a1 * b1;
    var mid := Wrap(p01 + p10);
    var midCarry := if mid < p01 then 1 else 0;
    var lo := Wrap(p00 + Wrap(mid * W64));
    var loCarry := if lo < p00 then 1 else 0;
    U256(lo, Wrap(p11 + mid / W64 + midCarry * W64 + loCarry))
  }

  /** A product of two 64-bit halves fits a 128-bit word. */
  lemma {:induction false} MulParts(a: nat, b: nat)
    requires a < W64 && b < W64
    ensures 0 <= a * b <= (W64 - 1) * (W64 - 1)
  {
    MulBound(a, b, W64 - 1);
  }

  lemma {:induction false} MulBound(a: nat, b: nat, m: nat)
    requires a <= m && b <= m
    ensures 0 <= a * b <= m * m
  {
    MulMonotone(a, m, b);
    MulMonotone(b, m, m);
  }

  lemma {:induction false} Distribute(a0: int, a1: int, b0: int, b1: int, w: int)
    ensures (a1 * w + a0) * (b1 * w + b0) == (a1 * b1) * (w * w) + (a0 * b1 + a1 * b0) * w + a0 * b0
  {
    calc {
      (a1 * w + a0) * (b1 * w + b0);
      (a1 * w) * (b1 * w) + (a1 * w) * b0 + a0 * (b1 * w) + a0 * b0;
      { assert (a1 * w) * (b1 * w) == (a1 * b1) * (w * w); assert (a1 * w) * b0 == (a1 * b0) * w; assert a0 * (b1 * w) == (a0 * b1) * w; }
      (a1 * b1) * (w * w) + (a1 * b0) * w + (a0 * b1) * w + a0 * b0;
      (a1 * b1) * (w * w) + (a0 * b1 + a1 * b0) * w + a0 * b0;
    }
  }

  /** The carries of the schoolbook scheme, with the four partial products as given numbers. */
  lemma {:induction false} Carries(p00: nat, p01: nat, p10: nat, p11: nat, total: nat)
    requires p00 <= (W64 - 1) * (W64 - 1) && p01 <= (W64 - 1) * (W64 - 1)
    requires p10 <= (W64 - 1) * (W64 - 1) && p11 <= (W64 - 1) * (W64 - 1)
    requires total == p11 * W128 + (p01 + p10) * W64 + p00 < W128 * W128
    ensures var mid := Wrap(p01 + p10);
      var midCarry := if mid < p01 then 1 else 0;
      var lo := Wrap(p00 + Wrap(mid * W64));
      var loCarry := if lo < p00 then 1 else 0;
      Wrap(p11 + mid / W64 + midCarry * W64 + loCarry) * W128 + lo == total
  {
    var mid := Wrap(p01 + p10);
    var midCarry := if mid < p01 then 1 else 0;
    CarryOf(p01, p10);
    var up, down := mid / W64, mid % W64;
    assert mid == up * W64 + down;
    UpperHalf(up, down);
    var lo := Wrap(p00 + down * W64);
    var loCarry := if lo < p00 then 1 else 0;
    CarryOf(p00, down * W64);
    hide Wrap;
    var hi := p11 + up + midCarry * W64 + loCarry;
    assert total == hi * W128 + lo;
    assert hi < W128;
    WrapSmall(hi);
  }

  /** A sum of two words: comparing the wrapped sum with one of them gives the carry. */
  lemma {:induction false} CarryOf(x: nat, y: nat)
    requires x < W128 && y < W128
    ensures x + y == (if Wrap(x + y) < x then 1 else 0) * W128 + Wrap(x + y)
  {
  }

  lemma {:induction false} UpperHalf(up: nat, down: nat)
    requires down < W64
    ensures Wrap((up * W64 + down) * W64) == down * W64
  {
    assert (up * W64 + down) * W64 == up * W128 + down * W64;
  }

  lemma {:induction false} WrapSmall(x: nat)
    requires x < W128
    ensures Wrap(x) == x
  {
  }

  /** No carry is lost: both words together are the exact product. */
  lemma {:induction false} Mul256Exact(a: U128, b: U128)
    ensures Value(Mul256(a, b)) == a * b
  {
    var a0, a1, b0, b1 := a % W64, a / W64, b % W64, b / W64;
    MulParts(a0, b0); MulParts(a0, b1); MulParts(a1, b0); MulParts(a1, b1);
    Distribute(a0, a1, b0, b1, W64);
    assert a == a1 * W64 + a0 && b == b1 * W64 + b0;
    assert a * b < W128 * W128 by { MulBound(a, b, W128 - 1); }
    Carries(a0 * b0, a0 * b1, a1 * b0, a1 * b1, a * b);
  }

  // ---- division ----

  function Pow2(k: nat): (p: nat)
    ensures p > 0
  {
    if k == 0 then 1 else 2 * Pow2(k - 1)
  }

  /** The machine's `(x >> k) & 1`. */
  function Bit(x: nat, k: nat): nat { (x / Pow2(k)) % 2 }

  /** The machine's `x | (1 << k)`. */
  function SetBit(x: nat, k: nat): nat { if Bit(x, k) == 1 then x else x + Pow2(k) }

  /** Dropping one bit more: the quotient by 2p and the bit itself make up the quotient by p. */
  lemma {:induction false} HalfStep(x: nat, p: nat)
    requires p > 0
    ensures x / p == 2 * (x / (2 * p)) + (x / p) % 2
    ensures x % (2 * p) == ((x / p) % 2) * p + x % p
  {
    var q, r := x / p, x % p;
    var a, b := q / 2, q % 2;
    assert q == 2 * a + b;
    assert x == q * p + r;
    assert q * p == a * (2 * p) + b * p;
    assert 0 <= b * p + r < 2 * p;
    DivUnique(x, 2 * p, a, b * p + r);
  }

  lemma {:induction false} Pow2Add(a: nat, b: nat)
    ensures Pow2(a + b) == Pow2(a) * Pow2(b)
  {
    if a > 0 {
      Pow2Add(a - 1, b);
      Associate(2, Pow2(a - 1), Pow2(b));
    }
  }

  lemma {:induction false} Pow2Square(k: nat, m: nat)
    requires Pow2(k) == m
    ensures Pow2(2 * k) == m * m && Pow2(2 * k + 1) == 2 * (m * m)
  {
    Pow2Add(k, k);
  }

  lemma {:induction false} Pow2Of128()
    ensures Pow2(127) == W127 && Pow2(128) == W128
  {
    assert Pow2(3) == 8;
    hide Pow2;
    Pow2Square(3, 8);
    Pow2Square(7, 0x80);
    Pow2Square(15, 0x8000);
    Pow2Square(31, 0x8000_0000);
    Pow2Square(63, 0x8000_0000_0000_0000);
    Pow2Add(127, 1);
    PowOne();
  }

  lemma {:induction false} PowOne()
    ensures Pow2(1) == 2
  {
  }

  /** The 256-bit number without its last `k` bits. */
  function Top(n: U256, k: nat): int
    requires k <= 256
  {
    if k >= 128 then n.hi / Pow2(k - 128) else n.hi * Pow2(128 - k) + n.lo / Pow2(k)
  }

  /** The last `k` bits are zero. */
  predicate Clear(n: U256, k: nat)
    requires k <= 256
  {
    if k >= 128 then n.lo == 0 && n.hi % Pow2(k - 128) == 0 else n.lo % Pow2(k) == 0
  }

  function BitAt(n: U256, i: nat): nat {
    if i >= 128 then Bit(n.hi, i - 128) else Bit(n.lo, i)
  }

  lemma {:induction false} TopBounds(n: U256)
    ensures Top(n, 256) == 0 && Top(n, 0) == Value(n)
  {
    Pow2Of128();
    DivUnique(n.hi, W128, 0, n.hi);
    assert n.lo / Pow2(0) == n.lo;
  }

  lemma {:induction false} TopStep(n: U256, i: nat)
    requires i < 256
    ensures Top(n, i) == 2 * Top(n, i + 1) + BitAt(n, i)
  {
    if i >= 128 {
      HalfStep(n.hi, Pow2(i - 128));
    } else if i == 127 {
      Pow2Of128();
      HalfStep(n.lo, W127);
      DivUnique(n.lo, W128, 0, n.lo);
      assert n.hi / Pow2(0) == n.hi;
      assert Pow2(1) == 2;
    } else {
      HalfStep(n.lo, Pow2(i));
      assert Pow2(128 - i) == 2 * Pow2(127 - i);
      assert n.hi * (2 * Pow2(127 - i)) == 2 * (n.hi * Pow2(127 - i));
    }
  }

  lemma {:induction false} ClearWord(x: nat, j: nat)
    requires x % Pow2(j + 1) == 0
    ensures Bit(x, j) == 0 && x % Pow2(j) == 0
  {
    HalfStep(x, Pow2(j));
    if Bit(x, j) != 0 { MulMonotone(1, Bit(x, j), Pow2(j)); assert false; }
  }

  /** A multiple of m below another multiple of m leaves room for one more m. */
  lemma {:induction false} MultipleRoom(x: nat, m: nat, n: nat)
    requires m > 0 && x % m == 0 && x < n * m
    ensures x + m <= n * m
  {
    var a := x / m;
    if a >= n { MulMonotone(n, a, m); }
    MulMonotone(a + 1, n, m);
  }

  lemma {:induction false} NextMultiple(x: nat, p: nat)
    requires p > 0 && x % p == 0
    ensures (x + p) / p == x / p + 1 && (x + p) % p == 0
  {
    DivUnique(x + p, p, x / p + 1, 0);
  }

  lemma {:induction false} SetWord(x: U128, j: nat)
    requires j < 128 && x % Pow2(j + 1) == 0
    ensures SetBit(x, j) == x + Pow2(j) < W128
    ensures (x + Pow2(j)) / Pow2(j) == x / Pow2(j) + 1 && (x + Pow2(j)) % Pow2(j) == 0
  {
    hide Pow2;
    ClearWord(x, j);
    NextMultiple(x, Pow2(j));
    WordRoom(x, j);
  }

  lemma {:induction false} WordRoom(x: U128, j: nat)
    requires j < 128 && x % Pow2(j + 1) == 0
    ensures x + Pow2(j) < W128
  {
    assert Pow2(j) < Pow2(j + 1);
    hide Pow2;
    Pow2Of128();
    Pow2Add(127 - j, j + 1);
    MultipleRoom(x, Pow2(j + 1), Pow2(127 - j));
  }

  /** Leaving quotient bit `i` alone. */
  lemma {:induction false} KeepBit(q: U256, i: nat)
    requires i < 256 && Clear(q, i + 1)
    ensures Clear(q, i) && Top(q, i) == 2 * Top(q, i + 1)
  {
    TopStep(q, i);
    if i >= 128 {
      ClearWord(q.hi, i - 128);
    } else if i == 127 {
      assert q.lo == 0;
      DivUnique(0, Pow2(127), 0, 0);
    } else {
      ClearWord(q.lo, i);
    }
  }

  lemma {:induction false} SetHi(q: U256, i: nat)
    requires 128 <= i < 256 && Clear(q, i + 1)
    ensures SetBit(q.hi, i - 128) < W128
    ensures var q' := q.(hi := SetBit(q.hi, i - 128)); Clear(q', i) && Top(q', i) == 2 * Top(q, i + 1) + 1
  {
    SetWord(q.hi, i - 128);
    KeepBit(q, i);
  }

  lemma {:induction false} SetLo(q: U256, i: nat)
    requires i < 128 && Clear(q, i + 1)
    ensures SetBit(q.lo, i) < W128
    ensures var q' := q.(lo := SetBit(q.lo, i)); Clear(q', i) && Top(q', i) == 2 * Top(q, i + 1) + 1
  {
    if i == 127 { DivUnique(0, Pow2(128), 0, 0); }
    SetWord(q.lo, i);
    KeepBit(q, i);
  }

  /** Division of the leading bits of `n`, down to bit `k`, has produced `q` and left `rem`. */
  ghost predicate Partial(n: U256, q: U256, d: nat, rem: int, k: nat)
    requires k <= 256
  {
    0 <= rem < d && Clear(q, k) && Top(n, k) == Top(q, k) * d + rem
  }

  /** One more bit of `n`: the quotient bit `b` says whether `d` is subtracted from the shifted remainder. */
  lemma {:induction false} PartialStep(n: U256, q: U256, q': U256, d: nat, rem: int, i: nat, b: nat)
    requires i < 256 && Partial(n, q, d, rem, i + 1) && b <= 1
    requires Clear(q', i) && Top(q', i) == 2 * Top(q, i + 1) + b
    requires b == 1 <==> 2 * rem + BitAt(n, i) >= d
    ensures Partial(n, q', d, 2 * rem + BitAt(n, i) - b * d, i)
  {
    hide Clear, Top, BitAt;
    TopStep(n, i);
    BitBound(n, i);
    var u := Top(q, i + 1);
    assert (2 * u + b) * d == 2 * (u * d) + b * d;
  }

  /** The same round on machine words: the shift may lose the top bit, and then the subtraction wraps. */
  lemma {:induction false} RemainderStep(rem: U128, d: U128, bit: nat)
    requires rem < d && bit <= 1
    ensures var r, w := 2 * rem + bit, Wrap(rem * 2) + bit;
      && w < W128
      && (rem / W127 == 1 || w >= d <==> r >= d)
      && (r >= d ==> Wrap(w - d) == r - d)
      && (r < d ==> w == r)
  {
  }

  /** Bit-by-bit long division of a 256-bit number. */
  method DivMod256(n: U256, d: U128) returns (q: U256, rem: U128)
    requires d > 0
    ensures Value(n) == Value(q) * d + rem && rem < d
  {
    if n.hi == 0 && n.lo < d {
      return U256(0, 0), n.lo;
    }
    if n.hi == 0 {
      QuotientShrinks(n.lo, d);
      return U256(n.lo / d, 0), n.lo % d;
    }
    hide Top, Clear, SetBit, Bit, Wrap, BitAt, Partial, Value;
    q, rem := U256(0, 0), 0;
    PartialStart(n, d);
    var i: int := 255;
    while i >= 0
      invariant -1 <= i <= 255
      invariant Partial(n, q, d, rem, i + 1)
    {
      ghost var q0, rem0 := q, rem;
      PartialClear(n, q, d, rem, i + 1);
      var remHigh := rem / W127 == 1;
      rem := Wrap(rem * 2);
      var bit := if i >= 128 then Bit(n.hi, i - 128) else Bit(n.lo, i);
      BitBound(n, i);
      RemainderStep(rem0, d, bit);
      rem := rem + bit;
      if remHigh || rem >= d {
        rem := Wrap(rem - d);
        if i >= 128 {
          SetHi(q, i);
          q := q.(hi := SetBit(q.hi, i - 128));
        } else {
          SetLo(q, i);
          q := q.(lo := SetBit(q.lo, i));
        }
        PartialStep(n, q0, q, d, rem0, i, 1);
      } else {
        KeepBit(q, i);
        PartialStep(n, q0, q, d, rem0, i, 0);
      }
      i := i - 1;
    }
    PartialDone(n, q, d, rem);
  }

  lemma {:induction false} PartialClear(n: U256, q: U256, d: nat, rem: int, k: nat)
    requires k <= 256 && Partial(n, q, d, rem, k)
    ensures Clear(q, k) && 0 <= rem < d
  {
  }

  lemma {:induction false} PartialStart(n: U256, d: nat)
    requires d > 0
    ensures Partial(n, U256(0, 0), d, 0, 256)
  {
    TopBounds(n);
    TopBounds(U256(0, 0));
  }

  lemma {:induction false} PartialDone(n: U256, q: U256, d: nat, rem: int)
    requires Partial(n, q, d, rem, 0)
    ensures Value(n) == Value(q) * d + rem && 0 <= rem < d
  {
    TopBounds(n);
    TopBounds(q);
  }

  lemma {:induction false} BitBound(n: U256, i: nat)
    requires i < 256
    ensures BitAt(n, i) == (if i >= 128 then Bit(n.hi, i - 128) else Bit(n.lo, i)) && 0 <= BitAt(n, i) <= 1
  {
  }

  lemma {:induction false} QuotientShrinks(x: nat, d: nat)
    requires d > 0
    ensures 0 <= x / d <= x && x == (x / d) * d + x % d
  {
    MulMonotone(1, d, x / d);
  }

  // ---- signed results ----

  const SCALE_FACTOR: int := 1_000_000_000_000_000_000

  /** decimal_result_t: the raw value, the raw remainder and the raw overflow. */
  datatype DecimalResult = DecimalResult(value: I128, error: I128, overflow: I128)

  /** Negation in a 128-bit signed word. */
  function Negate(v: I128): I128 { if v == -W127 then v else 0 - v }

  function PackResult(quot: U256, rem: U128, negative: bool): DecimalResult {
    var fits := quot.hi == 0 && quot.lo <= W127 - 1;
    var raw := ToSigned(if fits then quot.lo else quot.lo % W127);
    var over := if fits then 0 else if quot.hi != 0 then ToSigned(quot.hi) else 1;
    var err := ToSigned(rem);
    if negative then DecimalResult(Negate(raw), Negate(err), Negate(over)) else DecimalResult(raw, err, over)
  }

  function Sign(negative: bool): int { if negative then -1 else 1 }

  /** A word that keeps its value when it is read as a signed number and given the sign. */
  predicate CarriesSign(x: U128, negative: bool) { x < W127 || (negative && x == W127) }

  /** What packing keeps of any quotient and remainder: overflow is reported exactly if the value does not fit, the
      value is kept modulo 2^127, and the remainder and the upper word are kept exactly if they can carry the sign. */
  lemma {:induction false} PackExact(quot: U256, rem: U128, negative: bool)
    ensures var r := PackResult(quot, rem, negative);
      && (r.error == Sign(negative) * rem <==> CarriesSign(rem, negative))
      && (r.overflow == 0 <==> Value(quot) < W127)
      && (r.overflow == 0 ==> r.value == Sign(negative) * Value(quot))
      && (r.overflow != 0 ==>
            && r.value == Sign(negative) * (Value(quot) % W127)
            && (r.overflow == Sign(negative) * (if quot.hi != 0 then quot.hi else 1) <==> CarriesSign(quot.hi, negative)))
  {
    assert W128 == 2 * W127;
    var h, l := quot.hi, quot.lo;
    DivUnique(Value(quot), W127, 2 * h + l / W127, l % W127);
  }

  function Abs(x: int): nat { if x < 0 then 0 - x else x }

  /** `v * d + err` is exactly `x`, with `v` truncated toward zero. */
  ghost predicate Truncates(x: int, d: nat, v: int, err: int) {
    x == v * d + err && Abs(err) < d && (x >= 0 ==> v >= 0 && err >= 0) && (x <= 0 ==> v <= 0 && err <= 0)
  }

  /** Dividing magnitudes and putting the sign back truncates. */
  lemma {:induction false} SignedDivision(x: int, d: nat, q: nat, rem: nat, negative: bool)
    requires Abs(x) == q * d + rem && rem < d
    requires if negative then x <= 0 else x >= 0
    ensures Truncates(x, d, Sign(negative) * q, Sign(negative) * rem)
    ensures q == Abs(x) / d
  {
    DivUnique(Abs(x), d, q, rem);
    assert (0 - q) * d == 0 - q * d;
  }

  lemma {:induction false} SignOfProduct(a: int, b: int)
    ensures Abs(a * b) == Abs(a) * Abs(b)
    ensures (a < 0) != (b < 0) ==> a * b <= 0
    ensures (a < 0) == (b < 0) ==> a * b >= 0
  {
  }

  /** The quotients of both operations have upper words far below 2^127. */
  lemma {:induction false} UpperWordSmall(q: U256, x: nat, d: nat, rem: nat)
    requires x == Value(q) * d + rem && d > 0
    requires x <= W127 * SCALE_FACTOR || (d == SCALE_FACTOR && x <= W127 * W127)
    ensures q.hi < W127
  {
    if x <= W127 * SCALE_FACTOR {
      MulMonotone(1, d, Value(q));
    }
  }

  /** `r` is the packed quotient of `x` by `d`. */
  ghost predicate PackedQuotient(x: int, d: nat, r: DecimalResult)
    requires d > 0
  {
    && (r.overflow != 0 <==> Abs(x) / d > W127 - 1)
    && (r.overflow == 0 ==> Truncates(x, d, r.value, r.error))
    && (r.overflow != 0 ==> (r.overflow > 0 <==> x > 0))
    && Abs(r.error) == Abs(x) % d
  }

  lemma {:induction false} PackedDivision(x: int, d: nat, quot: U256, rem: U128, negative: bool)
    requires Abs(x) == Value(quot) * d + rem && rem < d <= W127
    requires if negative then x <= 0 else x >= 0
    requires Abs(x) <= W127 * SCALE_FACTOR || (d == SCALE_FACTOR && Abs(x) <= W127 * W127)
    ensures PackedQuotient(x, d, PackResult(quot, rem, negative))
  {
    hide Value, PackResult;
    UpperWordSmall(quot, Abs(x), d, rem);
    SignedDivision(x, d, Value(quot), rem, negative);
    DivUnique(Abs(x), d, Value(quot), rem);
    PackExact(quot, rem, negative);
  }

  /** decimal mul: exact product over 10^18, truncated, with its remainder, unless it overflows. */
  method Mul(a: I128, b: I128) returns (r: DecimalResult)
    ensures PackedQuotient(a * b, SCALE_FACTOR, r)
  {
    hide Value, Mul256, PackResult, PackedQuotient;
    var negative := (a < 0) != (b < 0);
    var absA, absB := ToUnsigned(a), ToUnsigned(b);
    var product := Mul256(absA, absB);
    Mul256Exact(absA, absB);
    var quot, rem := DivMod256(product, SCALE_FACTOR);
    SignOfProduct(a, b);
    MulBound(absA, absB, W127);
    PackedDivision(a * b, SCALE_FACTOR, quot, rem, negative);
    r := PackResult(quot, rem, negative);
  }

  /** operator*: the value, or std::overflow_error. */
  method Times(a: I128, b: I128) returns (ok: bool, v: I128)
    ensures ok <==> Abs(a * b) / SCALE_FACTOR <= W127 - 1
    ensures ok ==> exists err :: Truncates(a * b, SCALE_FACTOR, v, err)
  {
    var r := Mul(a, b);
    ok, v := r.overflow == 0, r.value;
  }

  datatype DivOutcome = DomainError | Quotient(r: DecimalResult)

  /** decimal div: exact quotient at scale 10^-18, truncated, with its remainder, unless it overflows. */
  method Div(a: I128, b: I128) returns (o: DivOutcome)
    ensures o.DomainError? <==> b == 0
    ensures b != 0 ==> PackedQuotient((if b < 0 then 0 - a else a) * SCALE_FACTOR, Abs(b), o.r)
  {
    hide Value, Mul256, PackResult, PackedQuotient;
    if b == 0 { return DomainError; }
    var negative := (a < 0) != (b < 0);
    var absA, absB := ToUnsigned(a), ToUnsigned(b);
    var numerator := Mul256(absA, SCALE_FACTOR);
    Mul256Exact(absA, SCALE_FACTOR);
    var quot, rem := DivMod256(numerator, absB);
    ghost var x := (if b < 0 then 0 - a else a) * SCALE_FACTOR;
    PackedDivision(x, absB, quot, rem, negative);
    o := Quotient(PackResult(quot, rem, negative));
  }
}
