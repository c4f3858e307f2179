/** Comparing scaled decimals in 128-bit integers (keeper/src/price_watcher.rs).
    Arithmetic is the release build's: saturating where the code asks for it,
    wrapping otherwise (keeper/Cargo.toml sets no overflow checks). */
module PriceCompare {
  import opened Common
  import opened AccountState

  const I128_MAX: int := 0x7FFF_FFFF_FFFF_FFFF_FFFF_FFFF_FFFF_FFFF
  const TWO_128: int := 0x1_0000_0000_0000_0000_0000_0000_0000_0000

  function SatI128(x: int): int {
    if x > I128_MAX then I128_MAX else if x < -I128_MAX - 1 then -I128_MAX - 1 else x
  }

  function WrapI128(x: int): int {
    var r := x % TWO_128;
    if r > I128_MAX then r - TWO_128 else r
  }

  /** Saturation keeps a signed 128-bit integer as it is and moves any other to
      the nearer end of the range; wrapping keeps the remainder modulo 2^128. */
  lemma Int128(x: int)
    ensures var sat, wrap := SatI128(x), WrapI128(x);
            var low, high := -170141183460469231731687303715884105728, 170141183460469231731687303715884105727;
            && low <= sat <= high && low <= wrap <= high
            && (low <= x <= high ==> sat == x && wrap == x) && (x > high ==> sat == high) && (x < low ==> sat == low)
            && (wrap - x) % 340282366920938463463374607431768211456 == 0
  {
    var r := x % TWO_128;
    assert x == x / TWO_128 * TWO_128 + r;
    SameRemainder(x, x / TWO_128, r);
  }

  lemma SameRemainder(x: int, q: int, r: int)
    requires x == q * TWO_128 + r && 0 <= r < TWO_128
    ensures (r - x) % TWO_128 == 0 && (r - TWO_128 - x) % TWO_128 == 0
  {
    assert r - x == (-q) * TWO_128 && r - TWO_128 - x == (-q - 1) * TWO_128;
  }

  function Pow10(k: nat): (p: int)
    ensures p >= 1
  {
    if k == 0 then 1 else 10 * Pow10(k - 1)
  }

  /** `10i128.saturating_pow(k)` */
  function SatPow10(k: nat): int {
    SatI128(Pow10(k))
  }

  datatype Decimal = Decimal(raw: int, expo: I32)

  /** `ratio_compare`: is base/quote at most (0) or at least (1) the threshold?
      The exponent difference is cast to u32, so it is taken modulo 2^32. */
  function RatioCompare(comparator: Byte, base: Decimal, quote: Decimal, threshold: I64,
                        thresholdExpo: I32): Option<bool> {
    if quote.raw == 0 then None
    else
      var exp := thresholdExpo + quote.expo - base.expo;
      if exp >= 0 then
        var rhs := SatI128(SatI128(quote.raw * threshold) * SatPow10(exp % TWO_32));
        Compare(comparator, base.raw, rhs)
      else
        var scaled := SatI128(base.raw * SatPow10((-exp) % TWO_32));
        Compare(comparator, scaled, SatI128(quote.raw * threshold))
  }

  function Compare(comparator: Byte, a: int, b: int): Option<bool> {
    if comparator == 0 then Some(a <= b)
    else if comparator == 1 then Some(a >= b)
    else None
  }

  /** Brings two decimals to the smaller exponent; the product may wrap. */
  function Align(a: Decimal, b: Decimal): (int, int) {
    if a.expo > b.expo then (WrapI128(a.raw * SatPow10(a.expo - b.expo)), b.raw)
    else if b.expo > a.expo then (a.raw, WrapI128(b.raw * SatPow10(b.expo - a.expo)))
    else (a.raw, b.raw)
  }

  function CrossedBelow(price: Decimal, threshold: Decimal): bool {
    var (a, b) := Align(price, threshold);
    a <= b
  }

  function CrossedAbove(price: Decimal, threshold: Decimal): bool {
    var (a, b) := Align(price, threshold);
    a >= b
  }

  // ---- what the answers should be, in exact arithmetic -------------------------------

  /** 10^e for any integer exponent. */
  ghost function Scale(e: int): (p: real)
    ensures p > 0.0
  {
    if e >= 0 then Pow10(e) as real else 1.0 / (Pow10(-e) as real)
  }

  ghost function Value(d: Decimal): real {
    d.raw as real * Scale(d.expo)
  }

  ghost predicate RatioHolds(comparator: Byte, base: Decimal, quote: Decimal, threshold: Decimal)
    requires quote.raw != 0
  {
    NonzeroValue(quote);
    if comparator == 0 then Value(base) / Value(quote) <= Value(threshold)
      else Value(base) / Value(quote) >= Value(threshold)
  }

  lemma NonzeroValue(d: Decimal)
    requires d.raw != 0
    ensures Value(d) != 0.0 && (d.raw > 0 <==> Value(d) > 0.0)
  {
    SignOfProduct(d.raw as real, Scale(d.expo));
  }

  lemma SignOfProduct(x: real, p: real)
    requires p > 0.0
    ensures (x > 0.0 <==> x * p > 0.0) && (x < 0.0 <==> x * p < 0.0)
  {
  }

  lemma TenFold(p: real)
    requires p > 0.0
    ensures 1.0 / p == 10.0 * (1.0 / (10.0 * p))
  {
  }

  lemma ScaleStep(e: int)
    ensures Scale(e + 1) == 10.0 * Scale(e)
  {
    if e + 1 == 0 {
      assert Pow10(1) == 10;
    } else if e < -1 {
      var p := Pow10(-e - 1) as real;
      assert Pow10(-e) == 10 * Pow10(-e - 1);
      assert Scale(e) == 1.0 / (10.0 * p);
      TenFold(p);
    }
  }

  lemma ScaleZero()
    ensures Scale(0) == 1.0
  {
  }

  lemma {:induction false} ScaleAddNat(a: int, k: nat)
    ensures Scale(a + k) == Scale(a) * Scale(k)
  {
    hide Scale, Pow10;
    if k == 0 {
      ScaleZero();
    } else {
      ScaleAddNat(a, k - 1);
      ScaleStep(a + k - 1);
      ScaleStep(k - 1);
      Reassociate(Scale(a), Scale(k - 1));
      assert a + k - 1 == a + (k - 1);
    }
  }

  lemma Reassociate(x: real, y: real)
    ensures 10.0 * (x * y) == x * (10.0 * y)
  {
  }

  lemma ScaleAdd(a: int, b: int)
    ensures Scale(a + b) == Scale(a) * Scale(b)
  {
    hide Scale, Pow10;
    if b >= 0 {
      ScaleAddNat(a, b);
    } else {
      ScaleAddNat(a + b, -b);
      ScaleAddNat(b, -b);
      ScaleZero();
      assert a + b + -b == a && b + -b == 0;
      CancelInverse(Scale(a), Scale(a + b), Scale(b), Scale(-b));
    }
  }

  lemma CancelInverse(sa: real, sab: real, sb: real, sb': real)
    requires sa == sab * sb' && sb * sb' == 1.0
    ensures sab == sa * sb
  {
    calc {
      sa * sb;
      (sab * sb') * sb;
      sab * (sb * sb');
      sab;
    }
  }

  /** The comparison with all denominators cleared, in integers. */
  ghost predicate CrossHolds(comparator: Byte, b: int, qt: int, e: int) {
    var (l, r) := if e >= 0 then (b, qt * Pow10(e)) else (b * Pow10(-e), qt);
    if comparator == 0 then l <= r else l >= r
  }

  lemma DivideOut(b: real, q: real, t: real)
    requires q != 0.0
    ensures q > 0.0 ==> (b / q <= t <==> b <= t * q) && (b / q >= t <==> b >= t * q)
    ensures q < 0.0 ==> (b / q <= t <==> b >= t * q) && (b / q >= t <==> b <= t * q)
  {
    var x := b / q;
    assert b == x * q;
    if q > 0.0 {
      OrderTimes(x, t, q);
    } else {
      OrderTimes(x, t, -q);
      assert x * -q == -(x * q) && t * -q == -(t * q);
    }
  }

  lemma OrderTimes(x: real, y: real, p: real)
    requires p > 0.0
    ensures x <= y <==> x * p <= y * p
    ensures x >= y <==> x * p >= y * p
  {
    SignOfProduct(x - y, p);
    assert (x - y) * p == x * p - y * p;
  }

  /** Scaling both sides by the same power of ten. */
  lemma ClearScales(b: int, be: int, qt: int, qte: int)
    ensures var e := qte - be;
            (b as real * Scale(be) <= qt as real * Scale(qte) <==> CrossHolds(0, b, qt, e))
            && (b as real * Scale(be) >= qt as real * Scale(qte) <==> CrossHolds(1, b, qt, e))
  {
    hide Scale, Pow10;
    var e := qte - be;
    if e >= 0 {
      ScaleAdd(be, e);
      ScaleOfNat(e);
      ClearUp(b as real, qt as real, Scale(be), Scale(qte), Pow10(e) as real);
      assert (qt * Pow10(e)) as real == qt as real * Pow10(e) as real;
    } else {
      ScaleAdd(qte, -e);
      ScaleOfNat(-e);
      ClearUp(qt as real, b as real, Scale(qte), Scale(be), Pow10(-e) as real);
      assert (b * Pow10(-e)) as real == b as real * Pow10(-e) as real;
    }
  }

  lemma ScaleOfNat(k: nat)
    ensures Scale(k) == Pow10(k) as real
  {
  }

  lemma ClearUp(x: real, y: real, sx: real, sy: real, p: real)
    requires sx > 0.0 && sy == sx * p
    ensures x * sx <= y * sy <==> x <= y * p
    ensures x * sx >= y * sy <==> x >= y * p
  {
    OrderTimes(x, y * p, sx);
    assert y * (sx * p) == (y * p) * sx;
  }

  /** The real ratio comparison is the integer one for a positive quote, and the
      opposite one for a negative quote. */
  lemma RatioIsCross(comparator: Byte, base: Decimal, quote: Decimal, threshold: Decimal)
    requires comparator <= 1 && quote.raw != 0
    ensures var e := threshold.expo + quote.expo - base.expo;
            RatioHolds(comparator, base, quote, threshold) <==>
            CrossHolds(if quote.raw > 0 then comparator else 1 - comparator, base.raw, quote.raw * threshold.raw, e)
  {
    hide Scale, Pow10, CrossHolds;
    var qte := threshold.expo + quote.expo;
    var qt := quote.raw * threshold.raw;
    NonzeroValue(quote);
    DivideOut(Value(base), Value(quote), Value(threshold));
    ScaleAdd(threshold.expo, quote.expo);
    Product4(threshold.raw as real, Scale(threshold.expo), quote.raw as real, Scale(quote.expo));
    assert qt as real == quote.raw as real * threshold.raw as real;
    ClearScales(base.raw, base.expo, qt, qte);
  }

  lemma Product4(t: real, st: real, q: real, sq: real)
    ensures (t * st) * (q * sq) == (q * t) * (st * sq)
  {
    calc {
      (t * st) * (q * sq);
      ((t * st) * q) * sq;
      ((t * q) * st) * sq;
      (t * q) * (st * sq);
      (q * t) * (st * sq);
    }
  }
}
