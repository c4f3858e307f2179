/** When the integer comparisons decide exactly what the decimals say, and the
    exact limits beyond which they do not (keeper/src/price_watcher.rs). */
module PriceExactness {
  import opened Common
  import opened AccountState
  import opened PriceCompare

  const QUOTE_MAX: int := 0xFFFF_FFFF_FFFF_FFFF
  const I64_MAX: int := 0x7FFF_FFFF_FFFF_FFFF
  /** Number conversion limit of the front end's big integers. */
  const BN_LIMIT: int := 0x20_0000_0000_0000
  const PRODUCT_MAX: int := QUOTE_MAX * (I64_MAX + 1)

  lemma {:induction false} PowMonotone(j: nat, k: nat)
    requires j <= k
    ensures Pow10(j) <= Pow10(k)
  {
    if j == k {
    } else {
      PowMonotone(j, k - 1);
    }
  }

  lemma PowTable()
    ensures Pow10(18) == 1_000_000_000_000_000_000
    ensures Pow10(19) == 10_000_000_000_000_000_000
    ensures Pow10(20) == 100_000_000_000_000_000_000
    ensures Pow10(22) == 10_000_000_000_000_000_000_000
    ensures Pow10(23) == 100_000_000_000_000_000_000_000
    ensures Pow10(38) == 100_000_000_000_000_000_000_000_000_000_000_000_000
    ensures Pow10(39) == 1000_000_000_000_000_000_000_000_000_000_000_000_000
  {
    assert Pow10(6) == 1_000_000;
    assert Pow10(12) == 1_000_000_000_000;
    assert Pow10(18) == 1_000_000_000_000_000_000;
    assert Pow10(24) == 1_000_000_000_000_000_000_000_000;
    assert Pow10(30) == 1_000_000_000_000_000_000_000_000_000_000;
    assert Pow10(36) == 1_000_000_000_000_000_000_000_000_000_000_000_000;
  }

  lemma ProductBounds(q: int, t: I64)
    requires -I64_MAX - 1 <= q <= QUOTE_MAX
    ensures -PRODUCT_MAX <= q * t <= PRODUCT_MAX
    ensures PRODUCT_MAX < I128_MAX
  {
    AbsProduct(q, t);
    ProductLe(Abs(q), QUOTE_MAX, Abs(t), I64_MAX + 1);
  }

  function Abs(x: int): nat {
    if x < 0 then -x else x
  }

  lemma AbsProduct(q: int, t: int)
    ensures -(Abs(q) * Abs(t)) <= q * t <= Abs(q) * Abs(t)
  {
    assert (-q) * t == -(q * t) && q * (-t) == -(q * t) && (-q) * (-t) == q * t;
    if q >= 0 && t >= 0 {
      assert 0 <= q * t;
    } else if q < 0 && t < 0 {
      assert 0 <= (-q) * (-t);
    } else if q >= 0 {
      assert 0 <= q * (-t);
    } else {
      assert 0 <= (-q) * t;
    }
  }

  lemma ProductLe(a: int, c: int, b: int, d: int)
    requires 0 <= a <= c && 0 <= b <= d
    ensures 0 <= a * b <= c * d
  {
    assert a * b <= c * b;
    assert c * b <= c * d;
  }

  /** A value with a sign, times anything at least `m`, is at least `m` away from zero. */
  lemma TimesAtLeast(v: int, p: int, m: int)
    requires p >= m >= 0
    ensures v >= 1 ==> v * p >= m
    ensures v <= -1 ==> v * p <= -m
    ensures v == 0 ==> v * p == 0
  {
    if v >= 1 {
      ProductLe(1, v, p, p);
    } else if v <= -1 {
      ProductLe(1, -v, p, p);
      assert (-v) * p == -(v * p);
    }
  }

  /** Saturation of the power or of the product never changes a comparison with
      a value strictly inside the range. */
  lemma SaturationHarmless(v: int, c: int, k: nat)
    requires -I128_MAX < c < I128_MAX
    ensures SatI128(v * SatPow10(k)) <= c <==> v * Pow10(k) <= c
    ensures SatI128(v * SatPow10(k)) >= c <==> v * Pow10(k) >= c
  {
    if Pow10(k) > I128_MAX {
      TimesAtLeast(v, SatPow10(k), I128_MAX);
      TimesAtLeast(v, Pow10(k), I128_MAX);
    }
  }

  /** Two powers so large that every nonzero multiple is beyond the other side
      compare alike. */
  lemma HugeShiftsAgree(v: int, c: int, m: int, j: nat, k: nat)
    requires 0 <= m && -m < c < m && Pow10(j) >= m && Pow10(k) >= m
    ensures v * Pow10(j) <= c <==> v * Pow10(k) <= c
    ensures v * Pow10(j) >= c <==> v * Pow10(k) >= c
  {
    TimesAtLeast(v, Pow10(j), m);
    TimesAtLeast(v, Pow10(k), m);
  }

  ghost predicate Inputs(comparator: Byte, base: Decimal, quote: Decimal) {
    comparator <= 1 && -I64_MAX - 1 <= base.raw <= I64_MAX && -I64_MAX - 1 <= quote.raw <= QUOTE_MAX && quote.raw != 0
  }

  /** The exponent the code works with after the cast to u32. */
  function Truncated(e: int): int {
    if e >= 0 then e % TWO_32 else -((-e) % TWO_32)
  }

  /** Saturation included, the code decides the integer comparison at the
      truncated exponent. */
  lemma RatioCompareIsCross(comparator: Byte, base: Decimal, quote: Decimal, threshold: I64, te: I32)
    requires Inputs(comparator, base, quote)
    ensures var e := te + quote.expo - base.expo;
            RatioCompare(comparator, base, quote, threshold, te) == Some(
              if e >= 0 then CrossHolds(comparator, base.raw, quote.raw * threshold, e % TWO_32)
              else if (-e) % TWO_32 == 0 then CrossHolds(comparator, base.raw, quote.raw * threshold, 0)
              else CrossHolds(comparator, base.raw, quote.raw * threshold, -((-e) % TWO_32)))
  {
    hide Pow10;
    var e := te + quote.expo - base.expo;
    ProductBounds(quote.raw, threshold);
    if e >= 0 {
      SaturationHarmless(quote.raw * threshold, base.raw, e % TWO_32);
    } else {
      var k := (-e) % TWO_32;
      SaturationHarmless(base.raw, quote.raw * threshold, k);
      if k == 0 {
        PowZero();
      }
    }
  }

  lemma PowZero()
    ensures Pow10(0) == 1
  {
  }

  /** Shifts at which every decision is exact. Within u32 all are; beyond, those
      whose truncated power still dwarfs whatever it is compared with. */
  predicate ShiftSafe(e: int) {
    || -TWO_32 < e < TWO_32
    || (e >= TWO_32 && e % TWO_32 >= 19)
    || (e <= -TWO_32 && (-e) % TWO_32 >= 39)
  }

  lemma CrossUp(comparator: Byte, b: int, qt: int, e: int)
    requires comparator <= 1 && -I64_MAX - 1 <= b <= I64_MAX && e >= TWO_32 && e % TWO_32 >= 19
    ensures CrossHolds(comparator, b, qt, e % TWO_32) == CrossHolds(comparator, b, qt, e)
  {
    hide Pow10;
    PowTable();
    PowMonotone(19, e % TWO_32);
    PowMonotone(19, e);
    HugeShiftsAgree(qt, b, Pow10(19), e % TWO_32, e);
  }

  lemma CrossDown(comparator: Byte, b: int, qt: int, e: int)
    requires comparator <= 1 && -PRODUCT_MAX <= qt <= PRODUCT_MAX && e <= -TWO_32 && (-e) % TWO_32 >= 39
    ensures CrossHolds(comparator, b, qt, -((-e) % TWO_32)) == CrossHolds(comparator, b, qt, e)
  {
    hide Pow10;
    PowTable();
    PowMonotone(39, (-e) % TWO_32);
    PowMonotone(39, -e);
    HugeShiftsAgree(b, qt, Pow10(39), (-e) % TWO_32, -e);
  }

  lemma CrossAtTruncated(comparator: Byte, b: int, qt: int, e: int)
    requires comparator <= 1 && -I64_MAX - 1 <= b <= I64_MAX && -PRODUCT_MAX <= qt <= PRODUCT_MAX
    requires ShiftSafe(e)
    ensures CrossHolds(comparator, b, qt, Truncated(e)) == CrossHolds(comparator, b, qt, e)
  {
    hide CrossHolds;
    if e >= TWO_32 {
      CrossUp(comparator, b, qt, e);
    } else if e <= -TWO_32 {
      CrossDown(comparator, b, qt, e);
    }
  }

  /** There is no answer exactly for a quote of zero or an unknown comparator. */
  lemma NoAnswerIff(comparator: Byte, base: Decimal, quote: Decimal, threshold: I64, te: I32)
    ensures RatioCompare(comparator, base, quote, threshold, te).None? <==> quote.raw == 0 || comparator >= 2
  {
    hide SatPow10;
    var exp := te + quote.expo - base.expo;
    if exp >= 0 {
    } else {
    }
  }

  lemma RatioHoldsMeans(comparator: Byte, base: Decimal, quote: Decimal, threshold: Decimal)
    requires comparator <= 1 && quote.raw != 0
    ensures RatioHolds(comparator, base, quote, threshold) <==>
            (NonzeroValue(quote);
             if comparator == 0 then Value(base) / Value(quote) <= Value(threshold)
             else Value(base) / Value(quote) >= Value(threshold))
  {
  }

  /** At a safe shift the code's answer is the truth about base / quote against
      the threshold; a negative quote turns the question round. */
  lemma RatioCompareExact(comparator: Byte, base: Decimal, quote: Decimal, threshold: I64, te: I32)
    requires Inputs(comparator, base, quote) && ShiftSafe(te + quote.expo - base.expo)
    ensures RatioCompare(comparator, base, quote, threshold, te)
         == Some(RatioHolds(if quote.raw > 0 then comparator else 1 - comparator, base, quote, Decimal(threshold, te)))
    ensures quote.raw > 0 && comparator == 0 ==>
              RatioCompare(0, base, quote, threshold, te) ==
              Some(NonzeroValue(quote); Value(base) / Value(quote) <= Value(Decimal(threshold, te)))
    ensures quote.raw > 0 && comparator == 1 ==>
              RatioCompare(1, base, quote, threshold, te) ==
              Some(NonzeroValue(quote); Value(base) / Value(quote) >= Value(Decimal(threshold, te)))
  {
    RatioHoldsMeans(comparator, base, quote, Decimal(threshold, te));
    hide Pow10, CrossHolds, RatioHolds, RatioCompare, Value;
    var e := te + quote.expo - base.expo;
    RatioCompareIsCross(comparator, base, quote, threshold, te);
    ProductBounds(quote.raw, threshold);
    CrossAtTruncated(comparator, base.raw, quote.raw * threshold, e);
    RatioIsCross(if quote.raw > 0 then comparator else 1 - comparator, base, quote, Decimal(threshold, te));
  }

  /** All mantissas of the types the keeper feeds in are decided exactly. */
  ghost predicate ExactAt(be: I32, qe: I32, te: I32) {
    forall comparator: Byte, b: I64, q: int, t: I64 :: comparator <= 1 && 1 <= q <= QUOTE_MAX ==>
      RatioCompare(comparator, Decimal(b, be), Decimal(q, qe), t, te)
        == Some(RatioHolds(comparator, Decimal(b, be), Decimal(q, qe), Decimal(t, te)))
  }

  /** A decision that goes wrong at a positive shift that is not safe. */
  lemma UnsafeUpErrs(be: I32, qe: I32, te: I32)
    requires te + qe - be >= TWO_32 && !ShiftSafe(te + qe - be)
    ensures !ExactAt(be, qe, te)
  {
    hide Pow10, RatioHolds, RatioCompare;
    var e := te + qe - be;
    var k := e % TWO_32;
    PowTable();
    PowMonotone(k, 18);
    PowStrict(k, e);
    var b: I64 := Pow10(k);
    RatioCompareIsCross(1, Decimal(b, be), Decimal(1, qe), 1, te);
    RatioIsCross(1, Decimal(b, be), Decimal(1, qe), Decimal(1, te));
    assert CrossHolds(1, b, 1, k) && !CrossHolds(1, b, 1, e);
  }

  lemma UnsafeDownErrs(be: I32, qe: I32, te: I32)
    requires te + qe - be <= -TWO_32 && !ShiftSafe(te + qe - be)
    ensures !ExactAt(be, qe, te)
  {
    hide Pow10, RatioHolds, RatioCompare;
    var e := te + qe - be;
    var k := (-e) % TWO_32;
    PowTable();
    PowZero();
    PowMonotone(k, 38);
    PowMonotone(39, -e);
    RatioCompareIsCross(0, Decimal(1, be), Decimal(QUOTE_MAX, qe), I64_MAX, te);
    RatioIsCross(0, Decimal(1, be), Decimal(QUOTE_MAX, qe), Decimal(I64_MAX, te));
    assert CrossHolds(0, 1, QUOTE_MAX * I64_MAX, -k) && !CrossHolds(0, 1, QUOTE_MAX * I64_MAX, e);
  }

  lemma UnsafeShiftErrs(be: I32, qe: I32, te: I32)
    requires !ShiftSafe(te + qe - be)
    ensures !ExactAt(be, qe, te)
  {
    hide ExactAt;
    if te + qe - be >= TWO_32 {
      UnsafeUpErrs(be, qe, te);
    } else {
      UnsafeDownErrs(be, qe, te);
    }
  }

  lemma PowStrict(j: nat, k: nat)
    requires j < k
    ensures Pow10(j) < Pow10(k)
  {
  }

  /** Exactly the exponents at which no decision is ever wrong. */
  lemma ExactIffShiftSafe(be: I32, qe: I32, te: I32)
    ensures ExactAt(be, qe, te) <==> ShiftSafe(te + qe - be)
  {
    if ShiftSafe(te + qe - be) {
      forall comparator: Byte, b: I64, q: int, t: I64 | comparator <= 1 && 1 <= q <= QUOTE_MAX
        ensures RatioCompare(comparator, Decimal(b, be), Decimal(q, qe), t, te)
             == Some(RatioHolds(comparator, Decimal(b, be), Decimal(q, qe), Decimal(t, te)))
      {
        RatioCompareExact(comparator, Decimal(b, be), Decimal(q, qe), t, te);
      }
    } else {
      UnsafeShiftErrs(be, qe, te);
    }
  }

  // ---- single-feed comparison ------------------------------------------------------

  ghost predicate Crosses(comparator: Byte, price: Decimal, threshold: Decimal) {
    if comparator == 0 then Value(price) <= Value(threshold) else Value(price) >= Value(threshold)
  }

  function Crossed(comparator: Byte, price: Decimal, threshold: Decimal): bool {
    if comparator == 0 then CrossedBelow(price, threshold) else CrossedAbove(price, threshold)
  }

  function Gap(a: Decimal, b: Decimal): nat {
    if a.expo >= b.expo then a.expo - b.expo else b.expo - a.expo
  }

  /** Up to a gap of 19 digits no i64 mantissa overflows. */
  lemma SmallGapFits(v: I64, g: nat)
    requires g <= 19
    ensures SatPow10(g) == Pow10(g) && WrapI128(v * Pow10(g)) == v * Pow10(g)
  {
    PowTable();
    PowMonotone(g, 19);
    PowMonotone(0, g);
    AbsProduct(v, Pow10(g));
    ProductLe(Abs(v), I64_MAX + 1, Pow10(g), Pow10(19));
    WrapFits(v * Pow10(g));
  }

  lemma WrapFits(x: int)
    requires -I128_MAX - 1 <= x <= I128_MAX
    ensures WrapI128(x) == x
  {
    if x < 0 {
      assert (x + TWO_128) % TWO_128 == x + TWO_128;
      assert x % TWO_128 == (x + TWO_128) % TWO_128;
    }
  }

  lemma SingleFeedIsCross(comparator: Byte, price: Decimal, threshold: Decimal)
    requires comparator <= 1
    ensures Crosses(comparator, price, threshold) <==>
            CrossHolds(comparator, price.raw, threshold.raw, threshold.expo - price.expo)
  {
    hide Pow10, Scale, CrossHolds;
    ClearScales(price.raw, price.expo, threshold.raw, threshold.expo);
  }

  /** Where the scaled mantissa fits, the decision is exact. */
  lemma FittingExact(comparator: Byte, price: Decimal, threshold: Decimal)
    requires comparator <= 1
    requires var g := Gap(price, threshold);
             && SatPow10(g) == Pow10(g)
             && (price.expo > threshold.expo ==> WrapI128(price.raw * Pow10(g)) == price.raw * Pow10(g))
             && (price.expo < threshold.expo ==> WrapI128(threshold.raw * Pow10(g)) == threshold.raw * Pow10(g))
    ensures Crossed(comparator, price, threshold) <==> Crosses(comparator, price, threshold)
  {
    hide Pow10, Crosses;
    SingleFeedIsCross(comparator, price, threshold);
    PowZero();
  }

  lemma SmallGapExact(comparator: Byte, price: Decimal, threshold: Decimal)
    requires comparator <= 1 && Gap(price, threshold) <= 19
    requires -I64_MAX - 1 <= price.raw <= I64_MAX && -I64_MAX - 1 <= threshold.raw <= I64_MAX
    ensures Crossed(comparator, price, threshold) <==> Crosses(comparator, price, threshold)
  {
    SmallGapFits(price.raw, Gap(price, threshold));
    SmallGapFits(threshold.raw, Gap(price, threshold));
    FittingExact(comparator, price, threshold);
  }

  /** The two comparisons against the values the decimals stand for. */
  lemma SmallGapMeans(price: Decimal, threshold: Decimal)
    requires Gap(price, threshold) <= 19
    requires -I64_MAX - 1 <= price.raw <= I64_MAX && -I64_MAX - 1 <= threshold.raw <= I64_MAX
    ensures CrossedBelow(price, threshold) <==> Value(price) <= Value(threshold)
    ensures CrossedAbove(price, threshold) <==> Value(price) >= Value(threshold)
  {
    hide CrossedBelow, CrossedAbove, Value;
    SmallGapExact(0, price, threshold);
    SmallGapExact(1, price, threshold);
  }

  /** From a gap of 20 digits on some mantissa wraps to a negative number. */
  lemma LargeGapWraps(g: nat) returns (v: I64)
    requires g >= 20
    ensures v > 0 && WrapI128(v * SatPow10(g)) < 0
    ensures g >= 23 ==> v < BN_LIMIT
  {
    var p := SatPow10(g);
    PowTable();
    PowMonotone(20, g);
    if g >= 23 { PowMonotone(23, g); }
    assert Pow10(20) <= p <= I128_MAX;
    var half := I128_MAX + 1;
    v := FirstOver(half, p);
    var x := v * p;
    assert half < x < TWO_128;
    assert x % TWO_128 == x;
  }

  lemma FirstOver(half: int, p: int) returns (v: I64)
    requires half == I128_MAX + 1 && Pow10(20) <= p <= I128_MAX
    ensures v > 0 && half < v * p <= half + p
    ensures p >= Pow10(23) ==> v < BN_LIMIT
  {
    hide Pow10, SatPow10;
    PowTable();
    var d := half / p;
    DivisionBounds(half, p, d);
    QuotientFits(half, p, d);
    v := d + 1;
    assert v * p == d * p + p;
  }

  lemma DivisionBounds(x: int, p: int, d: int)
    requires x > 0 && p > 0 && d == x / p
    ensures 0 <= d && d * p <= x < d * p + p
  {
  }

  lemma QuotientFits(half: int, p: int, d: int)
    requires half == I128_MAX + 1 && p >= Pow10(20) && 0 <= d && d * p <= half
    ensures d < I64_MAX
    ensures p >= Pow10(23) ==> d < BN_LIMIT - 1
  {
    PowTable();
    if d >= I64_MAX {
      ProductLe(I64_MAX, d, Pow10(20), p);
    }
    if p >= Pow10(23) && d >= BN_LIMIT - 1 {
      ProductLe(BN_LIMIT - 1, d, Pow10(23), p);
    }
  }

  ghost predicate SingleFeedExact(pe: I32, te: I32) {
    forall comparator: Byte, p: I64, t: I64 :: comparator <= 1 ==>
      (Crossed(comparator, Decimal(p, pe), Decimal(t, te)) <==> Crosses(comparator, Decimal(p, pe), Decimal(t, te)))
  }

  lemma LargeGapErrs(pe: I32, te: I32)
    requires Gap(Decimal(0, pe), Decimal(0, te)) >= 20
    ensures !SingleFeedExact(pe, te)
  {
    var g := Gap(Decimal(0, pe), Decimal(0, te));
    var v := LargeGapWraps(g);
    if pe > te {
      var p, t := Decimal(v, pe), Decimal(0, te);
      SignOfProduct(v as real, Scale(pe));
      assert Value(t) == 0.0;
      assert Crossed(0, p, t) && !Crosses(0, p, t);
    } else {
      var p, t := Decimal(0, pe), Decimal(v, te);
      SignOfProduct(v as real, Scale(te));
      assert Value(p) == 0.0;
      assert Crossed(1, p, t) && !Crosses(1, p, t);
    }
  }

  /** The tight bound: all decisions exact up to a gap of 19, not beyond. */
  lemma SingleFeedExactIffGap(pe: I32, te: I32)
    ensures SingleFeedExact(pe, te) <==> Gap(Decimal(0, pe), Decimal(0, te)) <= 19
  {
    if Gap(Decimal(0, pe), Decimal(0, te)) <= 19 {
      forall comparator: Byte, p: I64, t: I64 | comparator <= 1
        ensures Crossed(comparator, Decimal(p, pe), Decimal(t, te)) <==>
                Crosses(comparator, Decimal(p, pe), Decimal(t, te))
      {
        SmallGapExact(comparator, Decimal(p, pe), Decimal(t, te));
      }
    } else {
      LargeGapErrs(pe, te);
    }
  }

  /** The comparisons the front end's rules lead to: a positive feed value
      against a threshold it was able to write. */
  ghost predicate StoredExact(pe: I32, te: I32) {
    forall comparator: Byte, p: I64, t: int :: comparator <= 1 && p > 0 && -BN_LIMIT < t < BN_LIMIT ==>
      (Crossed(comparator, Decimal(p, pe), Decimal(t, te)) <==> Crosses(comparator, Decimal(p, pe), Decimal(t, te)))
  }

  lemma StoredFits(comparator: Byte, price: Decimal, threshold: Decimal)
    requires comparator <= 1 && 0 < price.raw <= I64_MAX && -BN_LIMIT < threshold.raw < BN_LIMIT
    requires -22 <= price.expo - threshold.expo <= 19
    ensures Crossed(comparator, price, threshold) <==> Crosses(comparator, price, threshold)
  {
    var g := Gap(price, threshold);
    hide Pow10, Crosses, Crossed;
    PowTable();
    if price.expo >= threshold.expo {
      SmallGapFits(price.raw, g);
    } else {
      PowMonotone(g, 22);
      ThresholdFits(threshold.raw, Pow10(g));
    }
    FittingExact(comparator, price, threshold);
  }

  lemma ThresholdFits(t: int, p: int)
    requires -BN_LIMIT < t < BN_LIMIT && 1 <= p <= 10_000_000_000_000_000_000_000
    ensures WrapI128(t * p) == t * p
  {
    AbsProduct(t, p);
    ProductLe(Abs(t), BN_LIMIT, p, 10_000_000_000_000_000_000_000);
    WrapFits(t * p);
  }

  /** Exactly the exponents at which all of them are decided exactly. */
  lemma StoredExactIffGap(pe: I32, te: I32)
    ensures StoredExact(pe, te) <==> -22 <= pe - te <= 19
  {
    hide Crosses, Crossed, Pow10;
    if -22 <= pe - te <= 19 {
      forall comparator: Byte, p: I64, t: int | comparator <= 1 && p > 0 && -BN_LIMIT < t < BN_LIMIT
        ensures Crossed(comparator, Decimal(p, pe), Decimal(t, te)) <==>
                Crosses(comparator, Decimal(p, pe), Decimal(t, te))
      {
        StoredFits(comparator, Decimal(p, pe), Decimal(t, te));
      }
    } else if pe > te {
      FeedWrapErrs(pe, te);
    } else {
      ThresholdWrapErrs(pe, te);
    }
  }

  lemma FeedWrapErrs(pe: I32, te: I32)
    requires pe - te >= 20
    ensures !StoredExact(pe, te)
  {
    hide Pow10;
    var v := LargeGapWraps(pe - te);
    var p, t := Decimal(v, pe), Decimal(0, te);
    SignOfProduct(v as real, Scale(pe));
    assert Value(t) == 0.0;
    assert Crossed(0, p, t) && !Crosses(0, p, t);
  }

  lemma ThresholdWrapErrs(pe: I32, te: I32)
    requires te - pe >= 23
    ensures !StoredExact(pe, te)
  {
    hide Pow10, Crosses;
    PowTable();
    PowMonotone(23, te - pe);
    var v := LargeGapWraps(te - pe);
    var p, t := Decimal(1, pe), Decimal(v, te);
    TimesAtLeast(v, Pow10(te - pe), Pow10(23));
    SingleFeedIsCross(1, p, t);
    assert Crossed(1, p, t);
  }

  /** The ratio comparison against a quote of one agrees with the single-feed one. */
  lemma UnitQuoteAgrees(comparator: Byte, price: Decimal, threshold: Decimal)
    requires comparator <= 1 && Gap(price, threshold) <= 19
    requires -I64_MAX - 1 <= price.raw <= I64_MAX && -I64_MAX - 1 <= threshold.raw <= I64_MAX
    ensures RatioCompare(comparator, price, Decimal(1, 0), threshold.raw, threshold.expo) ==
            Some(Crossed(comparator, price, threshold))
  {
    hide Pow10, CrossHolds, RatioCompare, RatioHolds, Crossed, Crosses;
    SmallGapExact(comparator, price, threshold);
    RatioCompareExact(comparator, price, Decimal(1, 0), threshold.raw, threshold.expo);
    RatioIsCross(comparator, price, Decimal(1, 0), threshold);
    SingleFeedIsCross(comparator, price, threshold);
  }
}
