/** A rule on 1/feed stored as a rule on feed: comparator flipped, threshold
    replaced by its rounded reciprocal (src/lib/linked-chains.ts). The front
    end's floating-point division is modelled by exact rationals. */
module InvertedFeed {
  import opened AccountState
  import opened PriceCompare
  import opened PriceExactness

  /** Math.round: to nearest, halves upwards. */
  function Round(x: real): int {
    (x + 0.5).Floor
  }

  datatype StoredRule = StoredRule(comparator: Byte, threshold: int)

  /** What is written for "price below (0) or above (1) `target`" when the
      oracle quotes the inverse of the price, at threshold exponent `expo`. */
  ghost function Encode(comparator: Byte, target: real, expo: I32): StoredRule
    requires comparator <= 1 && target > 0.0
  {
    StoredRule(1 - comparator, Round(1.0 / target / Scale(expo)))
  }

  /** What the user asked for, given the feed's value. */
  ghost predicate UserWants(comparator: Byte, target: real, feed: real)
    requires feed > 0.0
  {
    if comparator == 0 then 1.0 / feed <= target else 1.0 / feed >= target
  }

  ghost predicate KeeperFires(rule: StoredRule, expo: I32, feed: real) {
    var threshold := rule.threshold as real * Scale(expo);
    if rule.comparator == 0 then feed <= threshold else feed >= threshold
  }

  // The encoder's two branches: the feed quotes the price itself, or its inverse.

  /** An inverse of nothing positive is refused; a threshold the big-integer
      conversion does not take is an error. */
  datatype Encoding = Refused | OutOfRange | Stored(rule: StoredRule)

  ghost function BuildRule(inverted: bool, comparator: Byte, target: real, expo: I32): Encoding
    requires comparator <= 1
  {
    if inverted && target <= 0.0 then Refused
    else
      var rule := if inverted then Encode(comparator, target, expo)
        else StoredRule(comparator, Round(target / Scale(expo)));
      if -BN_LIMIT < rule.threshold < BN_LIMIT then Stored(rule) else OutOfRange
  }

  /** What the user asked for when the feed may be the price or its inverse. */
  ghost predicate Wanted(inverted: bool, comparator: Byte, target: real, feed: real)
    requires feed > 0.0
  {
    if inverted then UserWants(comparator, target, feed)
    else if comparator == 0 then feed <= target else feed >= target
  }

  /** The feed value at which the user's decision changes. */
  ghost function Pivot(inverted: bool, target: real): real
    requires inverted ==> target > 0.0
  {
    if inverted then 1.0 / target else target
  }

  lemma RoundNear(x: real)
    ensures x - 0.5 < Round(x) as real <= x + 0.5
  {
  }

  lemma QuotientTimes(x: real, tick: real)
    requires tick > 0.0
    ensures x / tick * tick == x
  {
  }

  /** Rounding to a tick moves a value by half a tick at most. */
  lemma RoundToTick(x: real, q: real, tick: real)
    requires tick > 0.0 && q * tick == x
    ensures -(tick / 2.0) < Round(q) as real * tick - x <= tick / 2.0
  {
    RoundNear(q);
    HalfTick(Round(q) as real, q, tick, Round(q) as real * tick, x);
  }

  lemma HalfTick(r: real, q: real, tick: real, rt: real, qt: real)
    requires tick > 0.0 && -0.5 < r - q <= 0.5 && rt == r * tick && qt == q * tick
    ensures -(tick / 2.0) < rt - qt <= tick / 2.0
  {
    Difference(r, q, tick, r - q, rt, qt);
    WithinHalf(r - q, tick, rt - qt);
  }

  lemma WithinHalf(d: real, tick: real, dt: real)
    requires tick > 0.0 && -0.5 < d <= 0.5 && dt == d * tick
    ensures -(tick / 2.0) < dt <= tick / 2.0
  {
    var half := tick / 2.0;
    assert half == 0.5 * tick;
    OrderTimes(d, 0.5, tick);
    assert dt <= half;
    var low := -0.5;
    assert low * tick == -half;
    OrderTimes(d, low, tick);
    assert dt > -half;
  }

  lemma Difference(r: real, q: real, tick: real, d: real, rt: real, qt: real)
    requires d == r - q && rt == r * tick && qt == q * tick
    ensures d * tick == rt - qt
  {
  }

  /** The stored threshold is within half a tick of the reciprocal. */
  lemma ThresholdNear(comparator: Byte, target: real, expo: I32)
    requires comparator <= 1 && target > 0.0
    ensures -(Scale(expo) / 2.0) < StoredValue(comparator, target, expo) - 1.0 / target <= Scale(expo) / 2.0
  {
    hide Scale;
    var x, tick := 1.0 / target, Scale(expo);
    var q := x / tick;
    QuotientTimes(x, tick);
    RoundToTick(x, q, tick);
    assert Encode(comparator, target, expo).threshold == Round(q);
  }

  lemma ReciprocalOrder(feed: real, target: real)
    requires feed > 0.0 && target > 0.0
    ensures 1.0 / feed <= target <==> feed >= 1.0 / target
    ensures 1.0 / feed >= target <==> feed <= 1.0 / target
  {
    DivideOut(1.0, feed, target);
    DivideOut(1.0, target, feed);
  }

  /** The two disagree exactly when the feed lies between the reciprocal of the
      target and the stored threshold (on the side the comparison includes). */
  ghost predicate Between(comparator: Byte, x: real, s: real, feed: real) {
    if comparator == 0 then (x <= feed < s) || (s <= feed < x)
    else (x < feed <= s) || (s < feed <= x)
  }

  ghost predicate Disagree(comparator: Byte, target: real, expo: I32, feed: real)
    requires comparator <= 1 && target > 0.0 && feed > 0.0
  {
    KeeperFires(Encode(comparator, target, expo), expo, feed) != UserWants(comparator, target, feed)
  }

  ghost function StoredValue(comparator: Byte, target: real, expo: I32): real
    requires comparator <= 1 && target > 0.0
  {
    Encode(comparator, target, expo).threshold as real * Scale(expo)
  }

  lemma DisagreeIffBetween(comparator: Byte, target: real, expo: I32, feed: real)
    requires comparator <= 1 && target > 0.0 && feed > 0.0
    ensures Disagree(comparator, target, expo, feed) <==>
            Between(comparator, 1.0 / target, StoredValue(comparator, target, expo), feed)
  {
    hide Scale;
    ReciprocalOrder(feed, target);
  }

  /** More than half a tick away from the reciprocal the decisions agree. */
  lemma IntentPreserved(comparator: Byte, target: real, expo: I32, feed: real)
    requires comparator <= 1 && target > 0.0 && feed > 0.0
    requires feed - 1.0 / target > Scale(expo) / 2.0 || 1.0 / target - feed > Scale(expo) / 2.0
    ensures !Disagree(comparator, target, expo, feed)
  {
    hide Scale, Encode, Disagree;
    ThresholdNear(comparator, target, expo);
    DisagreeIffBetween(comparator, target, expo, feed);
  }

  /** More than half a tick away from where the user's decision changes. */
  ghost predicate Clear(inverted: bool, target: real, expo: I32, feed: real)
    requires inverted ==> target > 0.0
  {
    feed - Pivot(inverted, target) > Scale(expo) / 2.0 || Pivot(inverted, target) - feed > Scale(expo) / 2.0
  }

  /** Either branch: a rule is refused exactly for an inverse of nothing
      positive; a stored one decides as the user asked outside half a tick. */
  lemma BuiltRuleKeepsIntent(inverted: bool, comparator: Byte, target: real, expo: I32, feed: real)
    requires comparator <= 1 && feed > 0.0
    ensures var built := BuildRule(inverted, comparator, target, expo);
            && (built.Refused? <==> inverted && target <= 0.0)
            && (built.Stored? ==> -BN_LIMIT < built.rule.threshold < BN_LIMIT)
            && (built.Stored? && Clear(inverted, target, expo, feed) ==>
                  (KeeperFires(built.rule, expo, feed) <==> Wanted(inverted, comparator, target, feed)))
  {
    hide Scale, Round;
    if inverted && target > 0.0 {
      if Clear(inverted, target, expo, feed) {
        IntentPreserved(comparator, target, expo, feed);
      }
    } else if !inverted {
      QuotientTimes(target, Scale(expo));
      RoundToTick(target, target / Scale(expo), Scale(expo));
    }
  }

  /** A threshold is out of range exactly from half a tick below 2^53 ticks on,
      either way; so every ordinary one is stored. */
  lemma StoredIffInRange(inverted: bool, comparator: Byte, target: real, expo: I32)
    requires comparator <= 1 && (inverted ==> target > 0.0)
    ensures var ticks := Pivot(inverted, target) / Scale(expo);
            BuildRule(inverted, comparator, target, expo).Stored? <==>
              -9007199254740992.0 + 0.5 <= ticks < 9007199254740992.0 - 0.5
  {
    hide Scale;
    RoundWithin(Pivot(inverted, target) / Scale(expo), BN_LIMIT);
  }

  lemma RoundWithin(x: real, limit: int)
    ensures -limit < Round(x) < limit <==> -(limit as real) + 0.5 <= x < limit as real - 0.5
  {
  }

  /** At the feed's own exponent at most one raw value is decided differently. */
  lemma OneRawValueAtMost(comparator: Byte, target: real, expo: I32, p: int, feed: real, p': int, feed': real)
    requires comparator <= 1 && target > 0.0 && feed > 0.0 && feed' > 0.0
    requires feed == Value(Decimal(p, expo)) && feed' == Value(Decimal(p', expo))
    requires Disagree(comparator, target, expo, feed) && Disagree(comparator, target, expo, feed')
    ensures p == p'
  {
    hide Scale, Encode, Disagree;
    var s := StoredValue(comparator, target, expo);
    ThresholdNear(comparator, target, expo);
    DisagreeIffBetween(comparator, target, expo, feed);
    DisagreeIffBetween(comparator, target, expo, feed');
    OneMultiple(comparator, 1.0 / target, s, Scale(expo), p, feed, p', feed');
  }

  lemma Spacing(p: int, p': int, tick: real, feed: real, feed': real)
    requires tick > 0.0 && p > p' && feed == p as real * tick && feed' == p' as real * tick
    ensures feed - feed' >= tick
  {
    OrderTimes(1.0, p as real - p' as real, tick);
    assert (p as real - p' as real) * tick == feed - feed';
  }

  lemma OneMultiple(comparator: Byte, x: real, s: real, tick: real, p: int, feed: real, p': int, feed': real)
    requires tick > 0.0 && -(tick / 2.0) < s - x <= tick / 2.0
    requires feed == p as real * tick && feed' == p' as real * tick
    requires Between(comparator, x, s, feed) && Between(comparator, x, s, feed')
    ensures p == p'
  {
    if p > p' { Spacing(p, p', tick, feed, feed'); }
    if p' > p { Spacing(p', p, tick, feed', feed); }
  }

  /** End to end: the keeper's integer comparison of a stored rule gives the
      user's decision, for a feed more than half a tick from the turning point
      and exponents the comparison is exact at. */
  lemma StoredRuleKeepsIntent(inverted: bool, comparator: Byte, target: real, expo: I32, feed: Decimal)
    requires comparator <= 1 && 0 < feed.raw <= I64_MAX && -22 <= feed.expo - expo <= 19
    requires BuildRule(inverted, comparator, target, expo).Stored?
    requires Clear(inverted, target, expo, Value(feed))
    ensures var rule := BuildRule(inverted, comparator, target, expo).rule;
            Value(feed) > 0.0 &&
              (Crossed(rule.comparator, feed, Decimal(rule.threshold, expo)) <==>
               Wanted(inverted, comparator, target, Value(feed)))
  {
    hide Scale, Round, KeeperFires, Wanted, Crossed, Crosses;
    var rule := BuildRule(inverted, comparator, target, expo).rule;
    NonzeroValue(feed);
    BuiltRuleKeepsIntent(inverted, comparator, target, expo, Value(feed));
    FiresIsCrosses(rule, expo, feed);
    StoredFits(rule.comparator, feed, Decimal(rule.threshold, expo));
  }

  lemma FiresIsCrosses(rule: StoredRule, expo: I32, feed: Decimal)
    requires rule.comparator <= 1
    ensures KeeperFires(rule, expo, Value(feed)) <==> Crosses(rule.comparator, feed, Decimal(rule.threshold, expo))
  {
  }
}
