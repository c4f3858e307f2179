/** Does the guess made from run counters point at the rule that really holds
    the funds? (src/components/ActiveStrategiesPage.tsx) */
module TorchDisplay {
  import opened Common
  import opened AccountState
  import opened TorchRun

  ghost predicate Live(st: Torch, p: nat) {
    p < |st.rules| && !st.rules[p].finished
  }

  ghost predicate TwoLive(st: Torch) {
    exists p: nat, q: nat :: p < q && Live(st, p) && Live(st, q)
  }

  ghost predicate IsMaxRuns(st: Torch, m: nat) {
    && (exists p: nat :: Live(st, p) && st.rules[p].executions == m)
    && (forall p: nat :: Live(st, p) ==> st.rules[p].executions <= m)
  }

  /** The rule the page singles out: the first live rule when all live rules ran
      equally often, otherwise the first live rule that is behind. */
  ghost predicate ShowsTorch(st: Torch, h: nat) {
    && Live(st, h)
    && exists m: nat ::
        && IsMaxRuns(st, m)
        && if forall p: nat :: Live(st, p) ==> st.rules[p].executions == m
           then forall p: nat :: p < h ==> !Live(st, p)
           else st.rules[h].executions < m && forall p: nat :: p < h && Live(st, p) ==> st.rules[p].executions == m
  }

  /** With two live rules or more, the rule singled out is the holder. */
  ghost predicate DisplayRight(st: Torch) {
    TwoLive(st) ==> st.holder.Some? && ShowsTorch(st, st.holder.value)
  }

  /** Live rules further along never ran more often, and lag by one fire at most. */
  ghost predicate LiveRunsDescend(st: Torch) {
    forall p: nat, q: nat :: p < q && Live(st, p) && Live(st, q) ==>
      st.rules[q].executions <= st.rules[p].executions <= st.rules[q].executions + 1
  }

  lemma ShowsOne(st: Torch, h: nat, h': nat)
    requires ShowsTorch(st, h) && ShowsTorch(st, h')
    ensures h == h'
  {
  }

  /** Counters in two levels, the holder the first on the lower one. */
  lemma TwoLevelsShow(st: Torch, h: nat, hi: nat, lo: nat)
    requires Live(st, h)
    requires forall p: nat :: Live(st, p) ==> st.rules[p].executions == if p < h then hi else lo
    requires lo < hi || forall p: nat :: p < h ==> !Live(st, p)
    ensures ShowsTorch(st, h)
  {
    if p: nat :| p < h && Live(st, p) {
      assert IsMaxRuns(st, hi);
    } else {
      assert IsMaxRuns(st, lo);
    }
  }

  /** A rule outside the loop that stays alive after its fire. */
  ghost predicate Lingers(ring: Ring, p: nat) {
    p < WarmUps(ring) <= |ring.cadences| && !SingleShot(ring.cadences[p])
  }

  ghost predicate NoneLingers(ring: Ring) {
    forall p: nat :: !Lingers(ring, p)
  }

  ghost predicate AtMostOneLingers(ring: Ring) {
    forall p: nat, q: nat :: Lingers(ring, p) && Lingers(ring, q) ==> p == q
  }

  /** Still alive when the loop has stopped at rule `s`. */
  ghost predicate Survives(ring: Ring, s: nat, p: nat)
    requires IsRing(ring) && Capped(ring, s)
  {
    p < |ring.cadences| && !Spent(ring.cadences[p], FireCount(ring, Cap(ring.cadences[s]).value, s - WarmUps(ring), p))
  }

  ghost predicate AtMostOneSurvives(ring: Ring, s: nat)
    requires IsRing(ring) && Capped(ring, s)
  {
    forall p: nat, q: nat :: Survives(ring, s, p) && Survives(ring, s, q) ==> p == q
  }

  /** The loop has two rules or more and still goes on when its u32 counters are full. */
  ghost predicate Saturates(ring: Ring)
    requires IsRing(ring)
  {
    ring.back.Some? && LoopLength(ring) >= 2 && Goes(ring, Fires(ring, U32_MAX, 1))
  }

  /** Chains the page can report: a warm-up outlives its fire only if the loop
      stops right after its first lap, one rule at most is left when the chain
      stops, and the counters never fill up. */
  ghost predicate Reportable(ring: Ring)
    requires IsRing(ring)
  {
    if ring.back.None? then AtMostOneLingers(ring)
    else
      && (NoneLingers(ring) || SingleShot(ring.cadences[ring.back.value]))
      && (forall s: nat :: Stops(ring, s) ==> AtMostOneSurvives(ring, s))
      && !Saturates(ring)
  }

  // ---- state by state -----------------------------------------------------------

  /** While the chain is still in its first pass the guess is right, whatever the cadences. */
  lemma FirstPassRight(ring: Ring, k: nat)
    requires IsRing(ring) && k <= WarmUps(ring) && k < |ring.cadences|
    ensures DisplayRight(After(ring, k))
  {
    AfterWarmUps(ring, k);
    assert ValidCadence(ring.cadences[k]);
    TwoLevelsShow(After(ring, k), k, 1, 0);
  }

  /** After the last fire of a chain without a loop. */
  lemma LinearEnd(ring: Ring)
    requires IsRing(ring) && ring.back.None?
    ensures DisplayRight(After(ring, |ring.cadences|)) <==> AtMostOneLingers(ring)
  {
    var st := After(ring, |ring.cadences|);
    AfterWarmUps(ring, |ring.cadences|);
    forall p: nat
      ensures Live(st, p) <==> Lingers(ring, p)
    {
      if p < |ring.cadences| { assert ValidCadence(ring.cadences[p]); }
    }
  }

  /** Which rules are alive, and their counters, wherever the state is known. */
  lemma LoopRule(ring: Ring, st: Torch, c: nat, r: nat, p: nat)
    requires IsRing(ring) && LoopShape(ring, st, c, r) && p < |ring.cadences|
    ensures Live(st, p) <==> !Spent(ring.cadences[p], FireCount(ring, c, r, p))
    ensures p < WarmUps(ring) ==> (Live(st, p) <==> Lingers(ring, p))
    ensures st.rules[p].executions == if FireCount(ring, c, r, p) < U32_MAX then FireCount(ring, c, r, p) else U32_MAX
  {
    assert ValidCadence(ring.cadences[p]);
  }

  /** The loop runs: state after c cycles and r fires of the next. */
  lemma RunningState(ring: Ring, c: nat, r: nat) returns (st: Torch, h: nat)
    requires IsRing(ring) && ring.back.Some? && r < LoopLength(ring) && Goes(ring, Fires(ring, c, r))
    ensures st == After(ring, Fires(ring, c, r)) && h == WarmUps(ring) + r
    ensures LoopShape(ring, st, c, r) && Live(st, h)
    ensures c >= U32_MAX && r > 0 ==> Live(st, WarmUps(ring))
  {
    hide Fires, StopTime, Goes;
    st, h := After(ring, Fires(ring, c, r)), WarmUps(ring) + r;
    StopsExactly(ring, Fires(ring, c, r));
    GoesEarlier(ring, Fires(ring, c, r));
    FiresNext(ring, c);
    assert Fires(ring, c, r) > WarmUps(ring) ==> Goes(ring, Fires(ring, c, r) - 1);
    AfterCycles(ring, c, r);
    HolderLive(ring, st, c, r);
    var t := WarmUps(ring);
    assert ValidCadence(ring.cadences[t]);
    if Capped(ring, t) { GoesMeans(ring, c, r, t); }
    LoopRule(ring, st, c, r, t);
  }

  /** Exactly when the guess is right while the loop runs: in the first lap
      always, later only with nothing lingering outside the loop; and once the
      counters are full only at the start of a lap. */
  lemma RunningRightIff(ring: Ring, c: nat, r: nat)
    requires IsRing(ring) && ring.back.Some? && r < LoopLength(ring) && Goes(ring, Fires(ring, c, r))
    ensures DisplayRight(After(ring, Fires(ring, c, r))) <==> (c == 0 || NoneLingers(ring)) && (c < U32_MAX || r == 0)
  {
    hide Fires, Goes, LoopShape, Lingers;
    var st, h := RunningState(ring, c, r);
    forall p: nat | p < |ring.cadences|
      ensures p < WarmUps(ring) ==> (Live(st, p) <==> Lingers(ring, p))
      ensures st.rules[p].executions == if FireCount(ring, c, r, p) < U32_MAX then FireCount(ring, c, r, p) else U32_MAX
    {
      LoopRule(ring, st, c, r, p);
    }
    LingersOutside(ring);
    ShapeFacts(ring, st, c, r);
    if (c == 0 || NoneLingers(ring)) && (c < U32_MAX || r == 0) {
      TwoLevelsShow(st, h, c + 1, if c < U32_MAX then c else U32_MAX);
    } else if w: nat :| c > 0 && Lingers(ring, w) {
      assert Live(st, w) && w < h;
      assert !ShowsTorch(st, h);
    } else {
      assert Live(st, WarmUps(ring)) && WarmUps(ring) < h;
      assert !ShowsTorch(st, h);
    }
  }

  lemma LingersOutside(ring: Ring)
    ensures forall p: nat :: Lingers(ring, p) ==> p < WarmUps(ring) && p < |ring.cadences|
  {
  }

  lemma ShapeFacts(ring: Ring, st: Torch, c: nat, r: nat)
    requires LoopShape(ring, st, c, r)
    ensures |st.rules| == |ring.cadences| && st.holder == Some(WarmUps(ring) + r) && WarmUps(ring) + r < |ring.cadences|
  {
  }

  /** Once the loop has stopped the funds rest on a finished rule, so the page
      is right only if there is nothing to choose from. */
  lemma StoppedRightIff(ring: Ring, s: nat)
    requires IsRing(ring) && ring.back.Some? && Capped(ring, s) && Stops(ring, s)
    ensures DisplayRight(After(ring, StopTime(ring, s))) <==> AtMostOneSurvives(ring, s)
  {
    hide Fires, StopTime, Stops, LoopShape;
    var st, c, r := After(ring, StopTime(ring, s)), Cap(ring.cadences[s]).value, s - WarmUps(ring);
    AtTheStop(ring, s);
    ShapeFacts(ring, st, c, r);
    forall p: nat
      ensures Live(st, p) <==> Survives(ring, s, p)
    {
      if p < |ring.cadences| { LoopRule(ring, st, c, r, p); }
    }
    assert !Live(st, st.holder.value);
  }

  // ---- every reachable state ------------------------------------------------------

  lemma ReportableIsRight(ring: Ring, k: nat)
    requires IsRing(ring) && Reportable(ring)
    ensures DisplayRight(After(ring, k))
  {
    hide Fires, StopTime, DisplayRight, AtMostOneSurvives, AtMostOneLingers, CanFire;
    if k <= WarmUps(ring) && k < |ring.cadences| {
      FirstPassRight(ring, k);
    } else if ring.back.None? {
      LinearEnd(ring);
      StopsExactly(ring, |ring.cadences|);
      StaysStuck(ring, |ring.cadences|, k);
    } else if Goes(ring, k) {
      var c, r := Decompose(ring, k);
      ReportableRuns(ring, c, r);
      RunningRightIff(ring, c, r);
    } else {
      var s := FindStop(ring, k);
      StoppedRightIff(ring, s);
      AtTheStop(ring, s);
      StaysStuck(ring, StopTime(ring, s), k);
    }
  }

  lemma ReportableRuns(ring: Ring, c: nat, r: nat)
    requires IsRing(ring) && Reportable(ring) && ring.back.Some? && r < LoopLength(ring) &&
             Goes(ring, Fires(ring, c, r))
    ensures (c == 0 || NoneLingers(ring)) && (c < U32_MAX || r == 0)
  {
    hide Fires, StopTime, Stops, AtMostOneSurvives;
    if SingleShot(ring.cadences[ring.back.value]) {
      GoesMeans(ring, c, r, ring.back.value);
    }
    if LoopLength(ring) >= 2 {
      GoesBound(ring, Fires(ring, c, r), Fires(ring, U32_MAX, 1));
      FiresOrder(ring, c, r, U32_MAX, 1);
    }
  }

  /** A loop that goes on after its first lap. */
  lemma SecondLap(ring: Ring)
    requires IsRing(ring) && ring.back.Some? && !SingleShot(ring.cadences[ring.back.value])
    ensures Goes(ring, Fires(ring, 1, 0))
  {
    hide Fires;
    forall p: nat | Capped(ring, p)
      ensures Fires(ring, 1, 0) < StopTime(ring, p)
    {
      assert ValidCadence(ring.cadences[p]);
      FiresOrder(ring, 1, 0, Cap(ring.cadences[p]).value, p - WarmUps(ring));
    }
  }

  /** Exactly the chains the page reports correctly in every reachable state. */
  lemma DisplayRightIffReportable(ring: Ring)
    requires IsRing(ring)
    ensures (forall k: nat :: DisplayRight(After(ring, k))) <==> Reportable(ring)
  {
    hide Fires, StopTime, Goes, DisplayRight, AtMostOneSurvives, AtMostOneLingers, NoneLingers;
    if Reportable(ring) {
      forall k: nat
        ensures DisplayRight(After(ring, k))
      {
        ReportableIsRight(ring, k);
      }
    } else if ring.back.None? {
      LinearEnd(ring);
    } else if !(NoneLingers(ring) || SingleShot(ring.cadences[ring.back.value])) {
      SecondLap(ring);
      RunningRightIff(ring, 1, 0);
    } else if Saturates(ring) {
      RunningRightIff(ring, U32_MAX, 1);
    } else {
      var s: nat :| Stops(ring, s) && !AtMostOneSurvives(ring, s);
      StoppedRightIff(ring, s);
    }
  }

  lemma StopsIsCapped(ring: Ring, s: nat)
    requires IsRing(ring) && Stops(ring, s)
    ensures Capped(ring, s)
  {
  }

  /** Full counters are far away: at least 2^33 - 1 fires. */
  lemma SaturationIsFar(ring: Ring)
    requires IsRing(ring) && Saturates(ring)
    ensures Fires(ring, U32_MAX, 1) >= 0x2_0000_0000 - 1
  {
    var n := LoopLength(ring);
    assert U32_MAX * n >= U32_MAX * 2;
  }

  // ---- loops with a loop mode -------------------------------------------------------

  /** No rule outside the loop outlives its fire; one may if the loop runs once. */
  ghost predicate Settled(ring: Ring, mode: LoopMode) {
    NoneLingers(ring) || (AtMostOneLingers(ring) && mode == Frequency(1))
  }

  /** For a loop created with a loop mode: right in every reachable state iff
      settled and not an endless loop of two rules or more. */
  lemma ModeRightIffSettled(ring: Ring, mode: LoopMode)
    requires IsRing(ring) && ring.back.Some? && LoopShares(ring, mode)
    ensures (forall k: nat :: DisplayRight(After(ring, k))) <==>
              Settled(ring, mode) && !(mode.Infinite? && LoopLength(ring) >= 2)
  {
    hide Fires, StopTime, DisplayRight;
    var t := ring.back.value;
    assert InLoop(ring, t) && ValidCadence(ring.cadences[t]);
    DisplayRightIffReportable(ring);
    ModeSaturates(ring, mode);
    if mode.Frequency? {
      ModeStopsFirst(ring, mode);
      assert Stops(ring, t);
      forall s: nat | Stops(ring, s)
        ensures AtMostOneSurvives(ring, s) <==> AtMostOneLingers(ring)
      {
        ModeSurvivors(ring, mode, s);
      }
    }
  }

  /** For instance: a warm-up that may fire ten times before a loop of ten cycles. */
  lemma LingeringWarmUp()
    ensures var ring := Ring([Repeat(10), Repeat(10), Repeat(10)], Some(1));
            IsRing(ring) && exists k: nat :: !DisplayRight(After(ring, k))
  {
    hide DisplayRight, After;
    var ring := Ring([Repeat(10), Repeat(10), Repeat(10)], Some(1));
    assert Lingers(ring, 0);
    ModeRightIffSettled(ring, Frequency(10));
  }

  /** And two rules that pass the funds back and forth for ever. */
  lemma EndlessPair()
    ensures var ring := Ring([Until(4102444800), Until(4102444800)], Some(0));
            IsRing(ring) && exists k: nat :: !DisplayRight(After(ring, k))
  {
    hide DisplayRight, After;
    var ring := Ring([Until(4102444800), Until(4102444800)], Some(0));
    ModeRightIffSettled(ring, Infinite);
  }

  lemma ModeSaturates(ring: Ring, mode: LoopMode)
    requires IsRing(ring) && ring.back.Some? && LoopShares(ring, mode)
    ensures Saturates(ring) <==> mode.Infinite? && LoopLength(ring) >= 2
  {
    hide Fires;
    if LoopLength(ring) >= 2 {
      ModeGoes(ring, mode, Fires(ring, U32_MAX, 1));
      if mode.Frequency? {
        assert InLoop(ring, ring.back.value) && ValidCadence(ring.cadences[ring.back.value]);
        FiresOrder(ring, U32_MAX, 1, mode.cycles, 0);
        FiresAtZero(ring, mode.cycles);
      }
    }
  }

  lemma ModeStopsFirst(ring: Ring, mode: LoopMode)
    requires IsRing(ring) && ring.back.Some? && mode.Frequency? && LoopShares(ring, mode)
    ensures forall s: nat :: Stops(ring, s) <==> s == ring.back.value
  {
    hide Fires;
    var t := ring.back.value;
    assert InLoop(ring, t) && Capped(ring, t);
    forall p: nat | Capped(ring, p)
      ensures StopTime(ring, t) <= StopTime(ring, p) && (StopTime(ring, p) <= StopTime(ring, t) ==> p == t)
    {
      FiresOrder(ring, mode.cycles, p - t, mode.cycles, 0);
    }
  }

  lemma ModeSurvivors(ring: Ring, mode: LoopMode, s: nat)
    requires IsRing(ring) && ring.back.Some? && mode.Frequency? && LoopShares(ring, mode) && Stops(ring, s)
    ensures AtMostOneSurvives(ring, s) <==> AtMostOneLingers(ring)
  {
    hide StopTime;
    ModeStopsFirst(ring, mode);
    forall p: nat
      ensures Survives(ring, s, p) <==> Lingers(ring, p)
    {
      if p < |ring.cadences| { assert ValidCadence(ring.cadences[p]); }
    }
  }

  // ---- the order of the counters ---------------------------------------------------

  /** Some loop rule fires a second time and lives on. */
  ghost predicate FiresTwice(ring: Ring, p: nat)
    requires IsRing(ring)
  {
    InLoop(ring, p) && !Spent(ring.cadences[p], 2) && Goes(ring, Fires(ring, 1, p - WarmUps(ring)))
  }

  ghost predicate RunsOrdered(ring: Ring)
    requires IsRing(ring)
  {
    NoneLingers(ring) || ring.back.None? || forall p: nat :: !FiresTwice(ring, p)
  }

  /** In a known loop state only a lingering rule can be out of order, with a
      loop rule that fired more than once. */
  lemma ShapeDescends(ring: Ring, st: Torch, c: nat, r: nat)
    requires IsRing(ring) && LoopShape(ring, st, c, r)
    requires NoneLingers(ring) || forall p: nat :: InLoop(ring, p) && Live(st, p) ==> FireCount(ring, c, r, p) <= 1
    ensures LiveRunsDescend(st)
  {
    hide LoopShape, Lingers;
    LingersOutside(ring);
    ShapeFacts(ring, st, c, r);
    forall p: nat | p < |ring.cadences|
      ensures p < WarmUps(ring) ==> (Live(st, p) <==> Lingers(ring, p))
      ensures st.rules[p].executions == if FireCount(ring, c, r, p) < U32_MAX then FireCount(ring, c, r, p) else U32_MAX
    {
      LoopRule(ring, st, c, r, p);
    }
  }

  /** A loop rule alive after two fires has fired a second time. */
  lemma LiveTwice(ring: Ring, st: Torch, k: nat, c: nat, r: nat, p: nat)
    requires IsRing(ring) && ring.back.Some? && r < LoopLength(ring) && LoopShape(ring, st, c, r)
    requires k == Fires(ring, c, r) && (k == WarmUps(ring) || Goes(ring, k - 1))
    requires InLoop(ring, p) && Live(st, p) && FireCount(ring, c, r, p) >= 2
    ensures FiresTwice(ring, p)
  {
    hide Fires, StopTime, LoopShape;
    LoopRule(ring, st, c, r, p);
    var q := p - WarmUps(ring);
    FiresOrder(ring, 1, q, c, r);
    FiresOrder(ring, 0, 0, 1, q);
    FiresNext(ring, 0);
    GoesEarlier(ring, k - 1);
  }

  lemma OrderedDescends(ring: Ring, k: nat)
    requires IsRing(ring) && RunsOrdered(ring)
    ensures LiveRunsDescend(After(ring, k))
  {
    hide Fires, StopTime, LoopShape, Goes, FiresTwice;
    if k <= WarmUps(ring) {
      AfterWarmUps(ring, k);
    } else if ring.back.None? {
      AfterWarmUps(ring, WarmUps(ring));
      StopsExactly(ring, WarmUps(ring));
      StaysStuck(ring, WarmUps(ring), k);
    } else if Goes(ring, k) {
      var c, r := Decompose(ring, k);
      GoesEarlier(ring, k);
      AfterCycles(ring, c, r);
      OrderedShape(ring, k, c, r);
    } else {
      var s := FindStop(ring, k);
      StopsIsCapped(ring, s);
      AtTheStop(ring, s);
      GoesToTheStop(ring, s);
      StopTimeIs(ring, s);
      StaysStuck(ring, StopTime(ring, s), k);
      OrderedShape(ring, StopTime(ring, s), Cap(ring.cadences[s]).value, s - WarmUps(ring));
    }
  }

  lemma OrderedShape(ring: Ring, k: nat, c: nat, r: nat)
    requires IsRing(ring) && RunsOrdered(ring) && ring.back.Some? && r < LoopLength(ring) &&
             LoopShape(ring, After(ring, k), c, r)
    requires k == Fires(ring, c, r) && (k == WarmUps(ring) || Goes(ring, k - 1))
    ensures LiveRunsDescend(After(ring, k))
  {
    hide Fires, LoopShape, Goes, FiresTwice;
    forall p: nat | !NoneLingers(ring) && InLoop(ring, p) && Live(After(ring, k), p)
      ensures FireCount(ring, c, r, p) <= 1
    {
      if FireCount(ring, c, r, p) >= 2 { LiveTwice(ring, After(ring, k), k, c, r, p); }
    }
    ShapeDescends(ring, After(ring, k), c, r);
  }

  /** A lingering rule beside a loop rule that has fired twice. */
  lemma TwiceBreaksOrder(ring: Ring, w: nat, p: nat)
    requires IsRing(ring) && ring.back.Some? && Lingers(ring, w) && FiresTwice(ring, p)
    ensures !LiveRunsDescend(After(ring, Fires(ring, 1, p - WarmUps(ring)) + 1))
  {
    hide Fires, StopTime, LoopShape, Goes;
    var q := p - WarmUps(ring);
    var k := Fires(ring, 1, q) + 1;
    var st := After(ring, k);
    FiredFrom(ring, 1, q, k);
    var (c, r) := if q + 1 < LoopLength(ring) then (1, q + 1) else (2, 0);
    assert FireCount(ring, c, r, p) == 2;
    LoopRule(ring, st, c, r, p);
    LoopRule(ring, st, c, r, w);
    assert Live(st, w) && Live(st, p) && w < p;
  }

  /** Exactly the chains whose live counters never increase along the chain and
      differ by at most one, in every reachable state. */
  lemma DescendIffOrdered(ring: Ring)
    requires IsRing(ring)
    ensures (forall k: nat :: LiveRunsDescend(After(ring, k))) <==> RunsOrdered(ring)
  {
    hide Fires, LiveRunsDescend, Lingers, FiresTwice;
    if RunsOrdered(ring) {
      forall k: nat
        ensures LiveRunsDescend(After(ring, k))
      {
        OrderedDescends(ring, k);
      }
    } else {
      var w: nat :| Lingers(ring, w);
      var p: nat :| FiresTwice(ring, p);
      TwiceInLoop(ring, p);
      TwiceBreaksOrder(ring, w, p);
    }
  }

  lemma TwiceInLoop(ring: Ring, p: nat)
    requires IsRing(ring) && FiresTwice(ring, p)
    ensures InLoop(ring, p)
  {
  }

  /** Every chain the page reports correctly is one of them. */
  lemma ReportableDescends(ring: Ring, k: nat)
    requires IsRing(ring) && Reportable(ring)
    ensures LiveRunsDescend(After(ring, k))
  {
    hide Fires, StopTime, LiveRunsDescend, Lingers;
    forall p: nat | ring.back.Some? && !NoneLingers(ring)
      ensures !FiresTwice(ring, p)
    {
      if FiresTwice(ring, p) {
        GoesMeans(ring, 1, p - WarmUps(ring), ring.back.value);
      }
    }
    OrderedDescends(ring, k);
  }
}
