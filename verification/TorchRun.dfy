/** A chain at work: one rule at a time holds the funds, fires, and hands them
    on. Cadence bookkeeping follows programs/sotama_automations/src/state.rs. */
module TorchRun {
  import opened Common
  import opened AccountState

  /** Run counter and terminal flag of one account. */
  datatype RuleState = RuleState(executions: nat, finished: bool)

  const U32_MAX: nat := 0xFFFF_FFFF

  /** Post-fire bookkeeping; the counter is a saturating u32. */
  function Advance(cadence: Cadence, s: RuleState): RuleState {
    var executions := if s.executions < U32_MAX then s.executions + 1 else U32_MAX;
    match cadence
    case Once => RuleState(executions, true)
    case Repeat(total) => RuleState(executions, s.finished || executions >= total)
    case Until(_) => RuleState(executions, s.finished)
  }

  ghost predicate ValidCadence(c: Cadence) {
    c.Repeat? ==> 1 <= c.total <= U32_MAX
  }

  /** How many fires a cadence allows; a deadline sets no number. */
  function Cap(c: Cadence): Option<nat> {
    match c
    case Once => Some(1)
    case Repeat(total) => Some(total)
    case Until(_) => None
  }

  predicate Spent(c: Cadence, fires: nat) {
    Cap(c).Some? && fires >= Cap(c).value
  }

  predicate SingleShot(c: Cadence) {
    Cap(c) == Some(1)
  }

  /** A created chain: cadences by position, and where the last rule links back to. */
  datatype Ring = Ring(cadences: seq<Cadence>, back: Option<nat>)

  /** Number of rules outside the loop; all of them when there is no loop. */
  function WarmUps(ring: Ring): nat {
    if ring.back.Some? then ring.back.value else |ring.cadences|
  }

  /** Two rules or more, any cadences the program accepts, at most one back-link. */
  ghost predicate IsRing(ring: Ring) {
    && |ring.cadences| >= 2
    && (forall p :: 0 <= p < |ring.cadences| ==> ValidCadence(ring.cadences[p]))
    && (ring.back.Some? ==> ring.back.value < |ring.cadences|)
  }

  predicate InLoop(ring: Ring, p: nat) {
    WarmUps(ring) <= p < |ring.cadences|
  }

  function LoopLength(ring: Ring): nat
    requires IsRing(ring)
  {
    |ring.cadences| - WarmUps(ring)
  }

  /** All rules of the chain and the position that holds the funds, if any does. */
  datatype Torch = Torch(rules: seq<RuleState>, holder: Option<nat>)

  function Start(ring: Ring): Torch {
    Torch(seq(|ring.cadences|, _ => RuleState(0, false)), Some(0))
  }

  function NextPosition(ring: Ring, p: nat): Option<nat> {
    if p + 1 < |ring.cadences| then Some(p + 1) else ring.back
  }

  predicate CanFire(st: Torch) {
    st.holder.Some? && st.holder.value < |st.rules| && !st.rules[st.holder.value].finished
  }

  /** The holder fires and the funds move on; without a live holder nothing happens. */
  function Step(ring: Ring, st: Torch): Torch
    requires |st.rules| == |ring.cadences|
  {
    if CanFire(st) then
      var h := st.holder.value;
      Torch(st.rules[h := Advance(ring.cadences[h], st.rules[h])], NextPosition(ring, h))
    else st
  }

  /** The only thing that can happen is a fire, so every reachable state is one of these. */
  function After(ring: Ring, k: nat): (st: Torch)
    ensures |st.rules| == |ring.cadences|
  {
    if k == 0 then Start(ring) else Step(ring, After(ring, k - 1))
  }

  // ---- closed form ------------------------------------------------------------

  /** An account after `fires` fires. */
  function RuleAfter(c: Cadence, fires: nat): RuleState {
    RuleState(if fires < U32_MAX then fires else U32_MAX, Spent(c, fires))
  }

  lemma AdvanceCounts(c: Cadence, fires: nat)
    requires ValidCadence(c)
    ensures RuleAfter(c, 0) == RuleState(0, false)
    ensures Advance(c, RuleAfter(c, fires)) == RuleAfter(c, fires + 1)
  {
  }

  /** `k` rules of the first pass have fired, nothing else has. */
  ghost predicate WarmShape(ring: Ring, st: Torch, k: nat) {
    && k <= WarmUps(ring) <= |ring.cadences| == |st.rules|
    && st.holder == (if k < |ring.cadences| then Some(k) else None)
    && forall p :: 0 <= p < |st.rules| ==> st.rules[p] == RuleAfter(ring.cadences[p], if p < k then 1 else 0)
  }

  /** Fires of rule `p` when `c` cycles are complete and `r` rules of the next one have fired. */
  function FireCount(ring: Ring, c: nat, r: nat, p: nat): nat {
    if p < WarmUps(ring) then 1 else if p < WarmUps(ring) + r then c + 1 else c
  }

  ghost predicate LoopShape(ring: Ring, st: Torch, c: nat, r: nat) {
    && ring.back.Some? && WarmUps(ring) + r < |ring.cadences| == |st.rules|
    && st.holder == Some(WarmUps(ring) + r)
    && forall p :: 0 <= p < |st.rules| ==> st.rules[p] == RuleAfter(ring.cadences[p], FireCount(ring, c, r, p))
  }

  /** Number of fires once `c` cycles are complete and `r` rules of the next one have fired. */
  function Fires(ring: Ring, c: nat, r: nat): nat
    requires IsRing(ring)
  {
    WarmUps(ring) + c * LoopLength(ring) + r
  }

  lemma FiresNext(ring: Ring, c: nat)
    requires IsRing(ring)
    ensures Fires(ring, 0, 0) == WarmUps(ring) && forall r: nat :: Fires(ring, c, r) >= WarmUps(ring)
    ensures LoopLength(ring) > 0 ==> Fires(ring, c + 1, 0) == Fires(ring, c, LoopLength(ring) - 1) + 1
  {
    assert (c + 1) * LoopLength(ring) == c * LoopLength(ring) + LoopLength(ring);
  }

  /** Fires are ordered by cycle, then by place in the cycle. */
  lemma FiresOrder(ring: Ring, c: nat, r: nat, d: nat, q: nat)
    requires IsRing(ring) && r < LoopLength(ring) && q < LoopLength(ring)
    ensures Fires(ring, c, r) < Fires(ring, d, q) <==> c < d || (c == d && r < q)
    ensures Fires(ring, c, r) == Fires(ring, d, q) <==> c == d && r == q
  {
    CycleOrder(LoopLength(ring), c, r, d, q);
    CycleOrder(LoopLength(ring), d, q, c, r);
  }

  lemma CycleOrder(n: nat, c: nat, r: nat, d: nat, q: nat)
    requires r < n && q < n
    ensures c * n + r < d * n + q <==> c < d || (c == d && r < q)
  {
    var gap := d - c;
    assert d * n == c * n + gap * n;
    if gap >= 1 {
      assert gap * n >= 1 * n;
    } else if gap <= -1 {
      assert gap * n <= -1 * n;
    }
  }

  /** Every number of fires past the warm-ups is some cycles and a rest. */
  lemma Decompose(ring: Ring, k: nat) returns (c: nat, r: nat)
    requires IsRing(ring) && ring.back.Some? && k >= WarmUps(ring)
    ensures r < LoopLength(ring) && k == Fires(ring, c, r)
  {
    var m, n := k - WarmUps(ring), LoopLength(ring);
    c, r := m / n, m % n;
  }

  lemma {:induction false} AfterWarmUps(ring: Ring, k: nat)
    requires IsRing(ring) && k <= WarmUps(ring)
    ensures WarmShape(ring, After(ring, k), k)
  {
    if k == 0 {
    } else {
      AfterWarmUps(ring, k - 1);
    }
  }

  /** In every reachable state: a rule that fires once is finished once it has
      fired, one that repeats after that many fires, one with a deadline never. */
  lemma {:induction false} FinishedMeans(ring: Ring, k: nat, p: nat)
    requires IsRing(ring) && p < |ring.cadences|
    ensures var s := After(ring, k).rules[p];
            && s.executions <= k && s.executions <= 0xFFFF_FFFF
            && (s.finished <==> match ring.cadences[p]
                                case Once => s.executions >= 1
                                case Repeat(total) => s.executions >= total
                                case Until(_) => false)
  {
    if k == 0 {
      assert ValidCadence(ring.cadences[p]);
    } else {
      FinishedMeans(ring, k - 1, p);
    }
  }

  // ---- when the chain stops -----------------------------------------------------

  /** A loop rule that may fire only so often. */
  predicate Capped(ring: Ring, p: nat) {
    InLoop(ring, p) && Cap(ring.cadences[p]).Some?
  }

  /** Number of fires at which the funds reach loop rule `p` once more than it may fire. */
  function StopTime(ring: Ring, p: nat): nat
    requires IsRing(ring) && Capped(ring, p)
  {
    Fires(ring, Cap(ring.cadences[p]).value, p - WarmUps(ring))
  }

  /** No loop rule has stopped the chain by then. */
  ghost predicate Goes(ring: Ring, k: nat)
    requires IsRing(ring)
  {
    forall p: nat :: Capped(ring, p) ==> k < StopTime(ring, p)
  }

  /** In terms of cycles: every rule has fires left when its turn comes. */
  lemma GoesMeans(ring: Ring, c: nat, r: nat, p: nat)
    requires IsRing(ring) && r < LoopLength(ring) && Goes(ring, Fires(ring, c, r)) && Capped(ring, p)
    ensures c < Cap(ring.cadences[p]).value || (c == Cap(ring.cadences[p]).value && WarmUps(ring) + r < p)
  {
    assert Fires(ring, c, r) < StopTime(ring, p);
    FiresOrder(ring, c, r, Cap(ring.cadences[p]).value, p - WarmUps(ring));
  }

  lemma WarmIsLoopStart(ring: Ring, st: Torch)
    requires IsRing(ring) && ring.back.Some? && WarmShape(ring, st, WarmUps(ring))
    ensures LoopShape(ring, st, 0, 0)
  {
  }

  /** One fire within the loop. */
  lemma LoopStep(ring: Ring, st: Torch, c: nat, r: nat)
    requires IsRing(ring) && r < LoopLength(ring) && LoopShape(ring, st, c, r)
    requires !Spent(ring.cadences[WarmUps(ring) + r], c)
    ensures if r + 1 < LoopLength(ring) then LoopShape(ring, Step(ring, st), c, r + 1)
            else LoopShape(ring, Step(ring, st), c + 1, 0)
  {
    hide RuleAfter, Advance;
    var h := WarmUps(ring) + r;
    assert CanFire(st) by { HolderLive(ring, st, c, r); }
    AdvanceCounts(ring.cadences[h], c);
  }

  lemma HolderLive(ring: Ring, st: Torch, c: nat, r: nat)
    requires IsRing(ring) && r < LoopLength(ring) && LoopShape(ring, st, c, r)
    ensures CanFire(st) <==> !Spent(ring.cadences[WarmUps(ring) + r], c)
  {
  }

  /** Where every fire up to now was allowed, the whole state is known. */
  lemma {:induction false} AfterCycles(ring: Ring, c: nat, r: nat)
    requires IsRing(ring) && ring.back.Some? && r < LoopLength(ring)
    requires Fires(ring, c, r) == WarmUps(ring) || Goes(ring, Fires(ring, c, r) - 1)
    ensures LoopShape(ring, After(ring, Fires(ring, c, r)), c, r)
    decreases c, r, 0
  {
    hide LoopShape, WarmShape, Step, StopTime;
    if r > 0 {
      FiredFrom(ring, c, r - 1, Fires(ring, c, r));
    } else if c > 0 {
      FiresNext(ring, c - 1);
      FiredFrom(ring, c - 1, LoopLength(ring) - 1, Fires(ring, c, r));
    } else {
      FiresNext(ring, 0);
      AfterWarmUps(ring, WarmUps(ring));
      WarmIsLoopStart(ring, After(ring, WarmUps(ring)));
    }
  }

  /** The step from the state before. */
  lemma {:induction false} FiredFrom(ring: Ring, c: nat, r: nat, k: nat)
    requires IsRing(ring) && ring.back.Some? && r < LoopLength(ring)
    requires k == Fires(ring, c, r) + 1 && Goes(ring, k - 1)
    ensures if r + 1 < LoopLength(ring) then LoopShape(ring, After(ring, k), c, r + 1)
            else LoopShape(ring, After(ring, k), c + 1, 0)
    decreases c, r, 1
  {
    hide LoopShape, Step, StopTime;
    GoesEarlier(ring, k - 1);
    AfterCycles(ring, c, r);
    var h := WarmUps(ring) + r;
    if Capped(ring, h) { GoesMeans(ring, c, r, h); }
    LoopStep(ring, After(ring, k - 1), c, r);
    assert After(ring, k) == Step(ring, After(ring, k - 1));
  }

  lemma GoesEarlier(ring: Ring, k: nat)
    requires IsRing(ring) && Goes(ring, k)
    ensures forall j: nat :: j <= k ==> Goes(ring, j)
  {
  }

  lemma GoesBound(ring: Ring, k: nat, j: nat)
    requires IsRing(ring) && Goes(ring, k) && !Goes(ring, j)
    ensures k < j
  {
  }

  lemma {:induction false} StaysStuck(ring: Ring, j: nat, k: nat)
    requires j <= k && !CanFire(After(ring, j))
    ensures After(ring, k) == After(ring, j)
  {
    if j == k {
    } else {
      StaysStuck(ring, j, k - 1);
    }
  }

  /** The rule at which the loop stops: the first to be asked once too often. */
  ghost predicate Stops(ring: Ring, s: nat)
    requires IsRing(ring)
  {
    Capped(ring, s) && forall p: nat :: Capped(ring, p) ==> StopTime(ring, s) <= StopTime(ring, p)
  }

  lemma GoesToTheStop(ring: Ring, s: nat)
    requires IsRing(ring) && Stops(ring, s)
    ensures StopTime(ring, s) > 0 && Goes(ring, StopTime(ring, s) - 1)
  {
    hide Fires, StopTime;
    StopTimeIs(ring, s);
    assert ValidCadence(ring.cadences[s]);
    FiresOrder(ring, 0, 0, Cap(ring.cadences[s]).value, s - WarmUps(ring));
    FiresNext(ring, 0);
  }

  lemma StopTimeIs(ring: Ring, s: nat)
    requires IsRing(ring) && Capped(ring, s)
    ensures StopTime(ring, s) == Fires(ring, Cap(ring.cadences[s]).value, s - WarmUps(ring))
  {
  }

  /** At the stopping rule the funds rest on a finished rule. */
  lemma AtTheStop(ring: Ring, s: nat)
    requires IsRing(ring) && ring.back.Some? && Capped(ring, s) && Stops(ring, s)
    ensures LoopShape(ring, After(ring, StopTime(ring, s)), Cap(ring.cadences[s]).value, s - WarmUps(ring))
    ensures !CanFire(After(ring, StopTime(ring, s)))
  {
    hide Fires, StopTime, LoopShape, CanFire, Goes, Stops;
    var c, r := Cap(ring.cadences[s]).value, s - WarmUps(ring);
    StopTimeIs(ring, s);
    GoesToTheStop(ring, s);
    AfterCycles(ring, c, r);
    HolderLive(ring, After(ring, StopTime(ring, s)), c, r);
  }

  lemma {:induction false} FindStop(ring: Ring, k: nat) returns (s: nat)
    requires IsRing(ring) && !Goes(ring, k)
    ensures Stops(ring, s) && StopTime(ring, s) <= k
  {
    hide StopTime;
    if k > 0 && !Goes(ring, k - 1) {
      s := FindStop(ring, k - 1);
    } else {
      s :| Capped(ring, s) && k >= StopTime(ring, s);
    }
  }

  /** Exactly how long a chain can go on: without a loop until every rule has
      fired once, with a loop until some loop rule is asked to fire once more
      than its cadence allows. */
  lemma StopsExactly(ring: Ring, k: nat)
    requires IsRing(ring)
    ensures CanFire(After(ring, k)) <==> if ring.back.Some? then Goes(ring, k) else k < |ring.cadences|
  {
    hide StopTime;
    if k < WarmUps(ring) {
      AfterWarmUps(ring, k);
      assert ValidCadence(ring.cadences[k]);
      WarmUpsGo(ring, k);
    } else if ring.back.None? {
      AfterWarmUps(ring, WarmUps(ring));
      StaysStuck(ring, WarmUps(ring), k);
    } else if Goes(ring, k) {
      var c, r := Decompose(ring, k);
      GoesEarlier(ring, k);
      AfterCycles(ring, c, r);
      HolderLive(ring, After(ring, k), c, r);
      if Capped(ring, WarmUps(ring) + r) { GoesMeans(ring, c, r, WarmUps(ring) + r); }
    } else {
      var s := FindStop(ring, k);
      AtTheStop(ring, s);
      StaysStuck(ring, StopTime(ring, s), k);
    }
  }

  lemma WarmUpsGo(ring: Ring, k: nat)
    requires IsRing(ring) && k < WarmUps(ring)
    ensures Goes(ring, k)
  {
    hide Fires;
    forall p: nat | Capped(ring, p)
      ensures k < StopTime(ring, p)
    {
      FiresNext(ring, Cap(ring.cadences[p]).value);
    }
  }

  // ---- loops with a loop mode ------------------------------------------------------

  datatype LoopMode = Frequency(cycles: U32) | Infinite

  /** The cadence a loop mode gives every rule on the loop. */
  function LoopModeToCadence(mode: LoopMode): Cadence {
    match mode
    case Frequency(cycles) => Repeat(cycles)
    case Infinite => Until(4102444800)
  }

  ghost predicate LoopShares(ring: Ring, mode: LoopMode) {
    forall p: nat :: InLoop(ring, p) ==> ring.cadences[p] == LoopModeToCadence(mode)
  }

  /** A loop of C cycles goes on for one fire of each warm-up and C fires of each
      loop member, and not further; an endless one goes on for ever. */
  lemma ModeGoes(ring: Ring, mode: LoopMode, k: nat)
    requires IsRing(ring) && ring.back.Some? && LoopShares(ring, mode)
    ensures Goes(ring, k) <==> (mode.Frequency? ==> k < WarmUps(ring) + mode.cycles * LoopLength(ring))
  {
    hide Fires;
    var t := WarmUps(ring);
    assert InLoop(ring, t);
    if mode.Frequency? {
      forall p: nat | Capped(ring, p)
        ensures StopTime(ring, t) <= StopTime(ring, p)
      {
        FiresOrder(ring, mode.cycles, p - t, mode.cycles, 0);
      }
      assert Capped(ring, t);
      FiresAtZero(ring, mode.cycles);
    }
  }

  lemma FiresAtZero(ring: Ring, c: nat)
    requires IsRing(ring)
    ensures Fires(ring, c, 0) == WarmUps(ring) + c * LoopLength(ring)
  {
  }
}
