/** The armed flag along a chain: which rules the keeper lets fire while the
    funds move from rule to rule (keeper/src/indexer.rs, compute_armed;
    src/lib/linked-chains.ts writes the chain). */
module ArmedChain {
  import opened Common
  import opened AccountState
  import opened Indexer
  import opened TorchRun
  import IndexRebuild

  /** Rule `p` of a written chain: it hands its output to the next one, the last
      to the one it links back to, if any; the head consumes nobody's output. */
  ghost predicate WrittenAs(action: ActionSpec, keys: seq<Pubkey>, back: Option<nat>, p: nat)
    requires p < |keys| && (back.Some? ==> back.value < |keys|)
  {
    && action.Swap?
    && action.linkedDownstream == (
         if p + 1 < |keys| then Some(keys[p + 1]) else if back.Some? then Some(keys[back.value]) else None)
    && (p == 0 ==> !action.consumeUpstreamOutput)
  }

  ghost predicate Sizes(keys: seq<Pubkey>, ring: Ring, st: Torch) {
    Distinct(keys) && |keys| == |ring.cadences| == |st.rules| && (ring.back.Some? ==> ring.back.value < |keys|)
  }

  /** The set holds the unfinished rules of a chain in state `st`; no other rule feeds the chain. */
  ghost predicate Watched(rules: map<Pubkey, AutomationCtx>, keys: seq<Pubkey>, ring: Ring, st: Torch) {
    && Sizes(keys, ring, st)
    && (forall p: nat :: p < |keys| ==> (keys[p] in rules <==> !st.rules[p].finished))
    && (forall p: nat :: p < |keys| && keys[p] in rules ==>
          rules[keys[p]].pubkey == keys[p] && WrittenAs(rules[keys[p]].action, keys, ring.back, p) &&
          rules[keys[p]].executions == st.rules[p].executions)
    && (forall k, p: nat :: k in rules && k !in keys && p < |keys| ==>
          !(rules[k].action.Swap? && rules[k].action.linkedDownstream == Some(keys[p])))
  }

  predicate FiredAndListed(s: RuleState) {
    s.executions > 0 && !s.finished
  }

  /** A rule that hands its output to rule `p` has fired and is not finished. */
  predicate Delivered(ring: Ring, st: Torch, p: nat) {
    || (0 < p <= |st.rules| && FiredAndListed(st.rules[p - 1]))
    || (ring.back == Some(p) && |st.rules| > 0 && FiredAndListed(st.rules[|st.rules| - 1]))
  }

  /** A listed rule that feeds rule `p` is the one before it or the one that links back to it. */
  lemma FeederIs(rules: map<Pubkey, AutomationCtx>, keys: seq<Pubkey>, ring: Ring, st: Torch, p: nat, u: Pubkey)
    requires Watched(rules, keys, ring, st) && p < |keys| && u in rules
    requires rules[u].action.Swap? && rules[u].action.linkedDownstream == Some(keys[p]) && rules[u].executions > 0
    ensures Delivered(ring, st, p)
  {
    assert u in keys;
    var q: nat :| q < |keys| && keys[q] == u;
    assert WrittenAs(rules[keys[q]].action, keys, ring.back, q);
  }

  lemma Feeds(rules: map<Pubkey, AutomationCtx>, keys: seq<Pubkey>, ring: Ring, st: Torch, p: nat)
    returns (u: Pubkey)
    requires Watched(rules, keys, ring, st) && p < |keys| && Delivered(ring, st, p)
    ensures u in rules && rules[u].action.Swap? && rules[u].action.linkedDownstream == Some(keys[p])
    ensures rules[u].executions > 0
  {
    var q := if 0 < p && FiredAndListed(st.rules[p - 1]) then p - 1 else |keys| - 1;
    u := keys[q];
    assert WrittenAs(rules[keys[q]].action, keys, ring.back, q);
  }

  /** Which rules of the chain are armed, in any state. */
  lemma ArmedIffDelivered(rules: map<Pubkey, AutomationCtx>, keys: seq<Pubkey>, ring: Ring, st: Torch, p: nat)
    requires ArmedRight(rules) && Watched(rules, keys, ring, st) && p < |keys| && keys[p] in rules
    ensures rules[keys[p]].armed <==> !rules[keys[p]].action.consumeUpstreamOutput || Delivered(ring, st, p)
  {
    IsWritten(rules, keys, ring, st, p);
    hide Watched, Delivered, ArmedRight;
    ArmedMeans(rules, keys[p]);
    if Delivered(ring, st, p) {
      var u := Feeds(rules, keys, ring, st, p);
    }
    if u :| u in rules && rules[u].action.Swap? && rules[u].action.linkedDownstream == Some(keys[p]) &&
            rules[u].executions > 0 {
      FeederIs(rules, keys, ring, st, p, u);
    }
  }

  lemma IsWritten(rules: map<Pubkey, AutomationCtx>, keys: seq<Pubkey>, ring: Ring, st: Torch, p: nat)
    requires Watched(rules, keys, ring, st) && p < |keys| && keys[p] in rules
    ensures rules[keys[p]].pubkey == keys[p] && WrittenAs(rules[keys[p]].action, keys, ring.back, p)
  {
  }

  // ---- along a run --------------------------------------------------------------

  /** The first pass, with or without a loop. */
  lemma {:induction false} FirstPass(ring: Ring, k: nat)
    requires IsRing(ring) && k <= |ring.cadences|
    ensures var st := After(ring, k);
            && (k < |ring.cadences| ==> st.holder == Some(k))
            && forall p: nat :: p < |ring.cadences| ==>
                 st.rules[p] == RuleAfter(ring.cadences[p], if p < k then 1 else 0)
  {
    if k == 0 {
    } else {
      FirstPass(ring, k - 1);
      AdvanceCounts(ring.cadences[k - 1], 0);
    }
  }

  lemma {:induction false} FiredIff(ring: Ring, k: nat, p: nat)
    requires IsRing(ring) && p < |ring.cadences|
    ensures After(ring, k).rules[p].executions > 0 <==> p < k
  {
    if k <= |ring.cadences| {
      FirstPass(ring, k);
    } else {
      FiredIff(ring, k - 1, p);
    }
  }

  lemma HeadConsumesNothing(rules: map<Pubkey, AutomationCtx>, keys: seq<Pubkey>, ring: Ring, st: Torch)
    requires Watched(rules, keys, ring, st) && |keys| > 0 && keys[0] in rules
    ensures !rules[keys[0]].action.consumeUpstreamOutput
  {
  }

  /** While no rule is finished: after any number of fires exactly the rules up
      to the torch, and those that consume nothing, are armed. */
  lemma ArmedUpToTorch(rules: map<Pubkey, AutomationCtx>, keys: seq<Pubkey>, ring: Ring, k: nat, p: nat)
    requires IsRing(ring) && ArmedRight(rules) && Watched(rules, keys, ring, After(ring, k)) && p < |keys|
    requires forall q: nat :: q < |keys| ==> !After(ring, k).rules[q].finished
    ensures keys[p] in rules
    ensures rules[keys[p]].armed <==> !rules[keys[p]].action.consumeUpstreamOutput || p <= k
  {
    hide ArmedRight, After, WrittenAs, IsRing;
    var st := After(ring, k);
    ArmedIffDelivered(rules, keys, ring, st, p);
    FiredIff(ring, k, |keys| - 1);
    if p > 0 {
      FiredIff(ring, k, p - 1);
      assert !st.rules[p - 1].finished && !st.rules[|keys| - 1].finished;
    } else {
      HeadConsumesNothing(rules, keys, ring, st);
    }
  }

  /** The rule whose turn it is gets past the armed gate. */
  predicate HolderArmed(ring: Ring, consumes: seq<bool>, st: Torch)
    requires |consumes| == |st.rules|
  {
    CanFire(st) ==> (consumes[st.holder.value] ==> Delivered(ring, st, st.holder.value))
  }

  /** ... in every reachable state. */
  ghost predicate AlwaysArmed(ring: Ring, consumes: seq<bool>)
    requires |consumes| == |ring.cadences|
  {
    forall k: nat :: HolderArmed(ring, consumes, After(ring, k))
  }

  lemma FirstPassArmedIff(ring: Ring, consumes: seq<bool>, k: nat)
    requires IsRing(ring) && |consumes| == |ring.cadences| && 0 < k < |consumes|
    ensures HolderArmed(ring, consumes, After(ring, k)) <==> (consumes[k] ==> !SingleShot(ring.cadences[k - 1]))
  {
    hide After;
    FirstPass(ring, k);
    assert ValidCadence(ring.cadences[k - 1]) && ValidCadence(ring.cadences[k]);
  }

  /** In any later lap of a loop: between two loop rules the one before must have
      fires left; at the start of a lap the last rule or the warm-up before it. */
  lemma LapArmedIff(ring: Ring, consumes: seq<bool>, c: nat, r: nat)
    requires IsRing(ring) && ring.back.Some? && |consumes| == |ring.cadences|
    requires c >= 1 && r < LoopLength(ring) && Goes(ring, Fires(ring, c, r))
    ensures var t := WarmUps(ring);
            HolderArmed(ring, consumes, After(ring, Fires(ring, c, r))) <==>
            (consumes[t + r] ==>
               if r > 0 then !Spent(ring.cadences[t + r - 1], c + 1)
               else !Spent(ring.cadences[|consumes| - 1], c) || (t > 0 && !SingleShot(ring.cadences[t - 1])))
  {
    hide After, Fires, Goes;
    GoesEarlier(ring, Fires(ring, c, r));
    FiresNext(ring, c);
    AfterCycles(ring, c, r);
    StopsExactly(ring, Fires(ring, c, r));
    if WarmUps(ring) > 0 { assert ValidCadence(ring.cadences[WarmUps(ring) - 1]); }
  }

  lemma HeadArmed(ring: Ring, consumes: seq<bool>)
    requires IsRing(ring) && |consumes| == |ring.cadences| && !consumes[0]
    ensures HolderArmed(ring, consumes, After(ring, 0))
  {
  }

  /** No rule that consumes follows a warm-up that is finished by its one fire. */
  ghost predicate WarmUpsLast(ring: Ring, consumes: seq<bool>, n: nat)
    requires n < |consumes| == |ring.cadences|
  {
    forall p: nat :: 0 < p <= n && consumes[p] ==> !SingleShot(ring.cadences[p - 1])
  }

  /** Without a loop: every rule is armed when its turn comes exactly if none
      that consumes follows one that finishes with its first fire. */
  lemma ArmedInTimeIff(ring: Ring, consumes: seq<bool>)
    requires IsRing(ring) && ring.back.None? && |consumes| == |ring.cadences| && !consumes[0]
    ensures AlwaysArmed(ring, consumes) <==>
            WarmUpsLast(ring, consumes, |consumes| - 1)
  {
    hide HolderArmed, After, SingleShot;
    var n := |consumes|;
    forall k: nat
      ensures HolderArmed(ring, consumes, After(ring, k)) <==>
              (0 < k < n && consumes[k] ==> !SingleShot(ring.cadences[k - 1]))
    {
      if k == 0 {
        HeadArmed(ring, consumes);
      } else if k < n {
        FirstPassArmedIff(ring, consumes, k);
      } else {
        StopsExactly(ring, k);
        NotItsTurn(ring, consumes, After(ring, k));
      }
    }
    if AlwaysArmed(ring, consumes) {
      forall p: nat | 0 < p < n && consumes[p]
        ensures !SingleShot(ring.cadences[p - 1])
      {
        assert HolderArmed(ring, consumes, After(ring, p));
      }
    }
  }

  lemma NotItsTurn(ring: Ring, consumes: seq<bool>, st: Torch)
    requires |consumes| == |st.rules| && !CanFire(st)
    ensures HolderArmed(ring, consumes, st)
  {
  }

  /** With a loop mode: the same up to the loop's first rule, and for a number
      of cycles no rule inside the loop may consume: in the last lap the rule
      before it is finished, and a finished rule is no longer in the set. */
  lemma ModeArmedInTimeIff(ring: Ring, mode: LoopMode, consumes: seq<bool>)
    requires IsRing(ring) && ring.back.Some? && LoopShares(ring, mode)
    requires |consumes| == |ring.cadences| && !consumes[0]
    ensures AlwaysArmed(ring, consumes) <==>
            && WarmUpsLast(ring, consumes, WarmUps(ring))
            && (mode.Frequency? ==> forall p: nat :: WarmUps(ring) < p < |consumes| ==> !consumes[p])
  {
    hide HolderArmed, After, SingleShot, LoopShares;
    var n, t := |consumes|, WarmUps(ring);
    if WarmUpsLast(ring, consumes, t) &&
       (mode.Frequency? ==> forall p: nat :: t < p < n ==> !consumes[p]) {
      forall k: nat
        ensures HolderArmed(ring, consumes, After(ring, k))
      {
        ModeArmedAt(ring, mode, consumes, k);
      }
    }
    if AlwaysArmed(ring, consumes) {
      forall p: nat | 0 < p <= t && consumes[p]
        ensures !SingleShot(ring.cadences[p - 1])
      {
        FirstPassArmedIff(ring, consumes, p);
      }
      forall p: nat | mode.Frequency? && t < p < n
        ensures !consumes[p]
      {
        LastLapUnarmed(ring, mode, consumes, p);
      }
    }
  }

  lemma ModeArmedAt(ring: Ring, mode: LoopMode, consumes: seq<bool>, k: nat)
    requires IsRing(ring) && ring.back.Some? && LoopShares(ring, mode)
    requires |consumes| == |ring.cadences| && !consumes[0] && WarmUpsLast(ring, consumes, WarmUps(ring))
    requires mode.Frequency? ==> forall p: nat :: WarmUps(ring) < p < |consumes| ==> !consumes[p]
    ensures HolderArmed(ring, consumes, After(ring, k))
  {
    hide HolderArmed, After, Fires;
    var n, t := |consumes|, WarmUps(ring);
    if k == 0 {
      HeadArmed(ring, consumes);
    } else if k < n {
      FirstPassArmedIff(ring, consumes, k);
      if k > t { assert InLoop(ring, k - 1); }
    } else if !Goes(ring, k) {
      StopsExactly(ring, k);
      NotItsTurn(ring, consumes, After(ring, k));
    } else {
      var c, r := Decompose(ring, k);
      LaterLap(ring, c, r);
      LapArmedIff(ring, consumes, c, r);
      assert InLoop(ring, n - 1) && (r > 0 ==> InLoop(ring, t + r - 1));
      if mode.Frequency? {
        assert Capped(ring, n - 1);
        GoesMeans(ring, c, r, n - 1);
      }
    }
  }

  lemma LaterLap(ring: Ring, c: nat, r: nat)
    requires IsRing(ring) && ring.back.Some? && r < LoopLength(ring) && Fires(ring, c, r) >= |ring.cadences|
    ensures c >= 1
  {
  }

  lemma LastLapUnarmed(ring: Ring, mode: LoopMode, consumes: seq<bool>, p: nat)
    requires IsRing(ring) && ring.back.Some? && LoopShares(ring, mode) && mode.Frequency?
    requires |consumes| == |ring.cadences| && WarmUps(ring) < p < |consumes|
    requires AlwaysArmed(ring, consumes)
    ensures !consumes[p]
  {
    hide HolderArmed, After;
    assert InLoop(ring, p - 1) && ValidCadence(ring.cadences[p - 1]);
    var c, r := mode.cycles - 1, p - WarmUps(ring);
    if c == 0 {
      FirstPassArmedIff(ring, consumes, p);
    } else {
      assert c * LoopLength(ring) + LoopLength(ring) == mode.cycles * LoopLength(ring);
      ModeGoes(ring, mode, Fires(ring, c, r));
      LapArmedIff(ring, consumes, c, r);
    }
  }

  // ---- from the accounts --------------------------------------------------------

  /** One account of the chain as it stands on chain. */
  ghost predicate AccountAt(discriminator: Bytes, account: RawAccount, a: Automation, keys: seq<Pubkey>,
                            back: Option<nat>, p: nat, s: RuleState)
    requires p < |keys| && (back.Some? ==> back.value < |keys|)
  {
    && account.pubkey == keys[p] && Stores(discriminator, account, a) && WrittenAs(a.action, keys, back, p)
    && a.executions == s.executions && a.finished == s.finished
  }

  ghost predicate HasAccount(discriminator: Bytes, raw: seq<RawAccount>, keys: seq<Pubkey>, back: Option<nat>, p: nat,
                             s: RuleState)
    requires p < |keys| && (back.Some? ==> back.value < |keys|)
  {
    exists i, a: Automation :: 0 <= i < |raw| && AccountAt(discriminator, raw[i], a, keys, back, p, s)
  }

  /** The accounts of the chain are among those scanned; no other unfinished one feeds it. */
  ghost predicate Deployed(discriminator: Bytes, raw: seq<RawAccount>, keys: seq<Pubkey>, ring: Ring, st: Torch) {
    && |discriminator| == 8 && DistinctAccounts(raw) && Sizes(keys, ring, st)
    && (forall p: nat :: p < |keys| ==> HasAccount(discriminator, raw, keys, ring.back, p, st.rules[p]))
    && (forall i, a: Automation, p: nat ::
          0 <= i < |raw| && raw[i].pubkey !in keys && Stores(discriminator, raw[i], a) && p < |keys| ==>
            !(a.action.Swap? && a.action.linkedDownstream == Some(keys[p])))
  }

  lemma StoresOne(discriminator: Bytes, account: RawAccount, a: Automation, b: Automation)
    requires |discriminator| == 8 && Stores(discriminator, account, a) && Stores(discriminator, account, b)
    ensures a == b
  {
    hide FromAccountData, PutAutomation;
    DecodesExactly(discriminator, account.data, a);
    DecodesExactly(discriminator, account.data, b);
  }

  /** A rule of the scanned set is an unfinished account, and every one of them is in it. */
  lemma ScannedRule(ata: DeriveAta, discriminator: Bytes, raw: seq<RawAccount>, k: Pubkey)
    requires |discriminator| == 8 && DistinctAccounts(raw)
    ensures var rules := Scanned(ata, discriminator, raw).byPubkey;
            k in rules ==>
              rules[k].pubkey == k &&
              exists i, a: Automation :: 0 <= i < |raw| && IsRuleOf(discriminator, raw[i], a, rules[k])
    ensures forall i, a: Automation ::
              0 <= i < |raw| && raw[i].pubkey == k && Stores(discriminator, raw[i], a) && !a.finished ==>
              k in Scanned(ata, discriminator, raw).byPubkey
  {
    hide FromAccountData, Stores, ArmedAmong, Inserted;
    var items := Active(discriminator, raw);
    ActiveIsDistinct(discriminator, raw);
    IndexRebuild.WithArmedDistinct(items);
    IndexRebuild.FromItemsPlaced(ata, WithArmed(items));
    IndexRebuild.RulesOfLists(WithArmed(items));
    var rules := Scanned(ata, discriminator, raw).byPubkey;
    if k in rules {
      var j :| 0 <= j < |items| && WithArmed(items)[j] == rules[k];
      ScanFindsExactly(discriminator, raw, items[j]);
      var i, a: Automation :| 0 <= i < |raw| && Stores(discriminator, raw[i], a) && !a.finished &&
        items[j] == AutomationCtx(raw[i].pubkey, a.owner, a.nonce, a.createdAt, a.trigger, a.action, a.bridgeEnabled,
                                  a.executions, true);
      assert IsRuleOf(discriminator, raw[i], a, rules[k]);
    }
    forall i, a: Automation |
      0 <= i < |raw| && raw[i].pubkey == k && Stores(discriminator, raw[i], a) && !a.finished
      ensures k in rules
    {
      var c := AutomationCtx(k, a.owner, a.nonce, a.createdAt, a.trigger, a.action, a.bridgeEnabled, a.executions,
                             true);
      ScanFindsExactly(discriminator, raw, c);
      var j :| 0 <= j < |items| && items[j] == c;
      assert WithArmed(items)[j] in WithArmed(items);
    }
  }

  ghost predicate IsRuleOf(discriminator: Bytes, account: RawAccount, a: Automation, c: AutomationCtx) {
    && Stores(discriminator, account, a) && !a.finished
    && c.pubkey == account.pubkey && c.action == a.action && c.executions == a.executions
  }

  /** What the scan makes of a deployed chain: the premise of the laws above. */
  lemma ScannedChain(ata: DeriveAta, discriminator: Bytes, raw: seq<RawAccount>, keys: seq<Pubkey>, ring: Ring,
                     st: Torch)
    requires Deployed(discriminator, raw, keys, ring, st)
    ensures var rules := Scanned(ata, discriminator, raw).byPubkey;
            ArmedRight(rules) && Watched(rules, keys, ring, st)
  {
    hide Stores, Scanned, WrittenAs;
    var rules := Scanned(ata, discriminator, raw).byPubkey;
    ScannedArmed(ata, discriminator, raw);
    forall p: nat | p < |keys|
      ensures keys[p] in rules <==> !st.rules[p].finished
      ensures keys[p] in rules ==>
                rules[keys[p]].pubkey == keys[p] && WrittenAs(rules[keys[p]].action, keys, ring.back, p) &&
                rules[keys[p]].executions == st.rules[p].executions
    {
      assert HasAccount(discriminator, raw, keys, ring.back, p, st.rules[p]);
      var i, a: Automation :| 0 <= i < |raw| && AccountAt(discriminator, raw[i], a, keys, ring.back, p, st.rules[p]);
      ScannedRule(ata, discriminator, raw, keys[p]);
      if keys[p] in rules {
        var j, b: Automation :| 0 <= j < |raw| && IsRuleOf(discriminator, raw[j], b, rules[keys[p]]);
        assert i == j;
        StoresOne(discriminator, raw[i], a, b);
      }
    }
    forall k, p: nat | k in rules && k !in keys && p < |keys|
      ensures !(rules[k].action.Swap? && rules[k].action.linkedDownstream == Some(keys[p]))
    {
      ScannedRule(ata, discriminator, raw, k);
      var j, b: Automation :| 0 <= j < |raw| && IsRuleOf(discriminator, raw[j], b, rules[k]);
    }
  }

  lemma ScannedArmed(ata: DeriveAta, discriminator: Bytes, raw: seq<RawAccount>)
    requires DistinctAccounts(raw)
    ensures ArmedRight(Scanned(ata, discriminator, raw).byPubkey)
  {
    hide Active, Placed;
    ActiveIsDistinct(discriminator, raw);
    IndexRebuild.RebuildIsCoherent(ata, Active(discriminator, raw));
  }

  /** For instance: of two rules that fire once each, the second consuming the
      first one's output, the second is never armed once the first has fired. */
  lemma TwoOnceCards(rules: map<Pubkey, AutomationCtx>, keys: seq<Pubkey>)
    requires var ring := Ring([Once, Once], None); ArmedRight(rules) && Watched(rules, keys, ring, After(ring, 1))
    ensures |keys| == 2 && keys[0] !in rules && keys[1] in rules && rules[keys[1]].action.Swap?
    ensures rules[keys[1]].action.consumeUpstreamOutput ==> !rules[keys[1]].armed
    ensures After(Ring([Once, Once], None), 1).holder == Some(1)
  {
    var ring := Ring([Once, Once], None);
    FirstPass(ring, 1);
    hide ArmedRight, After;
    IsWritten(rules, keys, ring, After(ring, 1), 1);
    ArmedIffDelivered(rules, keys, ring, After(ring, 1), 1);
  }
}
