/** One transaction notification fans out into trigger events
    (keeper/src/subscriber.rs). */
module Subscriber {
  import opened Common
  import opened AccountState
  import opened Indexer

  datatype TokenBalance = TokenBalance(account: Option<Pubkey>, owner: Option<Pubkey>, mint: Pubkey)

  /** The keys a transaction names, repeats included, and its token balances. */
  datatype Activity = Activity(keys: seq<Pubkey>, balances: seq<TokenBalance>)

  predicate BalanceInvolves(ata: DeriveAta, b: TokenBalance, account: Pubkey, mint: Pubkey) {
    && b.mint == mint
    && (b.owner == Some(account) || b.account == Some(account)
        || b.account == Some(ata(account, mint, Legacy)) || b.account == Some(ata(account, mint, Token2022)))
  }

  predicate InvolvesMint(ata: DeriveAta, act: Activity, account: Pubkey, mint: Pubkey) {
    || (exists i :: 0 <= i < |act.balances| && BalanceInvolves(ata, act.balances[i], account, mint))
    || ata(account, mint, Legacy) in act.keys
    || ata(account, mint, Token2022) in act.keys
  }

  /** Swap-mode rules need a known exchange program; a named mint must be involved. */
  predicate ActivityMatches(ata: DeriveAta, act: Activity, t: TriggerSpec, touchesDex: bool) {
    t.AccountActivity? ==>
      && (t.kind == 1 ==> touchesDex)
      && (t.mint.Some? ==> InvolvesMint(ata, act, t.account, t.mint.value))
  }

  /** A rule this notification must fire. */
  predicate Wanted(ata: DeriveAta, act: Activity, touchesDex: bool, c: AutomationCtx) {
    c.armed && ActivityMatches(ata, act, c.trigger, touchesDex)
  }

  function Flat(events: seq<seq<AutomationCtx>>): seq<AutomationCtx> {
    if events == [] then [] else Flat(events[..|events| - 1]) + events[|events| - 1]
  }

  /** The first `i` keys lead to the rule. */
  ghost predicate Touched(ix: Index, keys: seq<Pubkey>, i: nat, c: AutomationCtx)
    requires i <= |keys|
  {
    exists j :: 0 <= j < i && c in Bucket(ix.account, keys[j])
  }

  ghost predicate EmittedSoFar(matches: seq<AutomationCtx>, i: nat, emitted0: set<Pubkey>, emitted: set<Pubkey>)
    requires i <= |matches|
  {
    forall k :: k in emitted <==>
      k in emitted0 || exists j :: 0 <= j < i && matches[j].armed && matches[j].pubkey == k
  }

  ghost predicate FilteredSoFar(matches: seq<AutomationCtx>, i: nat, emitted0: set<Pubkey>,
                                filtered: seq<AutomationCtx>, ata: DeriveAta, act: Activity, touchesDex: bool)
    requires i <= |matches|
  {
    && DistinctRules(filtered)
    && (forall c :: c in filtered <==> c in matches[..i] && Wanted(ata, act, touchesDex, c) && c.pubkey !in emitted0)
  }

  ghost predicate FilterState(matches: seq<AutomationCtx>, i: nat, emitted0: set<Pubkey>, emitted: set<Pubkey>,
                              filtered: seq<AutomationCtx>, ata: DeriveAta, act: Activity, touchesDex: bool)
    requires i <= |matches|
  {
    && EmittedSoFar(matches, i, emitted0, emitted)
    && FilteredSoFar(matches, i, emitted0, filtered, ata, act, touchesDex)
  }

  /** The rules of one key that are armed, not yet emitted, and match. */
  method FilterMatches(ata: DeriveAta, act: Activity, touchesDex: bool, matches: seq<AutomationCtx>,
                       emitted0: set<Pubkey>)
    returns (filtered: seq<AutomationCtx>, emitted: set<Pubkey>)
    requires DistinctRules(matches)
    ensures FilterState(matches, |matches|, emitted0, emitted, filtered, ata, act, touchesDex)
  {
    filtered, emitted := [], emitted0;
    for i := 0 to |matches|
      invariant FilterState(matches, i, emitted0, emitted, filtered, ata, act, touchesDex)
    {
      var m := matches[i];
      ghost var before, sofar := emitted, filtered;
      if m.armed && m.pubkey !in emitted {
        emitted := emitted + {m.pubkey};
        if ActivityMatches(ata, act, m.trigger, touchesDex) {
          filtered := filtered + [m];
        }
      }
      FilterStep(matches, i, emitted0, before, sofar, emitted, filtered, ata, act, touchesDex);
    }
  }

  lemma EmittedStep(matches: seq<AutomationCtx>, i: nat, emitted0: set<Pubkey>, emitted: set<Pubkey>,
                    emitted': set<Pubkey>)
    requires i < |matches| && EmittedSoFar(matches, i, emitted0, emitted)
    requires emitted' == if matches[i].armed then emitted + {matches[i].pubkey} else emitted
    ensures EmittedSoFar(matches, i + 1, emitted0, emitted')
  {
  }

  /** A rule met for the first time was not emitted under this key before. */
  lemma NewUnderKey(matches: seq<AutomationCtx>, i: nat, emitted0: set<Pubkey>, emitted: set<Pubkey>)
    requires DistinctRules(matches) && i < |matches| && EmittedSoFar(matches, i, emitted0, emitted)
    ensures matches[i].pubkey in emitted <==> matches[i].pubkey in emitted0
    ensures forall c :: c in matches[..i] ==> c.pubkey != matches[i].pubkey
  {
  }

  lemma FilteredStep(matches: seq<AutomationCtx>, i: nat, emitted0: set<Pubkey>, filtered: seq<AutomationCtx>,
                     filtered': seq<AutomationCtx>, ata: DeriveAta, act: Activity, touchesDex: bool)
    requires i < |matches| && FilteredSoFar(matches, i, emitted0, filtered, ata, act, touchesDex)
    requires forall c :: c in matches[..i] ==> c.pubkey != matches[i].pubkey
    requires var m := matches[i];
             filtered' == if m.pubkey !in emitted0 && Wanted(ata, act, touchesDex, m) then filtered + [m] else filtered
    ensures FilteredSoFar(matches, i + 1, emitted0, filtered', ata, act, touchesDex)
  {
    hide Wanted, DistinctRules;
    var m, seen := matches[i], matches[..i];
    assert matches[..i + 1] == seen + [m];
    if filtered' != filtered {
      AppendNew(filtered, m);
    }
    forall c
      ensures c in filtered' <==> c in seen + [m] && Wanted(ata, act, touchesDex, c) && c.pubkey !in emitted0
    {
      assert c in seen + [m] <==> c in seen || c == m;
    }
  }

  lemma AppendNew(rules: seq<AutomationCtx>, m: AutomationCtx)
    requires DistinctRules(rules) && forall c :: c in rules ==> c.pubkey != m.pubkey
    ensures DistinctRules(rules + [m])
  {
  }

  lemma FilterStep(matches: seq<AutomationCtx>, i: nat, emitted0: set<Pubkey>, emitted: set<Pubkey>,
                   filtered: seq<AutomationCtx>, emitted': set<Pubkey>, filtered': seq<AutomationCtx>, ata: DeriveAta,
                   act: Activity, touchesDex: bool)
    requires DistinctRules(matches) && i < |matches|
    requires FilterState(matches, i, emitted0, emitted, filtered, ata, act, touchesDex)
    requires var m := matches[i];
             var taken := m.armed && m.pubkey !in emitted;
             && emitted' == (if taken then emitted + {m.pubkey} else emitted)
             && filtered' == if taken && ActivityMatches(ata, act, m.trigger, touchesDex) then filtered + [m]
                else filtered
    ensures FilterState(matches, i + 1, emitted0, emitted', filtered', ata, act, touchesDex)
  {
    hide ActivityMatches, EmittedSoFar, FilteredSoFar, DistinctRules;
    EmittedStep(matches, i, emitted0, emitted, emitted');
    NewUnderKey(matches, i, emitted0, emitted);
    FilteredStep(matches, i, emitted0, filtered, filtered', ata, act, touchesDex);
  }

  ghost predicate FanState(ata: DeriveAta, ix: Index, act: Activity, touchesDex: bool, i: nat,
                           emitted: set<Pubkey>, flat: seq<AutomationCtx>)
    requires i <= |act.keys|
  {
    && (forall c :: Touched(ix, act.keys, i, c) && c.armed ==> c.pubkey in emitted)
    && (forall k :: k in emitted ==> exists c :: Touched(ix, act.keys, i, c) && c.armed && c.pubkey == k)
    && DistinctRules(flat)
    && (forall c :: c in flat <==> Touched(ix, act.keys, i, c) && Wanted(ata, act, touchesDex, c))
  }

  lemma TouchedGrows(ix: Index, keys: seq<Pubkey>, i: nat, c: AutomationCtx)
    requires i < |keys|
    ensures Touched(ix, keys, i + 1, c) <==> Touched(ix, keys, i, c) || c in Bucket(ix.account, keys[i])
  {
  }

  lemma TouchedIsRule(ata: DeriveAta, ix: Index, keys: seq<Pubkey>, i: nat, c: AutomationCtx)
    requires Placed(ata, ix) && i <= |keys| && Touched(ix, keys, i, c)
    ensures c.pubkey in ix.byPubkey && ix.byPubkey[c.pubkey] == c
  {
    var j :| 0 <= j < i && c in Bucket(ix.account, keys[j]);
    assert SlotRight(ata, ix, AccountSlot(keys[j]));
    assert c in At(ix, AccountSlot(keys[j]));
  }

  lemma FanStep(ata: DeriveAta, ix: Index, act: Activity, touchesDex: bool, i: nat, emitted0: set<Pubkey>,
                flat: seq<AutomationCtx>, emitted: set<Pubkey>, filtered: seq<AutomationCtx>)
    requires Placed(ata, ix) && i < |act.keys|
    requires FanState(ata, ix, act, touchesDex, i, emitted0, flat)
    requires var matches := Bucket(ix.account, act.keys[i]);
             FilterState(matches, |matches|, emitted0, emitted, filtered, ata, act, touchesDex)
    ensures FanState(ata, ix, act, touchesDex, i + 1, emitted, flat + filtered)
  {
    var matches := Bucket(ix.account, act.keys[i]);
    assert matches[..|matches|] == matches;
    forall c
      ensures Touched(ix, act.keys, i + 1, c) <==> Touched(ix, act.keys, i, c) || c in matches
      ensures Touched(ix, act.keys, i + 1, c) ==> c.pubkey in ix.byPubkey && ix.byPubkey[c.pubkey] == c
    {
      TouchedGrows(ix, act.keys, i, c);
      if Touched(ix, act.keys, i + 1, c) { TouchedIsRule(ata, ix, act.keys, i + 1, c); }
    }
    FanEmitted(ata, ix, act, touchesDex, i, emitted0, flat, emitted, filtered);
    FanFlat(ata, ix, act, touchesDex, i, emitted0, flat, emitted, filtered);
  }

  lemma FanEmitted(ata: DeriveAta, ix: Index, act: Activity, touchesDex: bool, i: nat, emitted0: set<Pubkey>,
                   flat: seq<AutomationCtx>, emitted: set<Pubkey>, filtered: seq<AutomationCtx>)
    requires i < |act.keys|
    requires FanState(ata, ix, act, touchesDex, i, emitted0, flat)
    requires var matches := Bucket(ix.account, act.keys[i]);
             && FilterState(matches, |matches|, emitted0, emitted, filtered, ata, act, touchesDex)
             && forall c :: Touched(ix, act.keys, i + 1, c) <==> Touched(ix, act.keys, i, c) || c in matches
    ensures forall c :: Touched(ix, act.keys, i + 1, c) && c.armed ==> c.pubkey in emitted
    ensures forall k :: k in emitted ==> exists c :: Touched(ix, act.keys, i + 1, c) && c.armed && c.pubkey == k
  {
  }

  lemma FanFlat(ata: DeriveAta, ix: Index, act: Activity, touchesDex: bool, i: nat, emitted0: set<Pubkey>,
                flat: seq<AutomationCtx>, emitted: set<Pubkey>, filtered: seq<AutomationCtx>)
    requires i < |act.keys|
    requires FanState(ata, ix, act, touchesDex, i, emitted0, flat)
    requires var matches := Bucket(ix.account, act.keys[i]);
             && FilterState(matches, |matches|, emitted0, emitted, filtered, ata, act, touchesDex)
             && matches[..|matches|] == matches
             && (forall c :: Touched(ix, act.keys, i + 1, c) <==> Touched(ix, act.keys, i, c) || c in matches)
             && (forall c :: Touched(ix, act.keys, i + 1, c) ==> c.pubkey in ix.byPubkey && ix.byPubkey[c.pubkey] == c)
    ensures DistinctRules(flat + filtered)
    ensures forall c :: c in flat + filtered <==> Touched(ix, act.keys, i + 1, c) && Wanted(ata, act, touchesDex, c)
  {
  }

  /** What must have happened for a rule to be emitted, by the accounts named and
      the balances listed. A rule without a mint needs its account named. One with
      a mint needs one of its token accounts named, or its account named and a
      balance of that mint that the account owns or that lies in the account or
      in one of its token accounts. A swap-mode rule needs an exchange program too. */
  ghost predicate Calls(ata: DeriveAta, act: Activity, touchesDex: bool, c: AutomationCtx) {
    && c.armed && c.trigger.AccountActivity? && (c.trigger.kind == 1 ==> touchesDex)
    && var account := c.trigger.account;
       match c.trigger.mint
       case None => account in act.keys
       case Some(mint) =>
         var legacy, token2022 := ata(account, mint, Legacy), ata(account, mint, Token2022);
         || legacy in act.keys || token2022 in act.keys
         || (account in act.keys
             && exists b :: b in act.balances && b.mint == mint
                            && (b.owner == Some(account)
                                || b.account in {Some(account), Some(legacy), Some(token2022)}))
  }

  /** The filter and the lookup together ask for exactly that. */
  lemma WantedIsCalled(ata: DeriveAta, act: Activity, touchesDex: bool, c: AutomationCtx)
    ensures Wanted(ata, act, touchesDex, c) && HasNamedKey(ata, c, act.keys) <==> Calls(ata, act, touchesDex, c)
  {
    if c.trigger.AccountActivity? && c.trigger.mint.Some? {
      var account, mint := c.trigger.account, c.trigger.mint.value;
      if b :| b in act.balances && BalanceInvolves(ata, b, account, mint) {
        var i :| 0 <= i < |act.balances| && act.balances[i] == b;
        assert BalanceInvolves(ata, act.balances[i], account, mint);
      }
      if i :| 0 <= i < |act.balances| && BalanceInvolves(ata, act.balances[i], account, mint) {
        assert act.balances[i] in act.balances;
      }
    }
  }

  /** A rule is emitted exactly once if it is armed, matches, and one of its
      watch keys is named by the transaction; otherwise never. No event is empty. */
  method FanOut(ata: DeriveAta, ix: Index, act: Activity, touchesDex: bool) returns (events: seq<seq<AutomationCtx>>)
    requires Placed(ata, ix)
    ensures DistinctRules(Flat(events))
    ensures forall c :: c in Flat(events) <==>
              c.pubkey in ix.byPubkey && ix.byPubkey[c.pubkey] == c && Calls(ata, act, touchesDex, c)
    ensures forall c :: c in Flat(events) && c.trigger.AccountActivity? && c.trigger.kind == 1 ==> touchesDex
    ensures forall e :: e in events ==> e != []
  {
    events := [];
    var emitted: set<Pubkey> := {};
    for i := 0 to |act.keys|
      invariant FanState(ata, ix, act, touchesDex, i, emitted, Flat(events))
      invariant forall e :: e in events ==> e != []
    {
      var matches := Bucket(ix.account, act.keys[i]);
      assert SlotRight(ata, ix, AccountSlot(act.keys[i])) && matches == At(ix, AccountSlot(act.keys[i]));
      var filtered, emitted' := FilterMatches(ata, act, touchesDex, matches, emitted);
      FanStep(ata, ix, act, touchesDex, i, emitted, Flat(events), emitted', filtered);
      emitted := emitted';
      if filtered != [] {
        assert (events + [filtered])[..|events|] == events;
        events := events + [filtered];
      } else {
        assert Flat(events) + filtered == Flat(events);
      }
    }
    forall c
      ensures Touched(ix, act.keys, |act.keys|, c) <==>
              c.pubkey in ix.byPubkey && ix.byPubkey[c.pubkey] == c && HasNamedKey(ata, c, act.keys)
    {
      TouchedMeansNamed(ata, ix, act.keys, c);
    }
    forall c: AutomationCtx
      ensures Wanted(ata, act, touchesDex, c) && HasNamedKey(ata, c, act.keys) <==> Calls(ata, act, touchesDex, c)
    {
      WantedIsCalled(ata, act, touchesDex, c);
    }
  }

  /** The rule watches an account the transaction names. */
  ghost predicate HasNamedKey(ata: DeriveAta, c: AutomationCtx, keys: seq<Pubkey>) {
    c.trigger.AccountActivity? && exists k :: k in keys && IsWatchKey(ata, c.trigger.account, c.trigger.mint, k)
  }

  lemma TouchedMeansNamed(ata: DeriveAta, ix: Index, keys: seq<Pubkey>, c: AutomationCtx)
    requires Placed(ata, ix)
    ensures Touched(ix, keys, |keys|, c) <==>
            c.pubkey in ix.byPubkey && ix.byPubkey[c.pubkey] == c && HasNamedKey(ata, c, keys)
  {
    forall j | 0 <= j < |keys|
      ensures c in Bucket(ix.account, keys[j]) <==>
              c.pubkey in ix.byPubkey && ix.byPubkey[c.pubkey] == c && Belongs(ata, c.trigger, AccountSlot(keys[j]))
    {
      assert SlotRight(ata, ix, AccountSlot(keys[j]));
      assert At(ix, AccountSlot(keys[j])) == Bucket(ix.account, keys[j]);
    }
  }
}
