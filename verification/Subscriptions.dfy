/** What the account and price watchers subscribe to, when comparing fingerprints
    is enough to notice that it changed, and what they do not notice: the vault
    targets (keeper/src/indexer.rs, keeper/src/types.rs). */
module Subscriptions {
  import opened Common
  import opened AccountState
  import opened Indexer

  const PYTH: Byte := 0
  const JUPITER: Byte := 1

  function AccountWatchKeys(ix: Index): set<Pubkey> {
    ix.account.Keys
  }

  /** Feeds with a trigger of the given oracle. */
  function PriceFeedsForSource(ix: Index, source: Byte): set<Pubkey> {
    set feed | feed in ix.price &&
      (exists c :: c in ix.price[feed] && c.trigger.AssetPrice? && c.trigger.source == source)
  }

  function AssetPriceQuoteMints(ix: Index): set<Pubkey> {
    set feed, c | feed in ix.price && c in ix.price[feed] && c.trigger.AssetPrice? && c.trigger.quoteMint.Some? ::
      c.trigger.quoteMint.value
  }

  /** Pyth feeds of base legs, and quote legs found in the Pyth catalog. */
  function PythStreamFeeds(ix: Index, catalog: set<Pubkey>): set<Pubkey> {
    (set k | k in ix.byPubkey && ix.byPubkey[k].trigger.AssetPrice? && ix.byPubkey[k].trigger.source == PYTH ::
     ix.byPubkey[k].trigger.feed)
    + (set k | k in ix.byPubkey && ix.byPubkey[k].trigger.AssetPrice? && ix.byPubkey[k].trigger.quoteMint.Some?
         && ix.byPubkey[k].trigger.quoteMint.value in catalog :: ix.byPubkey[k].trigger.quoteMint.value)
  }

  /** Mints of Jupiter base legs, and quote legs the catalog does not know. */
  function ActiveJupiterMints(ix: Index, catalog: set<Pubkey>): set<Pubkey> {
    (set k | k in ix.byPubkey && ix.byPubkey[k].trigger.AssetPrice? && ix.byPubkey[k].trigger.source == JUPITER ::
     ix.byPubkey[k].trigger.feed)
    + (set k | k in ix.byPubkey && ix.byPubkey[k].trigger.AssetPrice? && ix.byPubkey[k].trigger.quoteMint.Some?
         && ix.byPubkey[k].trigger.quoteMint.value !in catalog :: ix.byPubkey[k].trigger.quoteMint.value)
  }

  // ---- what a trigger subscribes to, one fact at a time -----------------------------

  predicate Prices(t: TriggerSpec, feed: Pubkey, source: Byte) {
    t.AssetPrice? && t.feed == feed && t.source == source
  }

  predicate Quotes(t: TriggerSpec, mint: Pubkey) {
    t.AssetPrice? && t.quoteMint == Some(mint)
  }

  /** The all-zero key stands for "none" in a fingerprint row. */
  predicate UsesZeroKey(t: TriggerSpec) {
    (t.AccountActivity? && t.mint == Some(ZERO_KEY)) || (t.AssetPrice? && t.quoteMint == Some(ZERO_KEY))
  }

  /** The zero mint adds no watch key: both its token accounts are the account itself. */
  predicate ZeroMintAddsNothing(ata: DeriveAta, t: TriggerSpec) {
    t.AccountActivity? && ata(t.account, ZERO_KEY, Legacy) == t.account &&
      ata(t.account, ZERO_KEY, Token2022) == t.account
  }

  /** Two triggers with one fingerprint row that differ at most harmlessly: both
      use the zero key or neither does, or using it makes no difference. */
  predicate ZeroKeysAgree(ata: DeriveAta, t: TriggerSpec, u: TriggerSpec) {
    UsesZeroKey(t) == UsesZeroKey(u) || ZeroMintAddsNothing(ata, t)
  }

  /** Both triggers subscribe to the same things. */
  ghost predicate SameSubscriptions(ata: DeriveAta, t: TriggerSpec, u: TriggerSpec) {
    && (forall slot :: Belongs(ata, t, slot) == Belongs(ata, u, slot))
    && (forall feed, source :: Prices(t, feed, source) == Prices(u, feed, source))
    && (forall mint :: Quotes(t, mint) == Quotes(u, mint))
  }

  /** Same row: same subscriptions exactly when the zero keys agree. */
  lemma RowDecides(ata: DeriveAta, pk: Pubkey, t: TriggerSpec, u: TriggerSpec)
    requires Row(pk, t) == Row(pk, u)
    ensures SameSubscriptions(ata, t, u) <==> ZeroKeysAgree(ata, t, u)
  {
    if UsesZeroKey(t) != UsesZeroKey(u) {
      if t.AccountActivity? {
        forall k: Pubkey
          ensures Belongs(ata, t, AccountSlot(k)) == Belongs(ata, u, AccountSlot(k)) <==>
                  (k == t.account ||
                   (k != ata(t.account, ZERO_KEY, Legacy) && k != ata(t.account, ZERO_KEY, Token2022)))
        {
        }
        assert !ZeroMintAddsNothing(ata, t) ==>
          Belongs(ata, t, AccountSlot(ata(t.account, ZERO_KEY, Legacy))) !=
             Belongs(ata, u, AccountSlot(ata(t.account, ZERO_KEY, Legacy)))
          || Belongs(ata, t, AccountSlot(ata(t.account, ZERO_KEY, Token2022))) !=
             Belongs(ata, u, AccountSlot(ata(t.account, ZERO_KEY, Token2022)));
      } else {
        assert Quotes(t, ZERO_KEY) != Quotes(u, ZERO_KEY);
      }
    }
  }

  /** Rule by rule, the two sets use the zero key alike. */
  ghost predicate SetsAgree(ata: DeriveAta, a: Index, b: Index) {
    forall k :: k in a.byPubkey && k in b.byPubkey ==> ZeroKeysAgree(ata, a.byPubkey[k].trigger, b.byPubkey[k].trigger)
  }

  /** The rules behind each view. */
  lemma ViewsFromRules(ata: DeriveAta, ix: Index, catalog: set<Pubkey>, x: Pubkey, source: Byte)
    requires Placed(ata, ix)
    ensures x in AccountWatchKeys(ix) <==>
            exists k :: k in ix.byPubkey && Belongs(ata, ix.byPubkey[k].trigger, AccountSlot(x))
    ensures x in PriceFeedsForSource(ix, source) <==>
            exists k :: k in ix.byPubkey && Prices(ix.byPubkey[k].trigger, x, source)
    ensures x in AssetPriceQuoteMints(ix) <==> exists k :: k in ix.byPubkey && Quotes(ix.byPubkey[k].trigger, x)
    ensures x in PythStreamFeeds(ix, catalog) <==>
            exists k :: k in ix.byPubkey &&
              (Prices(ix.byPubkey[k].trigger, x, PYTH) || (Quotes(ix.byPubkey[k].trigger, x) && x in catalog))
    ensures x in ActiveJupiterMints(ix, catalog) <==>
            exists k :: k in ix.byPubkey &&
              (Prices(ix.byPubkey[k].trigger, x, JUPITER) || (Quotes(ix.byPubkey[k].trigger, x) && x !in catalog))
  {
    AccountView(ata, ix, x);
    PriceViews(ata, ix, x, source);
  }

  /** Each view in terms of the rules' triggers. */
  lemma ViewsMean(ata: DeriveAta, ix: Index, catalog: set<Pubkey>, x: Pubkey, source: Byte)
    requires Placed(ata, ix)
    ensures x in AccountWatchKeys(ix) <==> exists k :: k in ix.byPubkey && Watches(ata, ix.byPubkey[k].trigger, x)
    ensures x in PriceFeedsForSource(ix, source) <==>
            exists k :: k in ix.byPubkey && var t := ix.byPubkey[k].trigger;
              t.AssetPrice? && t.feed == x && t.source == source
    ensures x in AssetPriceQuoteMints(ix) <==>
            exists k :: k in ix.byPubkey && var t := ix.byPubkey[k].trigger; t.AssetPrice? && t.quoteMint == Some(x)
    ensures x in PythStreamFeeds(ix, catalog) <==>
            exists k :: k in ix.byPubkey && var t := ix.byPubkey[k].trigger;
              t.AssetPrice? && ((t.feed == x && t.source == 0) || (t.quoteMint == Some(x) && x in catalog))
    ensures x in ActiveJupiterMints(ix, catalog) <==>
            exists k :: k in ix.byPubkey && var t := ix.byPubkey[k].trigger;
              t.AssetPrice? && ((t.feed == x && t.source == 1) || (t.quoteMint == Some(x) && x !in catalog))
  {
    hide SlotRight;
    ViewsFromRules(ata, ix, catalog, x, source);
    forall k | k in ix.byPubkey
      ensures Belongs(ata, ix.byPubkey[k].trigger, AccountSlot(x)) <==> Watches(ata, ix.byPubkey[k].trigger, x)
    {
    }
  }

  /** The account, or one of its token accounts of the mint named. */
  ghost predicate Watches(ata: DeriveAta, t: TriggerSpec, x: Pubkey) {
    t.AccountActivity? &&
    (x == t.account || (t.mint.Some? && x in {ata(t.account, t.mint.value, Legacy),
                                              ata(t.account, t.mint.value, Token2022)}))
  }

  lemma AccountView(ata: DeriveAta, ix: Index, x: Pubkey)
    requires Placed(ata, ix)
    ensures x in AccountWatchKeys(ix) <==>
            exists k :: k in ix.byPubkey && Belongs(ata, ix.byPubkey[k].trigger, AccountSlot(x))
  {
    assert SlotRight(ata, ix, AccountSlot(x));
    if x in ix.account {
      var c := At(ix, AccountSlot(x))[0];
      assert c in At(ix, AccountSlot(x));
    }
    if k :| k in ix.byPubkey && Belongs(ata, ix.byPubkey[k].trigger, AccountSlot(x)) {
      assert ix.byPubkey[k] in At(ix, AccountSlot(x));
    }
  }

  lemma PriceViews(ata: DeriveAta, ix: Index, x: Pubkey, source: Byte)
    requires Placed(ata, ix)
    ensures x in PriceFeedsForSource(ix, source) <==>
            exists k :: k in ix.byPubkey && Prices(ix.byPubkey[k].trigger, x, source)
    ensures x in AssetPriceQuoteMints(ix) <==> exists k :: k in ix.byPubkey && Quotes(ix.byPubkey[k].trigger, x)
  {
    forall feed, c
      ensures feed in ix.price && c in ix.price[feed] <==>
              c.pubkey in ix.byPubkey && ix.byPubkey[c.pubkey] == c && c.trigger.AssetPrice? && c.trigger.feed == feed
    {
      assert SlotRight(ata, ix, PriceSlot(feed));
      assert c in At(ix, PriceSlot(feed)) <==> feed in ix.price && c in ix.price[feed];
    }
    if k :| k in ix.byPubkey && Prices(ix.byPubkey[k].trigger, x, source) {
      var c := ix.byPubkey[k];
      assert x in ix.price && c in ix.price[x];
    }
    if k :| k in ix.byPubkey && Quotes(ix.byPubkey[k].trigger, x) {
      var c := ix.byPubkey[k];
      assert c.trigger.feed in ix.price && c in ix.price[c.trigger.feed];
    }
  }

  lemma ViewsIncluded(ata: DeriveAta, a: Index, b: Index, catalog: set<Pubkey>, source: Byte, x: Pubkey)
    requires Placed(ata, a) && Placed(ata, b)
    requires SetsAgree(ata, a, b)
    requires Fingerprint(a.byPubkey) == Fingerprint(b.byPubkey)
    ensures x in AccountWatchKeys(a) ==> x in AccountWatchKeys(b)
    ensures x in PriceFeedsForSource(a, source) ==> x in PriceFeedsForSource(b, source)
    ensures x in AssetPriceQuoteMints(a) ==> x in AssetPriceQuoteMints(b)
    ensures x in PythStreamFeeds(a, catalog) ==> x in PythStreamFeeds(b, catalog)
    ensures x in ActiveJupiterMints(a, catalog) ==> x in ActiveJupiterMints(b, catalog)
  {
    hide AccountWatchKeys, PriceFeedsForSource, AssetPriceQuoteMints, PythStreamFeeds, ActiveJupiterMints;
    hide Prices, Quotes, Belongs, SlotRight, ZeroKeysAgree, Row;
    ViewsFromRules(ata, a, catalog, x, source);
    ViewsFromRules(ata, b, catalog, x, source);
    forall k | k in a.byPubkey
      ensures k in b.byPubkey
      ensures Belongs(ata, a.byPubkey[k].trigger, AccountSlot(x)) == Belongs(ata, b.byPubkey[k].trigger, AccountSlot(x))
      ensures Prices(a.byPubkey[k].trigger, x, source) == Prices(b.byPubkey[k].trigger, x, source)
      ensures Prices(a.byPubkey[k].trigger, x, PYTH) == Prices(b.byPubkey[k].trigger, x, PYTH)
      ensures Prices(a.byPubkey[k].trigger, x, JUPITER) == Prices(b.byPubkey[k].trigger, x, JUPITER)
      ensures Quotes(a.byPubkey[k].trigger, x) == Quotes(b.byPubkey[k].trigger, x)
    {
      RowIn(a.byPubkey, b.byPubkey, k);
      RowDecides(ata, k, a.byPubkey[k].trigger, b.byPubkey[k].trigger);
    }
  }

  /** Everything the account and price watchers subscribe to. */
  ghost predicate SameViews(a: Index, b: Index) {
    && AccountWatchKeys(a) == AccountWatchKeys(b) && AssetPriceQuoteMints(a) == AssetPriceQuoteMints(b)
    && (forall source :: PriceFeedsForSource(a, source) == PriceFeedsForSource(b, source))
    && (forall catalog ::
        PythStreamFeeds(a, catalog) == PythStreamFeeds(b, catalog) &&
          ActiveJupiterMints(a, catalog) == ActiveJupiterMints(b, catalog))
  }

  /** Skipping publication on equal fingerprints misses no subscription change
      as long as no rule changes between the zero mint and none. */
  lemma FingerprintSound(ata: DeriveAta, a: Index, b: Index)
    requires Placed(ata, a) && Placed(ata, b)
    requires SetsAgree(ata, a, b)
    requires Fingerprint(a.byPubkey) == Fingerprint(b.byPubkey)
    ensures SameViews(a, b)
  {
    hide AccountWatchKeys, PriceFeedsForSource, AssetPriceQuoteMints, PythStreamFeeds, ActiveJupiterMints;
    hide SlotRight, ZeroKeysAgree, Placed;
    assert SetsAgree(ata, b, a) by { AgreeSymmetric(ata, a, b); }
    forall x: Pubkey
      ensures x in AccountWatchKeys(a) <==> x in AccountWatchKeys(b)
      ensures x in AssetPriceQuoteMints(a) <==> x in AssetPriceQuoteMints(b)
    {
      ViewsIncluded(ata, a, b, {}, 0, x);
      ViewsIncluded(ata, b, a, {}, 0, x);
    }
    forall source: Byte
      ensures PriceFeedsForSource(a, source) == PriceFeedsForSource(b, source)
    {
      forall x: Pubkey
        ensures x in PriceFeedsForSource(a, source) <==> x in PriceFeedsForSource(b, source)
      {
        ViewsIncluded(ata, a, b, {}, source, x);
        ViewsIncluded(ata, b, a, {}, source, x);
      }
    }
    forall catalog: set<Pubkey>
      ensures PythStreamFeeds(a, catalog) == PythStreamFeeds(b, catalog)
      ensures ActiveJupiterMints(a, catalog) == ActiveJupiterMints(b, catalog)
    {
      forall x: Pubkey
        ensures x in PythStreamFeeds(a, catalog) <==> x in PythStreamFeeds(b, catalog)
        ensures x in ActiveJupiterMints(a, catalog) <==> x in ActiveJupiterMints(b, catalog)
      {
        ViewsIncluded(ata, a, b, catalog, 0, x);
        ViewsIncluded(ata, b, a, catalog, 0, x);
      }
    }
  }

  lemma AgreeSymmetric(ata: DeriveAta, a: Index, b: Index)
    requires SetsAgree(ata, a, b) && Fingerprint(a.byPubkey) == Fingerprint(b.byPubkey)
    ensures SetsAgree(ata, b, a)
  {
    forall k | k in a.byPubkey && k in b.byPubkey
      ensures ZeroKeysAgree(ata, b.byPubkey[k].trigger, a.byPubkey[k].trigger)
    {
      RowIn(a.byPubkey, b.byPubkey, k);
    }
  }

  /** Exactly the changes of one rule under an unchanged fingerprint that may go
      unnoticed: in every set that holds the rule otherwise unchanged the
      subscriptions stay the same iff the zero keys agree. */
  lemma FingerprintSoundIff(ata: DeriveAta, pk: Pubkey, t: TriggerSpec, u: TriggerSpec)
    requires Row(pk, t) == Row(pk, u)
    ensures ZeroKeysAgree(ata, t, u) <==> forall a: Index, b: Index :: ChangesRule(ata, a, b, pk, t, u) ==>
              SameViews(a, b)
  {
    if ZeroKeysAgree(ata, t, u) {
      forall a: Index, b: Index | ChangesRule(ata, a, b, pk, t, u)
        ensures SameViews(a, b)
      {
        ChangeKeepsRows(ata, a, b, pk, t, u);
        FingerprintSound(ata, a, b);
      }
    } else {
      var a, b := AloneDiffers(ata, pk, t, u);
    }
  }

  /** Two placed sets that differ in the trigger of one rule only. */
  ghost predicate ChangesRule(ata: DeriveAta, a: Index, b: Index, pk: Pubkey, t: TriggerSpec, u: TriggerSpec) {
    && Placed(ata, a) && Placed(ata, b)
    && pk in a.byPubkey && a.byPubkey[pk].trigger == t
    && b.byPubkey == a.byPubkey[pk := a.byPubkey[pk].(trigger := u)]
  }

  lemma ChangeKeepsRows(ata: DeriveAta, a: Index, b: Index, pk: Pubkey, t: TriggerSpec, u: TriggerSpec)
    requires ChangesRule(ata, a, b, pk, t, u) && Row(pk, t) == Row(pk, u) && ZeroKeysAgree(ata, t, u)
    ensures Fingerprint(a.byPubkey) == Fingerprint(b.byPubkey) && SetsAgree(ata, a, b)
  {
    forall k | k in a.byPubkey
      ensures Row(k, a.byPubkey[k].trigger) == Row(k, b.byPubkey[k].trigger)
    {
    }
  }

  /** A rule whose zero keys disagree, alone in its set, shows the difference. */
  lemma AloneDiffers(ata: DeriveAta, pk: Pubkey, t: TriggerSpec, u: TriggerSpec) returns (a: Index, b: Index)
    requires Row(pk, t) == Row(pk, u) && !ZeroKeysAgree(ata, t, u)
    ensures ChangesRule(ata, a, b, pk, t, u) && Fingerprint(a.byPubkey) == Fingerprint(b.byPubkey)
    ensures AccountWatchKeys(a) != AccountWatchKeys(b) || AssetPriceQuoteMints(a) != AssetPriceQuoteMints(b)
  {
    hide Placed, SlotRight, AccountWatchKeys, AssetPriceQuoteMints, PriceFeedsForSource, FromItems, Row;
    var ctx := AutomationCtx(pk, ZERO_KEY, 0, 0, t, TransferSol(ZERO_KEY, 0), false, 0, true);
    var ctx' := ctx.(trigger := u);
    SingleRule(ata, ctx);
    SingleRule(ata, ctx');
    a, b := FromItems(ata, [ctx]), FromItems(ata, [ctx']);
    OneRow(ctx);
    OneRow(ctx');
    var k := ZeroKeyTells(ata, pk, t, u);
    AccountView(ata, a, k);
    AccountView(ata, b, k);
    PriceViews(ata, a, ZERO_KEY, 0);
    PriceViews(ata, b, ZERO_KEY, 0);
  }

  /** What one of the two triggers subscribes to and the other does not. */
  lemma ZeroKeyTells(ata: DeriveAta, pk: Pubkey, t: TriggerSpec, u: TriggerSpec) returns (k: Pubkey)
    requires Row(pk, t) == Row(pk, u) && !ZeroKeysAgree(ata, t, u)
    ensures Belongs(ata, t, AccountSlot(k)) != Belongs(ata, u, AccountSlot(k)) ||
            Quotes(t, ZERO_KEY) != Quotes(u, ZERO_KEY)
  {
    k := ZERO_KEY;
    if t.AccountActivity? {
      k := if ata(t.account, ZERO_KEY, Legacy) != t.account then ata(t.account, ZERO_KEY, Legacy)
        else ata(t.account, ZERO_KEY, Token2022);
    }
  }

  /** For instance: a rule that watches the all-zero mint instead of none has
      the same row and different watch keys. */
  lemma ZeroMintIsMissed(ata: DeriveAta, pk: Pubkey, account: Pubkey, kind: Byte) returns (a: Index, b: Index)
    requires ata(account, ZERO_KEY, Legacy) != account
    ensures ChangesRule(ata, a, b, pk, AccountActivity(account, None, kind),
                        AccountActivity(account, Some(ZERO_KEY), kind))
    ensures Fingerprint(a.byPubkey) == Fingerprint(b.byPubkey) && !SameViews(a, b)
  {
    a, b := AloneDiffers(ata, pk, AccountActivity(account, None, kind), AccountActivity(account, Some(ZERO_KEY), kind));
  }

  lemma OneRow(ctx: AutomationCtx)
    ensures Fingerprint(map[ctx.pubkey := ctx]) == {Row(ctx.pubkey, ctx.trigger)}
  {
    hide Row;
    var rules := map[ctx.pubkey := ctx];
    assert rules[ctx.pubkey] == ctx;
    forall r
      ensures r in Fingerprint(rules) <==> r == Row(ctx.pubkey, ctx.trigger)
    {
    }
  }

  lemma SingleRule(ata: DeriveAta, ctx: AutomationCtx)
    ensures Placed(ata, FromItems(ata, [ctx]))
    ensures FromItems(ata, [ctx]).byPubkey == map[ctx.pubkey := ctx]
  {
    assert [ctx][..0] == [];
    assert Placed(ata, EMPTY);
    InsertKeepsPlaced(ata, EMPTY, ctx);
  }

  // ---- vault targets ------------------------------------------------------------------

  /** A token account of a rule whose balance is watched. */
  datatype VaultTarget = VaultTarget(mint: Pubkey, owner: Pubkey)

  /** Only bridge-enabled swaps have vaults to watch: one for each of their mints. */
  function VaultTargets(c: AutomationCtx): set<VaultTarget> {
    if c.bridgeEnabled && c.action.Swap? then
      {VaultTarget(c.action.inputMint, c.pubkey), VaultTarget(c.action.outputMint, c.pubkey)}
    else {}
  }

  function ActiveVaultTargets(ix: Index): set<VaultTarget> {
    set k, t | k in ix.byPubkey && t in VaultTargets(ix.byPubkey[k]) :: t
  }

  /** The vaults watched are the two of every rule that swaps across a bridge. */
  lemma VaultsMean(ata: DeriveAta, ix: Index, mint: Pubkey, owner: Pubkey)
    requires Placed(ata, ix)
    ensures VaultTarget(mint, owner) in ActiveVaultTargets(ix) <==>
            owner in ix.byPubkey && var c := ix.byPubkey[owner];
              c.bridgeEnabled && c.action.Swap? && (mint == c.action.inputMint || mint == c.action.outputMint)
  {
    hide SlotRight;
    if owner in ix.byPubkey { OwnTarget(ata, ix, owner, VaultTarget(mint, owner)); }
    if k :| k in ix.byPubkey && VaultTarget(mint, owner) in VaultTargets(ix.byPubkey[k]) {
      OwnTarget(ata, ix, k, VaultTarget(mint, owner));
    }
  }

  /** Sets over the same rules watch the same vaults exactly when each rule does:
      a target names its rule. */
  lemma VaultTargetsIff(ata: DeriveAta, a: Index, b: Index)
    requires Placed(ata, a) && Placed(ata, b) && a.byPubkey.Keys == b.byPubkey.Keys
    ensures ActiveVaultTargets(a) == ActiveVaultTargets(b) <==>
            forall k :: k in a.byPubkey ==> VaultTargets(a.byPubkey[k]) == VaultTargets(b.byPubkey[k])
  {
    hide SlotRight;
    forall k, t: VaultTarget | k in a.byPubkey && t.owner == k
      ensures t in ActiveVaultTargets(a) <==> t in VaultTargets(a.byPubkey[k])
      ensures t in ActiveVaultTargets(b) <==> t in VaultTargets(b.byPubkey[k])
    {
      OwnTarget(ata, a, k, t);
      OwnTarget(ata, b, k, t);
    }
    if ActiveVaultTargets(a) == ActiveVaultTargets(b) {
      forall k | k in a.byPubkey
        ensures VaultTargets(a.byPubkey[k]) == VaultTargets(b.byPubkey[k])
      {
        forall t: VaultTarget
          ensures t in VaultTargets(a.byPubkey[k]) <==> t in VaultTargets(b.byPubkey[k])
        {
          if t.owner == k { OwnTarget(ata, a, k, t); OwnTarget(ata, b, k, t); }
        }
      }
    }
  }

  lemma OwnTarget(ata: DeriveAta, ix: Index, k: Pubkey, t: VaultTarget)
    requires Placed(ata, ix) && k in ix.byPubkey && t.owner == k
    ensures t in ActiveVaultTargets(ix) <==> t in VaultTargets(ix.byPubkey[k])
  {
  }

  /** Equal fingerprints mean the same rules, so this says exactly which changes
      of vault targets an unchanged fingerprint hides. */
  lemma FingerprintHidesVaults(ata: DeriveAta, a: Index, b: Index)
    requires Placed(ata, a) && Placed(ata, b) && Fingerprint(a.byPubkey) == Fingerprint(b.byPubkey)
    ensures a.byPubkey.Keys == b.byPubkey.Keys
    ensures ActiveVaultTargets(a) == ActiveVaultTargets(b) <==>
            forall k :: k in a.byPubkey ==> VaultTargets(a.byPubkey[k]) == VaultTargets(b.byPubkey[k])
  {
    hide Placed, ActiveVaultTargets, VaultTargets;
    forall k
      ensures k in a.byPubkey <==> k in b.byPubkey
    {
      if k in a.byPubkey { RowIn(a.byPubkey, b.byPubkey, k); }
      if k in b.byPubkey { RowIn(b.byPubkey, a.byPubkey, k); }
    }
    VaultTargetsIff(ata, a, b);
  }

  /** For instance: a swap rule whose bridge flag is set keeps its row and its
      other subscriptions and gains two vaults to watch. */
  lemma BridgeFlagIsMissed(ata: DeriveAta, ctx: AutomationCtx) returns (a: Index, b: Index)
    requires ctx.action.Swap? && !ctx.bridgeEnabled
    ensures Placed(ata, a) && Placed(ata, b)
    ensures a.byPubkey == map[ctx.pubkey := ctx] && b.byPubkey == map[ctx.pubkey := ctx.(bridgeEnabled := true)]
    ensures Fingerprint(a.byPubkey) == Fingerprint(b.byPubkey) && SameViews(a, b)
    ensures ActiveVaultTargets(a) != ActiveVaultTargets(b)
  {
    hide Placed, SameViews, FromItems;
    var ctx' := ctx.(bridgeEnabled := true);
    a, b := FromItems(ata, [ctx]), FromItems(ata, [ctx']);
    SingleRule(ata, ctx);
    SingleRule(ata, ctx');
    OneRow(ctx);
    OneRow(ctx');
    FingerprintSound(ata, a, b);
    VaultTargetsIff(ata, a, b);
    assert VaultTarget(ctx.action.inputMint, ctx.pubkey) in VaultTargets(ctx');
    assert ctx.pubkey in a.byPubkey;
  }
}
