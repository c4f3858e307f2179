/** The keeper's watched set: one primary map and three trigger indexes kept in
    step, with a cross-rule `armed` flag copied into every index
    (keeper/src/indexer.rs, keeper/src/types.rs). */
module Indexer {
  import opened Common
  import opened AccountState

  datatype AutomationCtx = AutomationCtx(
    pubkey: Pubkey, owner: Pubkey, nonce: U64, createdAt: I64, trigger: TriggerSpec, action: ActionSpec,
    bridgeEnabled: bool, executions: U32, armed: bool)

  datatype TokenProgram = Legacy | Token2022

  /** Address of the token account of an owner and a mint: derived off-chain rules
      hashing, left uninterpreted here. */
  type DeriveAta = (Pubkey, Pubkey, TokenProgram) -> Pubkey

  // ---- what a rule is indexed under -------------------------------------------

  predicate IsWatchKey(ata: DeriveAta, account: Pubkey, mint: Option<Pubkey>, k: Pubkey) {
    k == account || (mint.Some? && (k == ata(account, mint.value, Legacy) || k == ata(account, mint.value, Token2022)))
  }

  function WatchKeys(ata: DeriveAta, account: Pubkey, mint: Option<Pubkey>): (keys: seq<Pubkey>)
    ensures Distinct(keys)
    ensures forall k :: k in keys <==> IsWatchKey(ata, account, mint, k)
  {
    match mint
    case None => [account]
    case Some(m) => AddIfAbsent(AddIfAbsent([account], ata(account, m, Legacy)), ata(account, m, Token2022))
  }

  /** A place a rule can be indexed: an account key, a price feed, or the timer list. */
  datatype Slot = AccountSlot(key: Pubkey) | PriceSlot(feed: Pubkey) | TimeSlot

  predicate Belongs(ata: DeriveAta, t: TriggerSpec, slot: Slot) {
    match t
    case AccountActivity(account, mint, _) => slot.AccountSlot? && slot.key in WatchKeys(ata, account, mint)
    case AssetPrice(feed, _, _, _, _, _) => slot == PriceSlot(feed)
    case TimeElapsed(_) => slot == TimeSlot
    case PriceRelativeToFill(_, _, _) => false
  }

  // ---- the four indexes as one value ---------------------------------------------

  type Buckets = map<Pubkey, seq<AutomationCtx>>

  datatype Index = Index(byPubkey: map<Pubkey, AutomationCtx>, account: Buckets, price: Buckets,
                         time: seq<AutomationCtx>)

  const EMPTY: Index := Index(map[], map[], map[], [])

  function Bucket(m: Buckets, k: Pubkey): seq<AutomationCtx> {
    if k in m then m[k] else []
  }

  function At(ix: Index, slot: Slot): seq<AutomationCtx> {
    match slot
    case AccountSlot(k) => Bucket(ix.account, k)
    case PriceSlot(k) => Bucket(ix.price, k)
    case TimeSlot => ix.time
  }

  ghost predicate DistinctRules(s: seq<AutomationCtx>) {
    forall i, j :: 0 <= i < j < |s| ==> s[i].pubkey != s[j].pubkey
  }

  /** The slot holds exactly the rules that belong there, each once, as they are
      in the primary map. */
  ghost predicate SlotRight(ata: DeriveAta, ix: Index, slot: Slot) {
    && DistinctRules(At(ix, slot))
    && forall c :: c in At(ix, slot) <==>
         c.pubkey in ix.byPubkey && ix.byPubkey[c.pubkey] == c && Belongs(ata, c.trigger, slot)
  }

  /** The primary map is keyed by the rules' keys; every slot is right; no bucket is empty. */
  ghost predicate Placed(ata: DeriveAta, ix: Index) {
    && (forall k :: k in ix.byPubkey ==> ix.byPubkey[k].pubkey == k)
    && (forall slot :: SlotRight(ata, ix, slot))
    && (forall k :: k in ix.account ==> ix.account[k] != [])
    && (forall k :: k in ix.price ==> ix.price[k] != [])
  }

  /** Where a rule is found: under its account and the account's two token accounts
      of the mint it names, under its feed, among the timers, or nowhere. */
  lemma PlacedMeans(ata: DeriveAta, ix: Index, c: AutomationCtx)
    requires Placed(ata, ix)
    ensures var listed, t := c.pubkey in ix.byPubkey && ix.byPubkey[c.pubkey] == c, c.trigger;
            && (c in ix.time <==> listed && t.TimeElapsed?)
            && (forall feed :: feed in ix.price && c in ix.price[feed] <==> listed && t.AssetPrice? && t.feed == feed)
            && (forall k :: k in ix.account && c in ix.account[k] <==>
                  (listed && t.AccountActivity? &&
                   (k == t.account || (t.mint.Some? && (k == ata(t.account, t.mint.value, Legacy) ||
                                                        k == ata(t.account, t.mint.value, Token2022))))))
  {
    assert SlotRight(ata, ix, TimeSlot);
    forall feed
      ensures feed in ix.price && c in ix.price[feed] <==>
              c.pubkey in ix.byPubkey && ix.byPubkey[c.pubkey] == c && c.trigger.AssetPrice? && c.trigger.feed == feed
    {
      assert SlotRight(ata, ix, PriceSlot(feed));
      assert At(ix, PriceSlot(feed)) == Bucket(ix.price, feed);
    }
    forall k
      ensures k in ix.account && c in ix.account[k] <==>
              c.pubkey in ix.byPubkey && ix.byPubkey[c.pubkey] == c && Belongs(ata, c.trigger, AccountSlot(k))
    {
      assert SlotRight(ata, ix, AccountSlot(k));
      assert At(ix, AccountSlot(k)) == Bucket(ix.account, k);
    }
  }

  // ---- the armed flag ----------------------------------------------------------

  predicate FeedsRule(c: AutomationCtx, target: Pubkey) {
    c.action.Swap? && c.action.linkedDownstream == Some(target)
  }

  /** A rule that consumes an upstream's output is armed once some rule of the
      set that hands its output to it has fired; any other rule always is. */
  ghost predicate ArmedIn(rules: map<Pubkey, AutomationCtx>, c: AutomationCtx) {
    c.action.Swap? && c.action.consumeUpstreamOutput ==>
      exists k :: k in rules && FeedsRule(rules[k], c.pubkey) && rules[k].executions > 0
  }

  ghost predicate ArmedRight(rules: map<Pubkey, AutomationCtx>) {
    forall k :: k in rules ==> rules[k].armed == ArmedIn(rules, rules[k])
  }

  /** In a set with right flags a rule is armed unless it consumes what none
      of the rules that name it as their downstream has yet delivered. */
  lemma ArmedMeans(rules: map<Pubkey, AutomationCtx>, k: Pubkey)
    requires ArmedRight(rules) && k in rules && rules[k].pubkey == k
    ensures rules[k].armed <==>
            !rules[k].action.Swap? || !rules[k].action.consumeUpstreamOutput ||
            exists u :: u in rules && rules[u].action.Swap? && rules[u].action.linkedDownstream == Some(k) &&
              rules[u].executions > 0
  {
    assert rules[k].armed == ArmedIn(rules, rules[k]);
    if u :| u in rules && rules[u].action.Swap? && rules[u].action.linkedDownstream == Some(k) &&
              rules[u].executions > 0 {
      assert FeedsRule(rules[u], k);
    }
  }

  ghost predicate Coherent(ata: DeriveAta, ix: Index) {
    Placed(ata, ix) && ArmedRight(ix.byPubkey)
  }

  // ---- insert, remove, patch on values ----------------------------------------------

  function Push(m: Buckets, keys: seq<Pubkey>, ctx: AutomationCtx): Buckets
    decreases |keys|
  {
    if keys == [] then m
    else Push(m[keys[0] := Bucket(m, keys[0]) + [ctx]], keys[1..], ctx)
  }

  function Inserted(ata: DeriveAta, ix: Index, ctx: AutomationCtx): Index {
    var rules := ix.byPubkey[ctx.pubkey := ctx];
    match ctx.trigger
    case AccountActivity(account, mint, _) => ix.(byPubkey := rules,
                                                  account := Push(ix.account, WatchKeys(ata, account, mint), ctx))
    case AssetPrice(feed, _, _, _, _, _) => ix.(byPubkey := rules, price := Push(ix.price, [feed], ctx))
    case TimeElapsed(_) => ix.(byPubkey := rules, time := ix.time + [ctx])
    case PriceRelativeToFill(_, _, _) => ix.(byPubkey := rules)
  }

  function Without(s: seq<AutomationCtx>, pk: Pubkey): seq<AutomationCtx> {
    Filter(s, (c: AutomationCtx) => c.pubkey != pk)
  }

  /** HashMap::retain: filters every bucket and drops the empty ones. */
  function DropFrom(m: Buckets, pk: Pubkey): Buckets {
    map k | k in m && Without(m[k], pk) != [] :: Without(m[k], pk)
  }

  function Removed(ix: Index, pk: Pubkey): Index {
    Index(ix.byPubkey - {pk}, DropFrom(ix.account, pk), DropFrom(ix.price, pk), Without(ix.time, pk))
  }

  function SetArmed(c: AutomationCtx, armed: map<Pubkey, bool>): AutomationCtx {
    if c.pubkey in armed then c.(armed := armed[c.pubkey]) else c
  }

  function PatchSeq(s: seq<AutomationCtx>, armed: map<Pubkey, bool>): seq<AutomationCtx> {
    seq(|s|, i requires 0 <= i < |s| => SetArmed(s[i], armed))
  }

  function PatchBuckets(m: Buckets, armed: map<Pubkey, bool>): Buckets {
    map k | k in m :: PatchSeq(m[k], armed)
  }

  function Patched(ix: Index, armed: map<Pubkey, bool>): Index {
    Index(map k | k in ix.byPubkey :: if k in armed then ix.byPubkey[k].(armed := armed[k]) else ix.byPubkey[k],
          PatchBuckets(ix.account, armed), PatchBuckets(ix.price, armed), PatchSeq(ix.time, armed))
  }

  ghost function ArmedMap(rules: map<Pubkey, AutomationCtx>): map<Pubkey, bool> {
    map k | k in rules :: ArmedIn(rules, rules[k])
  }

  ghost function Rearmed(ix: Index): Index {
    Patched(ix, ArmedMap(ix.byPubkey))
  }

  lemma {:induction false} PushAt(m: Buckets, keys: seq<Pubkey>, ctx: AutomationCtx, k: Pubkey)
    requires Distinct(keys)
    ensures Bucket(Push(m, keys, ctx), k) == Bucket(m, k) + if k in keys then [ctx] else []
    ensures k in Push(m, keys, ctx) <==> k in m || k in keys
    decreases |keys|
  {
    if keys == [] {
    } else {
      assert forall x :: x in keys <==> x == keys[0] || x in keys[1..];
      PushAt(m[keys[0] := Bucket(m, keys[0]) + [ctx]], keys[1..], ctx, k);
    }
  }

  lemma InsertedAt(ata: DeriveAta, ix: Index, ctx: AutomationCtx, slot: Slot)
    ensures At(Inserted(ata, ix, ctx), slot) == At(ix, slot) + if Belongs(ata, ctx.trigger, slot) then [ctx] else []
  {
    match ctx.trigger
    case AccountActivity(account, mint, _) =>
      if slot.AccountSlot? { PushAt(ix.account, WatchKeys(ata, account, mint), ctx, slot.key); }
    case AssetPrice(feed, _, _, _, _, _) =>
      if slot.PriceSlot? { PushAt(ix.price, [feed], ctx, slot.feed); }
    case TimeElapsed(_) =>
    case PriceRelativeToFill(_, _, _) =>
  }

  lemma InsertSlot(ata: DeriveAta, ix: Index, ctx: AutomationCtx, slot: Slot)
    requires SlotRight(ata, ix, slot) && ctx.pubkey !in ix.byPubkey
    ensures SlotRight(ata, Inserted(ata, ix, ctx), slot)
  {
    InsertedAt(ata, ix, ctx, slot);
    hide At, Belongs;
    assert Inserted(ata, ix, ctx).byPubkey == ix.byPubkey[ctx.pubkey := ctx];
  }

  lemma InsertLeavesNoEmptyBucket(ata: DeriveAta, ix: Index, ctx: AutomationCtx, k: Pubkey)
    ensures k in Inserted(ata, ix, ctx).account ==>
              (k in ix.account && ix.account[k] == []) || Inserted(ata, ix, ctx).account[k] != []
    ensures k in Inserted(ata, ix, ctx).price ==>
              (k in ix.price && ix.price[k] == []) || Inserted(ata, ix, ctx).price[k] != []
  {
    if ctx.trigger.AccountActivity? {
      PushAt(ix.account, WatchKeys(ata, ctx.trigger.account, ctx.trigger.mint), ctx, k);
    }
    if ctx.trigger.AssetPrice? { PushAt(ix.price, [ctx.trigger.feed], ctx, k); }
  }

  lemma InsertKeepsPlaced(ata: DeriveAta, ix: Index, ctx: AutomationCtx)
    requires Placed(ata, ix) && ctx.pubkey !in ix.byPubkey
    ensures Placed(ata, Inserted(ata, ix, ctx))
  {
    hide SlotRight;
    forall slot
      ensures SlotRight(ata, Inserted(ata, ix, ctx), slot)
    {
      InsertSlot(ata, ix, ctx, slot);
    }
    forall k
      ensures k in Inserted(ata, ix, ctx).account ==> Inserted(ata, ix, ctx).account[k] != []
      ensures k in Inserted(ata, ix, ctx).price ==> Inserted(ata, ix, ctx).price[k] != []
    {
      InsertLeavesNoEmptyBucket(ata, ix, ctx, k);
    }
  }

  lemma RemovedAt(ix: Index, pk: Pubkey, slot: Slot)
    ensures At(Removed(ix, pk), slot) == Without(At(ix, slot), pk)
  {
  }

  lemma {:induction false} WithoutKeepsDistinct(s: seq<AutomationCtx>, pk: Pubkey)
    requires DistinctRules(s)
    ensures DistinctRules(Without(s, pk))
  {
    if s == [] {
    } else {
      var rest := Without(s[1..], pk);
      WithoutKeepsDistinct(s[1..], pk);
      assert Without(s, pk) == (if s[0].pubkey != pk then [s[0]] else []) + rest;
      forall c | c in rest
        ensures c.pubkey != s[0].pubkey
      {
        assert c in s[1..];
      }
    }
  }

  lemma RemoveKeepsPlaced(ata: DeriveAta, ix: Index, pk: Pubkey)
    requires Placed(ata, ix)
    ensures Placed(ata, Removed(ix, pk))
  {
    forall slot
      ensures SlotRight(ata, Removed(ix, pk), slot)
    {
      assert SlotRight(ata, ix, slot);
      RemovedAt(ix, pk, slot);
      WithoutKeepsDistinct(At(ix, slot), pk);
    }
  }

  lemma PatchedAt(ix: Index, armed: map<Pubkey, bool>, slot: Slot)
    ensures At(Patched(ix, armed), slot) == PatchSeq(At(ix, slot), armed)
  {
  }

  /** Setting flags by key moves no rule. */
  lemma PatchKeepsPlaced(ata: DeriveAta, ix: Index, armed: map<Pubkey, bool>)
    requires Placed(ata, ix)
    ensures Placed(ata, Patched(ix, armed))
  {
    var ix' := Patched(ix, armed);
    forall slot
      ensures SlotRight(ata, ix', slot)
    {
      assert SlotRight(ata, ix, slot);
      PatchedAt(ix, armed, slot);
      PatchSlot(ata, ix, armed, slot);
    }
  }

  lemma PatchedFrom(ata: DeriveAta, ix: Index, armed: map<Pubkey, bool>, slot: Slot, c: AutomationCtx)
    requires SlotRight(ata, ix, slot) && c in PatchSeq(At(ix, slot), armed)
    ensures c.pubkey in ix.byPubkey && Patched(ix, armed).byPubkey[c.pubkey] == c && Belongs(ata, c.trigger, slot)
  {
    hide Belongs, At;
    var s := At(ix, slot);
    var i :| 0 <= i < |s| && SetArmed(s[i], armed) == c;
    assert s[i] in s;
  }

  lemma PatchedInto(ata: DeriveAta, ix: Index, armed: map<Pubkey, bool>, slot: Slot, c: AutomationCtx)
    requires Placed(ata, ix) && SlotRight(ata, ix, slot)
    requires c.pubkey in ix.byPubkey && Patched(ix, armed).byPubkey[c.pubkey] == c && Belongs(ata, c.trigger, slot)
    ensures c in PatchSeq(At(ix, slot), armed)
  {
    hide Belongs, At;
    var s, d := At(ix, slot), ix.byPubkey[c.pubkey];
    assert d in s;
    var i :| 0 <= i < |s| && s[i] == d;
    assert PatchSeq(s, armed)[i] == c;
  }

  lemma PatchSlot(ata: DeriveAta, ix: Index, armed: map<Pubkey, bool>, slot: Slot)
    requires Placed(ata, ix) && SlotRight(ata, ix, slot)
    ensures SlotRight(ata, Patched(ix, armed), slot)
  {
    hide Placed, At, Belongs;
    PatchedAt(ix, armed, slot);
    var s, s' := At(ix, slot), At(Patched(ix, armed), slot);
    assert s' == PatchSeq(s, armed);
    forall c
      ensures c in s' <==>
              c.pubkey in Patched(ix, armed).byPubkey && Patched(ix, armed).byPubkey[c.pubkey] == c &&
                Belongs(ata, c.trigger, slot)
    {
      if c in s' { PatchedFrom(ata, ix, armed, slot, c); }
      if c.pubkey in ix.byPubkey && Patched(ix, armed).byPubkey[c.pubkey] == c && Belongs(ata, c.trigger, slot) {
        PatchedInto(ata, ix, armed, slot, c);
      }
    }
  }

  lemma RearmIsCoherent(ata: DeriveAta, ix: Index)
    requires Placed(ata, ix)
    ensures Coherent(ata, Rearmed(ix))
    ensures Rearmed(ix).byPubkey == map k | k in ix.byPubkey ::
              ix.byPubkey[k].(armed := ArmedIn(ix.byPubkey, ix.byPubkey[k]))
  {
    PatchKeepsPlaced(ata, ix, ArmedMap(ix.byPubkey));
    ArmedIgnoresFlags(ix.byPubkey, Rearmed(ix).byPubkey);
  }

  /** The flag depends on actions and run counters, not on flags. */
  lemma ArmedIgnoresFlags(rules: map<Pubkey, AutomationCtx>, rules': map<Pubkey, AutomationCtx>)
    requires rules.Keys == rules'.Keys
    requires forall k :: k in rules ==> rules'[k].(armed := rules[k].armed) == rules[k]
    ensures forall k :: k in rules ==> ArmedIn(rules', rules'[k]) == ArmedIn(rules, rules[k])
  {
  }

  // ---- the set the keeper holds -------------------------------------------------

  class WatchedSet {
    const ata: DeriveAta
    var byPubkey: map<Pubkey, AutomationCtx>
    var accountTriggers: Buckets
    var priceTriggers: Buckets
    var timeTriggers: seq<AutomationCtx>

    ghost function View(): Index
      reads this
    {
      Index(byPubkey, accountTriggers, priceTriggers, timeTriggers)
    }

    constructor (ata: DeriveAta)
      ensures this.ata == ata && View() == EMPTY
    {
      this.ata := ata;
      byPubkey, accountTriggers, priceTriggers, timeTriggers := map[], map[], map[], [];
    }

    /** Rebuilds the set from a list of rules. */
    constructor FromIndex(ata: DeriveAta, items: seq<AutomationCtx>)
      ensures this.ata == ata && View() == FromItems(ata, items)
    {
      this.ata := ata;
      byPubkey, accountTriggers, priceTriggers, timeTriggers := map[], map[], map[], [];
      new;
      for i := 0 to |items|
        invariant View() == FromItems(ata, items[..i])
        invariant this.ata == ata
      {
        InsertCtx(items[i]);
        assert items[..i + 1][..i] == items[..i];
      }
      assert items[..|items|] == items;
    }

    method InsertCtx(ctx: AutomationCtx)
      modifies this
      ensures View() == Inserted(ata, old(View()), ctx)
    {
      byPubkey := byPubkey[ctx.pubkey := ctx];
      match ctx.trigger
      case AccountActivity(account, mint, _) =>
        var keys := WatchKeys(ata, account, mint);
        ghost var before := accountTriggers;
        for i := 0 to |keys|
          invariant View() == Inserted(ata, old(View()), ctx).(account := accountTriggers)
          invariant Push(accountTriggers, keys[i..], ctx) == Push(before, keys, ctx)
        {
          assert keys[i..][1..] == keys[i + 1..];
          accountTriggers := accountTriggers[keys[i] := Bucket(accountTriggers, keys[i]) + [ctx]];
        }
      case AssetPrice(feed, _, _, _, _, _) =>
        priceTriggers := priceTriggers[feed := Bucket(priceTriggers, feed) + [ctx]];
        assert Push(priceTriggers, [feed][1..], ctx) == priceTriggers;
      case TimeElapsed(_) =>
        timeTriggers := timeTriggers + [ctx];
      case PriceRelativeToFill(_, _, _) =>
    }

    method RemoveByPubkey(pk: Pubkey) returns (removed: bool)
      modifies this
      ensures View() == Removed(old(View()), pk)
      ensures removed <==> pk in old(byPubkey) || |timeTriggers| < |old(timeTriggers)|
      ensures Placed(ata, old(View())) ==> (removed <==> pk in old(byPubkey))
    {
      removed := pk in byPubkey;
      byPubkey := byPubkey - {pk};
      accountTriggers := DropFrom(accountTriggers, pk);
      priceTriggers := DropFrom(priceTriggers, pk);
      var before := |timeTriggers|;
      timeTriggers := Without(timeTriggers, pk);
      removed := removed || |timeTriggers| < before;
      if Placed(ata, old(View())) && pk !in old(byPubkey) { AbsentRemoveIsNoOp(ata, old(View()), pk); }
    }

    /** Recomputes the flag over the whole set and copies it into every index. */
    method RecomputeArmed()
      requires Placed(ata, View())
      modifies this
      ensures View() == Rearmed(old(View()))
    {
      hide Placed, Patched, ArmedMap;
      PlacedKeys(ata, View());
      var armedByKey := ArmedFlags(byPubkey);
      var ix := Patched(Index(byPubkey, accountTriggers, priceTriggers, timeTriggers), armedByKey);
      byPubkey, accountTriggers, priceTriggers, timeTriggers := ix.byPubkey, ix.account, ix.price, ix.time;
    }

    method ApplyDelta(ev: DeltaApply) returns (changed: bool)
      requires Coherent(ata, View())
      modifies this
      ensures Coherent(ata, View())
      ensures View() == Delta(ata, old(View()), ev)
      ensures changed <==> ev.Upsert? || ev.pubkey in old(byPubkey)
    {
      match ev {
        case Upsert(ctx) =>
          RemoveKeepsPlaced(ata, View(), ctx.pubkey);
          var _ := RemoveByPubkey(ctx.pubkey);
          InsertKeepsPlaced(ata, View(), ctx);
          InsertCtx(ctx);
          changed := true;
        case Remove(pk) =>
          RemoveKeepsPlaced(ata, View(), pk);
          if pk !in byPubkey { AbsentRemoveIsNoOp(ata, View(), pk); }
          changed := RemoveByPubkey(pk);
      }
      if changed {
        RearmIsCoherent(ata, View());
        RecomputeArmed();
      }
    }

    /** Scans the program's accounts and replaces the set when the fingerprints differ. */
    method ReconcileOnce(discriminator: Bytes, raw: seq<RawAccount>) returns (changed: bool)
      requires DistinctAccounts(raw)
      modifies this
      ensures changed <==> Fingerprint(Scanned(ata, discriminator, raw).byPubkey) != Fingerprint(old(byPubkey))
      ensures View() == if changed then Scanned(ata, discriminator, raw) else old(View())
    {
      var active := FetchActive(discriminator, raw);
      var next := new WatchedSet.FromIndex(ata, active);
      changed := Fingerprint(byPubkey) != Fingerprint(next.byPubkey);
      if changed {
        byPubkey, accountTriggers := next.byPubkey, next.accountTriggers;
        priceTriggers, timeTriggers := next.priceTriggers, next.timeTriggers;
      }
    }
  }

  // ---- the account scan --------------------------------------------------------

  datatype RawAccount = RawAccount(pubkey: Pubkey, data: Bytes)

  ghost predicate DistinctAccounts(raw: seq<RawAccount>) {
    forall i, j :: 0 <= i < j < |raw| ==> raw[i].pubkey != raw[j].pubkey
  }

  /** What the scan makes of one account: unparseable and finished ones are skipped. */
  function CtxOf(discriminator: Bytes, account: RawAccount): Option<AutomationCtx> {
    match FromAccountData(discriminator, account.data)
    case Err(_) => None
    case Ok(a) =>
      if a.finished then None
      else Some(AutomationCtx(account.pubkey, a.owner, a.nonce, a.createdAt, a.trigger, a.action, a.bridgeEnabled,
                              a.executions, true))
  }

  function Active(discriminator: Bytes, raw: seq<RawAccount>): seq<AutomationCtx> {
    if raw == [] then []
    else
      var last := CtxOf(discriminator, raw[|raw| - 1]);
      Active(discriminator, raw[..|raw| - 1]) + if last.Some? then [last.value] else []
  }

  ghost function Scanned(ata: DeriveAta, discriminator: Bytes, raw: seq<RawAccount>): Index {
    FromItems(ata, WithArmed(Active(discriminator, raw)))
  }

  lemma {:induction false} ActiveFrom(discriminator: Bytes, raw: seq<RawAccount>, c: AutomationCtx)
    ensures c in Active(discriminator, raw) <==> exists i :: 0 <= i < |raw| && CtxOf(discriminator, raw[i]) == Some(c)
  {
    hide CtxOf;
    if raw == [] {
    } else {
      var init, last := raw[..|raw| - 1], CtxOf(discriminator, raw[|raw| - 1]);
      ActiveFrom(discriminator, init, c);
      assert forall i :: 0 <= i < |init| ==> init[i] == raw[i];
      assert c in Active(discriminator, raw) <==> c in Active(discriminator, init) || last == Some(c);
    }
  }

  lemma {:induction false} ActiveIsDistinct(discriminator: Bytes, raw: seq<RawAccount>)
    requires DistinctAccounts(raw)
    ensures DistinctRules(Active(discriminator, raw))
  {
    if raw == [] {
    } else {
      var init, last := raw[..|raw| - 1], CtxOf(discriminator, raw[|raw| - 1]);
      ActiveIsDistinct(discriminator, init);
      forall c | c in Active(discriminator, init)
        ensures last.Some? ==> c.pubkey != last.value.pubkey
      {
        ActiveFrom(discriminator, init, c);
        var i :| 0 <= i < |init| && CtxOf(discriminator, init[i]) == Some(c);
        assert raw[i].pubkey != raw[|raw| - 1].pubkey;
      }
    }
  }

  /** The scan yields a rule exactly for the accounts whose bytes are the
      discriminator and the layout of an unfinished automation, padded or not. */
  lemma ScanFindsExactly(discriminator: Bytes, raw: seq<RawAccount>, c: AutomationCtx)
    requires |discriminator| == 8
    ensures c in Active(discriminator, raw) <==>
            exists i, a: Automation ::
              0 <= i < |raw| && Stores(discriminator, raw[i], a) && !a.finished &&
              c == AutomationCtx(raw[i].pubkey, a.owner, a.nonce, a.createdAt, a.trigger, a.action, a.bridgeEnabled,
                                 a.executions, true)
  {
    hide PutAutomation, FromAccountData;
    ActiveFrom(discriminator, raw, c);
    if c in Active(discriminator, raw) {
      var i :| 0 <= i < |raw| && CtxOf(discriminator, raw[i]) == Some(c);
      var a := FromAccountData(discriminator, raw[i].data).value;
      DecodesExactly(discriminator, raw[i].data, a);
      assert Stores(discriminator, raw[i], a);
    }
    forall i, a: Automation | 0 <= i < |raw| && Stores(discriminator, raw[i], a) && !a.finished
      ensures CtxOf(discriminator, raw[i]) == Some(
                AutomationCtx(raw[i].pubkey, a.owner, a.nonce, a.createdAt, a.trigger, a.action, a.bridgeEnabled,
                              a.executions, true))
    {
      DecodesExactly(discriminator, raw[i].data, a);
    }
  }

  /** The account holds `a`, followed by any padding. */
  ghost predicate Stores(discriminator: Bytes, account: RawAccount, a: Automation) {
    exists padding: Bytes :: account.data == discriminator + PutAutomation(a, padding)
  }

  /** The unfinished automations among the program's accounts, flags computed. */
  method FetchActive(discriminator: Bytes, raw: seq<RawAccount>) returns (out: seq<AutomationCtx>)
    requires DistinctAccounts(raw)
    ensures out == WithArmed(Active(discriminator, raw))
  {
    var found: seq<AutomationCtx> := [];
    for i := 0 to |raw|
      invariant found == Active(discriminator, raw[..i])
    {
      assert raw[..i + 1][..i] == raw[..i];
      var ctx := CtxOf(discriminator, raw[i]);
      if ctx.Some? {
        found := found + [ctx.value];
      }
    }
    assert raw[..|raw|] == raw;
    ActiveIsDistinct(discriminator, raw);
    var slice := new AutomationCtx[|found|](i requires 0 <= i < |found| => found[i]);
    assert slice[..] == found;
    ComputeArmed(slice);
    out := slice[..];
  }

  datatype DeltaApply = Upsert(ctx: AutomationCtx) | Remove(pubkey: Pubkey)

  ghost function Delta(ata: DeriveAta, ix: Index, ev: DeltaApply): Index {
    match ev
    case Upsert(ctx) => Rearmed(Inserted(ata, Removed(ix, ctx.pubkey), ctx))
    case Remove(pk) => if pk in ix.byPubkey then Rearmed(Removed(ix, pk)) else ix
  }

  function FromItems(ata: DeriveAta, items: seq<AutomationCtx>): Index {
    if items == [] then EMPTY
    else Inserted(ata, FromItems(ata, items[..|items| - 1]), items[|items| - 1])
  }

  lemma PlacedKeys(ata: DeriveAta, ix: Index)
    requires Placed(ata, ix)
    ensures forall k :: k in ix.byPubkey ==> ix.byPubkey[k].pubkey == k
  {
  }

  /** The flag of every rule of the map, computed over all of them. */
  method ArmedFlags(rules: map<Pubkey, AutomationCtx>) returns (armedByKey: map<Pubkey, bool>)
    requires forall k :: k in rules ==> rules[k].pubkey == k
    ensures armedByKey == ArmedMap(rules)
  {
    hide ArmedMap, WithArmed, ArmedIn;
    var items := Values(rules);
    var slice := new AutomationCtx[|items|](i requires 0 <= i < |items| => items[i]);
    assert slice[..] == items;
    ComputeArmed(slice);
    var done := slice[..];
    FlagsAgree(items, done);
    armedByKey := map c | c in done :: c.pubkey := c.armed;
    ArmedByKey(rules, items, done, armedByKey);
  }

  /** No key has two flags. */
  lemma FlagsAgree(items: seq<AutomationCtx>, done: seq<AutomationCtx>)
    requires DistinctRules(items) && done == WithArmed(items)
    ensures forall c, d :: c in done && d in done && c.pubkey == d.pubkey ==> c == d
  {
    hide ArmedAmong;
    assert DistinctRules(done);
  }

  /** The rules of the map in some order. */
  method Values(rules: map<Pubkey, AutomationCtx>) returns (items: seq<AutomationCtx>)
    requires forall k :: k in rules ==> rules[k].pubkey == k
    ensures DistinctRules(items)
    ensures forall c :: c in items <==> c.pubkey in rules && rules[c.pubkey] == c
  {
    items := [];
    var todo := rules.Keys;
    while todo != {}
      invariant todo <= rules.Keys
      invariant DistinctRules(items)
      invariant forall c :: c in items <==> c.pubkey in rules && rules[c.pubkey] == c && c.pubkey !in todo
    {
      var k :| k in todo;
      items := items + [rules[k]];
      todo := todo - {k};
    }
  }

  // ---- compute_armed on a slice ---------------------------------------------------

  ghost predicate ArmedAmong(items: seq<AutomationCtx>, c: AutomationCtx) {
    c.action.Swap? && c.action.consumeUpstreamOutput ==>
      exists i :: 0 <= i < |items| && FeedsRule(items[i], c.pubkey) && items[i].executions > 0
  }

  ghost function WithArmed(items: seq<AutomationCtx>): seq<AutomationCtx> {
    seq(|items|, i requires 0 <= i < |items| => items[i].(armed := ArmedAmong(items, items[i])))
  }

  /** Some rule that feeds `target` has fired. */
  ghost predicate FedAmong(items: seq<AutomationCtx>, target: Pubkey) {
    exists i :: 0 <= i < |items| && FeedsRule(items[i], target) && items[i].executions > 0
  }

  lemma FedGrows(items: seq<AutomationCtx>, i: nat, k: Pubkey)
    requires i < |items|
    ensures FedAmong(items[..i + 1], k) <==>
            FedAmong(items[..i], k) || (FeedsRule(items[i], k) && items[i].executions > 0)
  {
  }

  lemma NothingFed(items: seq<AutomationCtx>)
    ensures forall k :: !FedAmong(items[..0], k)
  {
  }

  function ExecByKey(items: seq<AutomationCtx>): (m: map<Pubkey, U32>)
    requires DistinctRules(items)
    ensures forall i :: 0 <= i < |items| ==> items[i].pubkey in m && m[items[i].pubkey] == items[i].executions
  {
    var m := map c | c in items :: c.pubkey := c.executions;
    assert forall i :: 0 <= i < |items| ==> items[i] in items && m[items[i].pubkey] == items[i].executions;
    m
  }

  /** Which rules have an upstream that has fired, in one pass. */
  method FedTargets(items: seq<AutomationCtx>) returns (fed: map<Pubkey, bool>)
    requires DistinctRules(items)
    ensures forall k :: (k in fed && fed[k]) <==> FedAmong(items, k)
  {
    hide FedAmong;
    var execByKey := ExecByKey(items);
    fed := map[];
    NothingFed(items);
    for i := 0 to |items|
      invariant forall k :: (k in fed && fed[k]) <==> FedAmong(items[..i], k)
    {
      var c := items[i];
      forall k
        ensures FedAmong(items[..i + 1], k) <==> FedAmong(items[..i], k) || (FeedsRule(c, k) && c.executions > 0)
      {
        FedGrows(items, i, k);
      }
      if c.action.Swap? && c.action.linkedDownstream.Some? {
        var d := c.action.linkedDownstream.value;
        var already := d in fed && fed[d];
        var fired := c.pubkey in execByKey && execByKey[c.pubkey] > 0;
        fed := fed[d := already || fired];
      }
    }
    assert items[..|items|] == items;
  }

  /** What that makes of each rule: only its flag changes, and it is armed unless
      it consumes what none of the rules that name it as their downstream has
      yet delivered. */
  lemma WithArmedMeans(items: seq<AutomationCtx>, i: nat)
    requires i < |items|
    ensures |WithArmed(items)| == |items| && WithArmed(items)[i].(armed := items[i].armed) == items[i]
    ensures WithArmed(items)[i].armed <==>
            !items[i].action.Swap? || !items[i].action.consumeUpstreamOutput ||
            exists u :: u in items && u.action.Swap? && u.action.linkedDownstream == Some(items[i].pubkey) &&
              u.executions > 0
  {
    if u :| u in items && u.action.Swap? && u.action.linkedDownstream == Some(items[i].pubkey) && u.executions > 0 {
      var j :| 0 <= j < |items| && items[j] == u;
      assert FeedsRule(items[j], items[i].pubkey);
    }
  }

  /** Fills the flag of every rule of the slice in place. */
  method ComputeArmed(items: array<AutomationCtx>)
    requires DistinctRules(items[..])
    modifies items
    ensures items[..] == WithArmed(old(items[..]))
  {
    ghost var was := items[..];
    var fed := FedTargets(items[..]);
    for i := 0 to items.Length
      invariant forall j :: i <= j < items.Length ==> items[j] == was[j]
      invariant forall j :: 0 <= j < i ==> items[j] == was[j].(armed := ArmedAmong(was, was[j]))
    {
      var c := items[i];
      var consumes := c.action.Swap? && c.action.consumeUpstreamOutput;
      assert ArmedAmong(was, c) == (consumes ==> FedAmong(was, c.pubkey));
      items[i] := c.(armed := if consumes then c.pubkey in fed && fed[c.pubkey] else true);
    }
  }

  lemma ArmedOfKey(rules: map<Pubkey, AutomationCtx>, items: seq<AutomationCtx>, done: seq<AutomationCtx>, k: Pubkey)
    returns (i: nat)
    requires forall k :: k in rules ==> rules[k].pubkey == k
    requires forall c :: c in items <==> c.pubkey in rules && rules[c.pubkey] == c
    requires done == WithArmed(items) && k in rules
    ensures i < |done| && done[i] == rules[k].(armed := ArmedIn(rules, rules[k]))
  {
    assert rules[k] in items;
    i :| 0 <= i < |items| && items[i] == rules[k];
    AmongIsIn(rules, items, rules[k]);
  }

  lemma KeyOfDone(rules: map<Pubkey, AutomationCtx>, items: seq<AutomationCtx>, done: seq<AutomationCtx>,
                  c: AutomationCtx)
    requires forall k :: k in rules ==> rules[k].pubkey == k
    requires forall c :: c in items <==> c.pubkey in rules && rules[c.pubkey] == c
    requires done == WithArmed(items) && c in done
    ensures c.pubkey in rules && c.armed == ArmedIn(rules, rules[c.pubkey])
  {
  }

  lemma ArmedByKey(rules: map<Pubkey, AutomationCtx>, items: seq<AutomationCtx>, done: seq<AutomationCtx>,
                   armedByKey: map<Pubkey, bool>)
    requires forall k :: k in rules ==> rules[k].pubkey == k
    requires forall c :: c in items <==> c.pubkey in rules && rules[c.pubkey] == c
    requires done == WithArmed(items)
    requires forall k :: k in armedByKey <==> exists c :: c in done && c.pubkey == k
    requires forall c :: c in done ==> armedByKey[c.pubkey] == c.armed
    ensures armedByKey == ArmedMap(rules)
  {
    forall k | k in rules
      ensures k in armedByKey
    {
      var i := ArmedOfKey(rules, items, done, k);
      assert done[i] in done;
    }
    forall k | k in armedByKey
      ensures k in rules && armedByKey[k] == ArmedIn(rules, rules[k])
    {
      var c :| c in done && c.pubkey == k;
      KeyOfDone(rules, items, done, c);
    }
  }

  lemma AmongIsIn(rules: map<Pubkey, AutomationCtx>, items: seq<AutomationCtx>, c: AutomationCtx)
    requires forall k :: k in rules ==> rules[k].pubkey == k
    requires forall c :: c in items <==> c.pubkey in rules && rules[c.pubkey] == c
    ensures ArmedAmong(items, c) == ArmedIn(rules, c)
  {
  }

  lemma AbsentFromSlot(ata: DeriveAta, ix: Index, pk: Pubkey, slot: Slot)
    requires Placed(ata, ix) && pk !in ix.byPubkey
    ensures Without(At(ix, slot), pk) == At(ix, slot)
  {
    hide At, Belongs, Without;
    assert SlotRight(ata, ix, slot);
    WithoutAbsent(At(ix, slot), pk);
  }

  lemma DropNothing(m: Buckets, pk: Pubkey)
    requires forall k :: k in m ==> m[k] != [] && Without(m[k], pk) == m[k]
    ensures DropFrom(m, pk) == m
  {
    hide Without;
  }

  lemma AbsentRemoveIsNoOp(ata: DeriveAta, ix: Index, pk: Pubkey)
    requires Placed(ata, ix) && pk !in ix.byPubkey
    ensures Removed(ix, pk) == ix
  {
    hide SlotRight, Filter;
    forall slot
      ensures Without(At(ix, slot), pk) == At(ix, slot)
    {
      AbsentFromSlot(ata, ix, pk, slot);
    }
    forall k
      ensures k in ix.account ==> Without(ix.account[k], pk) == ix.account[k]
      ensures k in ix.price ==> Without(ix.price[k], pk) == ix.price[k]
    {
      assert Without(At(ix, AccountSlot(k)), pk) == At(ix, AccountSlot(k));
      assert Without(At(ix, PriceSlot(k)), pk) == At(ix, PriceSlot(k));
    }
    assert Without(At(ix, TimeSlot), pk) == At(ix, TimeSlot);
    DropNothing(ix.account, pk);
    DropNothing(ix.price, pk);
  }

  lemma {:induction false} WithoutAbsent(s: seq<AutomationCtx>, pk: Pubkey)
    requires forall c :: c in s ==> c.pubkey != pk
    ensures Without(s, pk) == s
  {
    if s == [] {
    } else {
      WithoutAbsent(s[1..], pk);
    }
  }

  // ---- fingerprint -----------------------------------------------------------------

  const ZERO_KEY: Pubkey := Pubkey([0, 0, 0, 0, 0, 0, 0, 0, 0, 0, 0, 0, 0, 0, 0, 0,
                                   0, 0, 0, 0, 0, 0, 0, 0, 0, 0, 0, 0, 0, 0, 0, 0])

  datatype FpRow = FpRow(pubkey: Pubkey, kind: Byte, target: Pubkey, aux: Pubkey, source: Byte)

  function KeyOrZero(k: Option<Pubkey>): Pubkey {
    if k.Some? then k.value else ZERO_KEY
  }

  function Row(pk: Pubkey, t: TriggerSpec): FpRow {
    match t
    case AccountActivity(account, mint, kind) => FpRow(pk, 0, account, KeyOrZero(mint), kind)
    case AssetPrice(feed, quoteMint, _, _, _, source) => FpRow(pk, 1, feed, KeyOrZero(quoteMint), source)
    case TimeElapsed(_) => FpRow(pk, 2, ZERO_KEY, ZERO_KEY, 0)
    case PriceRelativeToFill(upstream, direction, _) => FpRow(pk, 3, upstream, ZERO_KEY, direction)
  }

  /** One row per rule. The rows are compared sorted; keys are unique, so equal
      sorted lists are equal sets. */
  function Fingerprint(rules: map<Pubkey, AutomationCtx>): set<FpRow> {
    set k | k in rules :: Row(k, rules[k].trigger)
  }

  /** Everything of a trigger that a fingerprint covers: kind of trigger and
      account, mint and mode, or feed, quote mint and oracle, or upstream rule
      and direction, with the all-zero key for a missing mint. */
  ghost predicate SameFacts(t: TriggerSpec, u: TriggerSpec) {
    match (t, u)
    case (AccountActivity(account, mint, kind), AccountActivity(account', mint', kind')) =>
      account == account' && kind == kind' && SameOrZero(mint, mint')
    case (AssetPrice(feed, mint, _, _, _, source), AssetPrice(feed', mint', _, _, _, source')) =>
      feed == feed' && source == source' && SameOrZero(mint, mint')
    case (TimeElapsed(_), TimeElapsed(_)) => true
    case (PriceRelativeToFill(upstream, direction, _), PriceRelativeToFill(upstream', direction', _)) =>
      upstream == upstream' && direction == direction'
    case (_, _) => false
  }

  ghost predicate SameOrZero(m: Option<Pubkey>, m': Option<Pubkey>) {
    m == m' || (m in {None, Some(ZERO_KEY)} && m' in {None, Some(ZERO_KEY)})
  }

  /** Two rule sets have one fingerprint exactly if they have the same rules and
      no trigger differs in what a fingerprint covers. */
  lemma FingerprintMeans(a: map<Pubkey, AutomationCtx>, b: map<Pubkey, AutomationCtx>)
    ensures Fingerprint(a) == Fingerprint(b) <==>
            a.Keys == b.Keys && forall k :: k in a && k in b ==> SameFacts(a[k].trigger, b[k].trigger)
  {
    forall k, t, u
      ensures Row(k, t) == Row(k, u) <==> SameFacts(t, u)
    {
    }
    if Fingerprint(a) == Fingerprint(b) {
      forall k
        ensures k in a ==> k in b && Row(k, a[k].trigger) == Row(k, b[k].trigger)
        ensures k in b ==> k in a
      {
        if k in a { RowIn(a, b, k); }
        if k in b { RowIn(b, a, k); }
      }
    } else if a.Keys == b.Keys && forall k :: k in a ==> SameFacts(a[k].trigger, b[k].trigger) {
      forall row
        ensures row in Fingerprint(a) <==> row in Fingerprint(b)
      {
        if row in Fingerprint(a) {
          var k :| k in a && Row(k, a[k].trigger) == row;
          assert k in b && Row(k, b[k].trigger) == row;
        }
        if row in Fingerprint(b) {
          var k :| k in b && Row(k, b[k].trigger) == row;
          assert k in a && Row(k, a[k].trigger) == row;
        }
      }
    }
  }

  lemma RowIn(a: map<Pubkey, AutomationCtx>, b: map<Pubkey, AutomationCtx>, k: Pubkey)
    requires Fingerprint(a) == Fingerprint(b) && k in a
    ensures k in b && Row(k, a[k].trigger) == Row(k, b[k].trigger)
  {
    assert Row(k, a[k].trigger) in Fingerprint(b);
    var j :| j in b && Row(j, b[j].trigger) == Row(k, a[k].trigger);
  }
}
