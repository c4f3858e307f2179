/** The incrementally maintained indexes are what a rebuild from the surviving
    rules would give (keeper/src/indexer.rs). */
module IndexRebuild {
  import opened Common
  import opened AccountState
  import opened Indexer

  type Rules = map<Pubkey, AutomationCtx>

  /** The list has each rule of the map once. */
  ghost predicate ListsRules(items: seq<AutomationCtx>, rules: Rules) {
    && DistinctRules(items)
    && forall c :: c in items <==> c.pubkey in rules && rules[c.pubkey] == c
  }

  /** Same index up to the order inside a bucket. */
  ghost predicate SameIndex(a: Index, b: Index) {
    && a.byPubkey == b.byPubkey
    && a.account.Keys == b.account.Keys && a.price.Keys == b.price.Keys
    && forall slot :: multiset(At(a, slot)) == multiset(At(b, slot))
  }

  /** The primary map a list of distinct rules gives. */
  function RulesOf(items: seq<AutomationCtx>): Rules
    requires DistinctRules(items)
  {
    if items == [] then map[]
    else
      RulesOf(items[..|items| - 1])[items[|items| - 1].pubkey := items[|items| - 1]]
  }

  lemma {:induction false} RulesOfLists(items: seq<AutomationCtx>)
    requires DistinctRules(items)
    ensures ListsRules(items, RulesOf(items))
    ensures forall k :: k in RulesOf(items) ==> RulesOf(items)[k].pubkey == k && RulesOf(items)[k] in items
  {
    if items == [] {
    } else {
      var init, last := items[..|items| - 1], items[|items| - 1];
      RulesOfLists(init);
      assert items == init + [last];
      assert forall c :: c in init ==> c.pubkey != last.pubkey;
      forall c
        ensures c in items <==> c.pubkey in RulesOf(items) && RulesOf(items)[c.pubkey] == c
      {
        assert c in items <==> c in init || c == last;
      }
    }
  }

  lemma {:induction false} FromItemsPlaced(ata: DeriveAta, items: seq<AutomationCtx>)
    requires DistinctRules(items)
    ensures Placed(ata, FromItems(ata, items))
    ensures FromItems(ata, items).byPubkey == RulesOf(items)
  {
    if items != [] {
      var init, last := items[..|items| - 1], items[|items| - 1];
      hide Placed, Inserted;
      FromItemsPlaced(ata, init);
      LastIsNew(items);
      InsertKeepsPlaced(ata, FromItems(ata, init), last);
      InsertedRules(ata, FromItems(ata, init), last);
    } else {
      NothingPlaced(ata);
    }
  }

  lemma InsertedRules(ata: DeriveAta, ix: Index, ctx: AutomationCtx)
    ensures Inserted(ata, ix, ctx).byPubkey == ix.byPubkey[ctx.pubkey := ctx]
  {
  }

  lemma NothingPlaced(ata: DeriveAta)
    ensures Placed(ata, EMPTY)
  {
  }

  lemma LastIsNew(items: seq<AutomationCtx>)
    requires DistinctRules(items) && items != []
    ensures items[|items| - 1].pubkey !in RulesOf(items[..|items| - 1])
  {
    var init := items[..|items| - 1];
    RulesOfLists(init);
    assert forall c :: c in init ==> c.pubkey != items[|items| - 1].pubkey;
  }

  /** Two coherent sets over the same rules are the same index. */
  lemma CoherentIsDetermined(ata: DeriveAta, a: Index, b: Index)
    requires Placed(ata, a) && Placed(ata, b) && a.byPubkey == b.byPubkey
    ensures SameIndex(a, b)
  {
    forall slot
      ensures multiset(At(a, slot)) == multiset(At(b, slot)) && |At(a, slot)| == |At(b, slot)|
    {
      assert SlotRight(ata, a, slot) && SlotRight(ata, b, slot);
      SameMembers(At(a, slot), At(b, slot));
    }
    forall k
      ensures k in a.account <==> k in b.account
      ensures k in a.price <==> k in b.price
    {
      assert |At(a, AccountSlot(k))| == |At(b, AccountSlot(k))|;
      assert |At(a, PriceSlot(k))| == |At(b, PriceSlot(k))|;
    }
  }

  /** The rules with their flags as the set demands. */
  ghost function ArmedRules(rules: Rules): Rules {
    map k | k in rules :: rules[k].(armed := ArmedIn(rules, rules[k]))
  }

  lemma ArmedRulesIdempotent(rules: Rules)
    ensures ArmedRight(ArmedRules(rules))
    ensures ArmedRules(ArmedRules(rules)) == ArmedRules(rules)
  {
    ArmedIgnoresFlags(rules, ArmedRules(rules));
  }

  lemma WithArmedDistinct(items: seq<AutomationCtx>)
    requires DistinctRules(items)
    ensures DistinctRules(WithArmed(items))
  {
  }

  /** Flags computed on a list are the flags of its rules. */
  lemma WithArmedLists(items: seq<AutomationCtx>)
    requires DistinctRules(items)
    ensures DistinctRules(WithArmed(items))
    ensures RulesOf(WithArmed(items)) == ArmedRules(RulesOf(items))
  {
    var done, rules := WithArmed(items), RulesOf(items);
    WithArmedDistinct(items);
    RulesOfLists(items);
    RulesOfLists(done);
    forall k
      ensures k in rules ==> k in RulesOf(done) && RulesOf(done)[k] == ArmedRules(rules)[k]
      ensures k in RulesOf(done) ==> k in rules
    {
      if k in rules {
        var i := ArmedOfKey(rules, items, done, k);
        assert done[i] in done;
      }
      if k in RulesOf(done) {
        assert RulesOf(done)[k] in done;
        KeyOfDone(rules, items, done, RulesOf(done)[k]);
      }
    }
  }

  /** A rebuild from any list of distinct rules is coherent. */
  lemma RebuildIsCoherent(ata: DeriveAta, items: seq<AutomationCtx>)
    requires DistinctRules(items)
    ensures Coherent(ata, FromItems(ata, WithArmed(items)))
    ensures FromItems(ata, WithArmed(items)).byPubkey == ArmedRules(RulesOf(items))
  {
    WithArmedLists(items);
    FromItemsPlaced(ata, WithArmed(items));
    ArmedRulesIdempotent(RulesOf(items));
  }

  /** A coherent set equals the rebuild from its own rules, listed in any order
      and with any flags. */
  lemma CoherentIsRebuild(ata: DeriveAta, ix: Index, items: seq<AutomationCtx>)
    requires Coherent(ata, ix) && DistinctRules(items)
    requires ArmedRules(RulesOf(items)) == ix.byPubkey
    ensures SameIndex(ix, FromItems(ata, WithArmed(items)))
  {
    RebuildIsCoherent(ata, items);
    CoherentIsDetermined(ata, ix, FromItems(ata, WithArmed(items)));
  }

  // ---- every sequence of events --------------------------------------------------

  /** A lifecycle event, or a reconcile with the accounts fetched (flags not yet computed). */
  datatype Event = Deltas(ev: DeltaApply) | Reconcile(fetched: seq<AutomationCtx>)

  /** The chain has one account per address. */
  ghost predicate ValidEvents(events: seq<Event>) {
    forall i :: 0 <= i < |events| && events[i].Reconcile? ==> DistinctRules(events[i].fetched)
  }

  ghost function Handle(ata: DeriveAta, ix: Index, e: Event): Index {
    match e
    case Deltas(ev) => Delta(ata, ix, ev)
    case Reconcile(fetched) =>
      var rebuilt := FromItems(ata, WithArmed(fetched));
      if Fingerprint(rebuilt.byPubkey) != Fingerprint(ix.byPubkey) then rebuilt else ix
  }

  ghost function Run(ata: DeriveAta, ix: Index, events: seq<Event>): Index {
    if events == [] then ix
    else Handle(ata, Run(ata, ix, events[..|events| - 1]), events[|events| - 1])
  }

  /** The rules that survive the events, flags aside: an upsert replaces, a
      removal deletes, a reconcile replaces everything when it looks different. */
  ghost function Survivors(rules: Rules, events: seq<Event>): Rules
    requires ValidEvents(events)
  {
    if events == [] then rules
    else
      Survive(Survivors(rules, events[..|events| - 1]), events[|events| - 1])
  }

  /** Same rules apart from the flags. */
  ghost predicate SameRules(a: Rules, b: Rules) {
    a.Keys == b.Keys && forall k :: k in a ==> a[k].(armed := true) == b[k].(armed := true)
  }

  lemma SameRulesArmTheSame(a: Rules, b: Rules)
    requires SameRules(a, b)
    ensures ArmedRules(a) == ArmedRules(b)
    ensures Fingerprint(a) == Fingerprint(b)
  {
  }

  /** What one event does to the surviving rules. */
  ghost function Survive(before: Rules, e: Event): Rules
    requires e.Reconcile? ==> DistinctRules(e.fetched)
  {
    match e
    case Deltas(Upsert(ctx)) => before[ctx.pubkey := ctx]
    case Deltas(Remove(pk)) => before - {pk}
    case Reconcile(fetched) => if Fingerprint(RulesOf(fetched)) != Fingerprint(before) then RulesOf(fetched) else before
  }

  ghost predicate Follows(ata: DeriveAta, ix: Index, rules: Rules) {
    Coherent(ata, ix) && ix.byPubkey == ArmedRules(rules)
  }

  /** Replacing a rule, or adding one, in sets that agree up to flags. */
  lemma SameAfterUpsert(rules: Rules, before: Rules, ctx: AutomationCtx)
    requires rules == ArmedRules(before)
    ensures SameRules((rules - {ctx.pubkey})[ctx.pubkey := ctx], before[ctx.pubkey := ctx])
  {
  }

  lemma PlacedAfterUpsert(ata: DeriveAta, ix: Index, ctx: AutomationCtx)
    requires Coherent(ata, ix)
    ensures Placed(ata, Inserted(ata, Removed(ix, ctx.pubkey), ctx))
    ensures Inserted(ata, Removed(ix, ctx.pubkey), ctx).byPubkey == (ix.byPubkey - {ctx.pubkey})[ctx.pubkey := ctx]
  {
    hide SlotRight, DropFrom;
    RemoveKeepsPlaced(ata, ix, ctx.pubkey);
    InsertKeepsPlaced(ata, Removed(ix, ctx.pubkey), ctx);
  }

  lemma UpsertKeeps(ata: DeriveAta, ix: Index, ctx: AutomationCtx, before: Rules)
    requires Follows(ata, ix, before)
    ensures Follows(ata, Handle(ata, ix, Deltas(Upsert(ctx))), before[ctx.pubkey := ctx])
  {
    hide Coherent, Placed, ArmedIn, SameRules, Inserted, Removed, Rearmed, Fingerprint;
    var placed := Inserted(ata, Removed(ix, ctx.pubkey), ctx);
    PlacedAfterUpsert(ata, ix, ctx);
    RearmIsCoherent(ata, placed);
    SameAfterUpsert(ix.byPubkey, before, ctx);
    SameRulesArmTheSame(placed.byPubkey, before[ctx.pubkey := ctx]);
  }

  lemma SameAfterRemove(rules: Rules, before: Rules, pk: Pubkey)
    requires rules == ArmedRules(before)
    ensures SameRules(rules - {pk}, before - {pk})
  {
  }

  lemma RemoveKeeps(ata: DeriveAta, ix: Index, pk: Pubkey, before: Rules)
    requires Follows(ata, ix, before)
    ensures Follows(ata, Handle(ata, ix, Deltas(Remove(pk))), before - {pk})
  {
    hide Placed, SameRules, ArmedIn, Fingerprint;
    assert Placed(ata, ix);
    RemoveKeepsPlaced(ata, ix, pk);
    RearmIsCoherent(ata, Removed(ix, pk));
    SameAfterRemove(ix.byPubkey, before, pk);
    SameRulesArmTheSame(Removed(ix, pk).byPubkey, before - {pk});
    if pk !in ix.byPubkey {
      assert before - {pk} == before;
    }
  }

  lemma ReconcileKeeps(ata: DeriveAta, ix: Index, fetched: seq<AutomationCtx>, before: Rules)
    requires Follows(ata, ix, before) && DistinctRules(fetched)
    ensures Follows(ata, Handle(ata, ix, Reconcile(fetched)), Survive(before, Reconcile(fetched)))
  {
    RebuildIsCoherent(ata, fetched);
    SameRulesArmTheSame(RulesOf(fetched), ArmedRules(RulesOf(fetched)));
    SameRulesArmTheSame(before, ix.byPubkey);
  }

  /** One event keeps the set coherent and over the surviving rules. */
  lemma HandleKeeps(ata: DeriveAta, ix: Index, e: Event, before: Rules)
    requires Follows(ata, ix, before)
    requires e.Reconcile? ==> DistinctRules(e.fetched)
    ensures Follows(ata, Handle(ata, ix, e), Survive(before, e))
  {
    match e
    case Deltas(Upsert(ctx)) => UpsertKeeps(ata, ix, ctx, before);
    case Deltas(Remove(pk)) => RemoveKeeps(ata, ix, pk, before);
    case Reconcile(fetched) => ReconcileKeeps(ata, ix, fetched, before);
  }

  lemma {:induction false} RunKeeps(ata: DeriveAta, ix: Index, rules: Rules, events: seq<Event>)
    requires Follows(ata, ix, rules) && ValidEvents(events)
    ensures Follows(ata, Run(ata, ix, events), Survivors(rules, events))
  {
    if events == [] {
    } else {
      var init := events[..|events| - 1];
      RunKeeps(ata, ix, rules, init);
      HandleKeeps(ata, Run(ata, ix, init), events[|events| - 1], Survivors(rules, init));
    }
  }

  /** After any events from a coherent set, the four indexes are those of a
      rebuild from the surviving rules, however they are listed. */
  lemma IncrementalIsRebuild(ata: DeriveAta, ix: Index, events: seq<Event>, items: seq<AutomationCtx>)
    requires Coherent(ata, ix) && ValidEvents(events)
    requires DistinctRules(items) && SameRules(RulesOf(items), Survivors(ix.byPubkey, events))
    ensures SameIndex(Run(ata, ix, events), FromItems(ata, WithArmed(items)))
    ensures Coherent(ata, Run(ata, ix, events))
  {
    assert ArmedRules(ix.byPubkey) == ix.byPubkey;
    RunKeeps(ata, ix, ix.byPubkey, events);
    SameRulesArmTheSame(RulesOf(items), Survivors(ix.byPubkey, events));
    CoherentIsRebuild(ata, Run(ata, ix, events), items);
  }

  // ---- when a reconcile is a rebuild ------------------------------------------------

  /** After a reconcile the set is the rebuild of the scan exactly when the
      fingerprints differ or the rules, flags aside, are the same as before. */
  lemma ReconcileIsRebuildIff(ata: DeriveAta, ix: Index, fetched: seq<AutomationCtx>)
    requires Coherent(ata, ix) && DistinctRules(fetched)
    ensures SameIndex(Handle(ata, ix, Reconcile(fetched)), FromItems(ata, WithArmed(fetched))) <==>
            Fingerprint(RulesOf(fetched)) != Fingerprint(ix.byPubkey) || SameRules(ix.byPubkey, RulesOf(fetched))
  {
    hide Coherent, Placed, ArmedIn, Fingerprint, FromItems, SameRules, WithArmed;
    var rules := RulesOf(fetched);
    RebuildIsCoherent(ata, fetched);
    ArmedAside(rules);
    SameRulesArmTheSame(rules, ArmedRules(rules));
    if SameRules(ix.byPubkey, rules) {
      CoherentIsArmed(ata, ix);
      SameRulesArmTheSame(ix.byPubkey, rules);
      CoherentIsRebuild(ata, ix, fetched);
    } else if ix.byPubkey == ArmedRules(rules) {
      SameRulesSymmetric(rules, ix.byPubkey);
    }
    RebuiltIsItself(FromItems(ata, WithArmed(fetched)));
  }

  lemma ArmedAside(rules: Rules)
    ensures SameRules(rules, ArmedRules(rules))
  {
  }

  lemma SameRulesSymmetric(a: Rules, b: Rules)
    requires SameRules(a, b)
    ensures SameRules(b, a)
  {
  }

  lemma CoherentIsArmed(ata: DeriveAta, ix: Index)
    requires Coherent(ata, ix)
    ensures ArmedRules(ix.byPubkey) == ix.byPubkey
  {
  }

  lemma RebuiltIsItself(ix: Index)
    ensures SameIndex(ix, ix)
  {
  }

  /** The difference is real: an upstream that has fired since the last scan has
      the same fingerprint, so its downstream rule stays unarmed. */
  lemma FiredUpstreamIsMissed(ata: DeriveAta, up: AutomationCtx, down: AutomationCtx)
    requires up.pubkey != down.pubkey && up.executions == 0
    requires up.action.Swap? && up.action.linkedDownstream == Some(down.pubkey)
    requires down.action.Swap? && down.action.consumeUpstreamOutput
    requires down.action.linkedDownstream != Some(down.pubkey)
    ensures var before, now := FromItems(ata, WithArmed([up, down])), [up.(executions := 1), down];
            var kept, rebuilt := Handle(ata, before, Reconcile(now)), FromItems(ata, WithArmed(now));
            && Coherent(ata, before) && kept == before && !SameIndex(kept, rebuilt)
            && down.pubkey in kept.byPubkey && !kept.byPubkey[down.pubkey].armed
            && down.pubkey in rebuilt.byPubkey && rebuilt.byPubkey[down.pubkey].armed
  {
    hide Coherent, Placed, FromItems, WithArmed, ArmedIn, ArmedRules, Fingerprint, RulesOf;
    var was, now := [up, down], [up.(executions := 1), down];
    PairRules(up, down);
    PairRules(up.(executions := 1), down);
    RebuildIsCoherent(ata, was);
    RebuildIsCoherent(ata, now);
    var rules, fired := RulesOf(was), RulesOf(now);
    FlagsAside(rules);
    FlagsAside(fired);
    PairRows(rules, fired);
    PairArmed(rules, up, down);
    PairArmed(fired, up.(executions := 1), down);
  }

  lemma FlagsAside(rules: Rules)
    ensures Fingerprint(ArmedRules(rules)) == Fingerprint(rules)
  {
    ArmedAside(rules);
    SameRulesArmTheSame(rules, ArmedRules(rules));
  }

  lemma PairArmed(rules: Rules, up: AutomationCtx, down: AutomationCtx)
    requires up.pubkey != down.pubkey && FeedsRule(up, down.pubkey) && !FeedsRule(down, down.pubkey)
    requires down.action.Swap? && down.action.consumeUpstreamOutput
    requires rules == map[up.pubkey := up, down.pubkey := down]
    ensures down.pubkey in ArmedRules(rules) && (ArmedRules(rules)[down.pubkey].armed <==> up.executions > 0)
  {
    assert rules[up.pubkey] == up && rules[down.pubkey] == down;
  }

  lemma PairRules(up: AutomationCtx, down: AutomationCtx)
    requires up.pubkey != down.pubkey
    ensures DistinctRules([up, down])
    ensures RulesOf([up, down]) == map[up.pubkey := up, down.pubkey := down]
  {
    assert [up, down][..1] == [up] && [up][..0] == [];
    assert RulesOf([up]) == map[up.pubkey := up];
  }

  lemma PairRows(a: Rules, b: Rules)
    requires a.Keys == b.Keys && forall k :: k in a ==> a[k].trigger == b[k].trigger
    ensures Fingerprint(a) == Fingerprint(b)
  {
  }
}
