/** Batched time-limited cache of address lookup tables
    (keeper/src/caches/lookup_table.rs). */
module LookupTable {
  import opened Common
  import opened AccountState

  const ALT_CACHE_TTL: int := 300

  datatype Table = Table(key: Pubkey, addresses: seq<Pubkey>)

  datatype Entry = Entry(account: Table, fetchedAt: int)

  /** Account data as fetched: it decodes to a list of addresses or it does not. */
  datatype AccountData = Undecodable | Addresses(addresses: seq<Pubkey>)

  /** What the node answers to a batch: an error, or one slot per key asked for. */
  type Rpc = seq<Pubkey> -> Result<seq<Option<AccountData>>, string>

  datatype ResolveError = RpcFailed | DecodeFailed | NotReturned(key: Pubkey)

  /** The batch delivers a table for `k`. */
  ghost predicate Delivers(batch: seq<Pubkey>, answer: seq<Option<AccountData>>, k: Pubkey, table: Table) {
    exists i :: 0 <= i < |batch| && i < |answer| && batch[i] == k && answer[i].Some? && answer[i].value.Addresses?
      && table == Table(k, answer[i].value.addresses)
  }

  ghost predicate Undecoded(answer: seq<Option<AccountData>>, n: nat) {
    exists i :: 0 <= i < |answer| && i < n && answer[i] == Some(Undecodable)
  }

  method FetchLookupTables(rpc: Rpc, keys: seq<Pubkey>) returns (r: Result<map<Pubkey, Table>, ResolveError>)
    requires Distinct(keys)
    ensures r == Err(RpcFailed) <==> rpc(keys).Err?
    ensures r == Err(DecodeFailed) <==> rpc(keys).Ok? && Undecoded(rpc(keys).value, |keys|)
    ensures r.Err? <==> rpc(keys).Err? || Undecoded(rpc(keys).value, |keys|)
    ensures r.Ok? ==> forall k, t :: Lookup(r.value, k) == Some(t) <==> Delivers(keys, rpc(keys).value, k, t)
  {
    var accounts := rpc(keys);
    if accounts.Err? {
      return Err(RpcFailed);
    }
    var answer := accounts.value;
    var n := if |keys| < |answer| then |keys| else |answer|;
    var out: map<Pubkey, Table> := map[];
    for i := 0 to n
      invariant !Undecoded(answer, i)
      invariant forall k, t :: Lookup(out, k) == Some(t) <==> Delivers(keys[..i], answer, k, t)
    {
      ghost var before := out;
      match answer[i] {
        case None =>
        case Some(Undecodable) => return Err(DecodeFailed);
        case Some(Addresses(addresses)) =>
          out := out[keys[i] := Table(keys[i], addresses)];
      }
      forall k, t
        ensures Lookup(out, k) == Some(t) <==> Delivers(keys[..i + 1], answer, k, t)
      {
        DeliversGrows(keys, answer, i, k, t);
        NotYetDelivered(keys, answer, i, before);
      }
    }
    forall k, t
      ensures Delivers(keys[..n], answer, k, t) <==> Delivers(keys, answer, k, t)
    {
      DeliversWithin(keys, answer, n, k, t);
    }
    return Ok(out);
  }

  lemma DeliversGrows(keys: seq<Pubkey>, answer: seq<Option<AccountData>>, i: nat, k: Pubkey, t: Table)
    requires i < |keys| && i < |answer|
    ensures Delivers(keys[..i + 1], answer, k, t) <==>
            Delivers(keys[..i], answer, k, t) ||
              (keys[i] == k && answer[i].Some? && answer[i].value.Addresses? &&
               t == Table(k, answer[i].value.addresses))
  {
  }

  lemma NotYetDelivered(keys: seq<Pubkey>, answer: seq<Option<AccountData>>, i: nat, out: map<Pubkey, Table>)
    requires Distinct(keys) && i < |keys|
    requires forall k, t :: Lookup(out, k) == Some(t) <==> Delivers(keys[..i], answer, k, t)
    ensures keys[i] !in out
  {
    forall t
      ensures !Delivers(keys[..i], answer, keys[i], t)
    {
    }
    var got := Lookup(out, keys[i]);
    var t := if got.Some? then got.value else Table(keys[i], []);
    assert got == Some(t) <==> Delivers(keys[..i], answer, keys[i], t);
  }

  lemma DeliversWithin(keys: seq<Pubkey>, answer: seq<Option<AccountData>>, n: nat, k: Pubkey, t: Table)
    requires n == if |keys| < |answer| then |keys| else |answer|
    ensures Delivers(keys[..n], answer, k, t) <==> Delivers(keys, answer, k, t)
  {
  }

  class LookupTableCache {
    var inner: map<Pubkey, Entry>
    /** Batches sent to the node so far. */
    ghost var batches: seq<seq<Pubkey>>

    ghost predicate Valid()
      reads this
    {
      KeyedRight(inner)
    }

    constructor ()
      ensures Valid() && inner == map[] && batches == []
    {
      inner, batches := map[], [];
    }

    /** Pass 1: fresh hits, and the distinct keys still to be fetched. */
    method Probe(keys: seq<Pubkey>, now: int) returns (resolved: seq<Option<Table>>, missing: seq<Pubkey>)
      ensures |resolved| == |keys|
      ensures forall i :: 0 <= i < |keys| ==>
                resolved[i] == if Fresh(inner, keys[i], now) then Some(inner[keys[i]].account) else None
      ensures Distinct(missing) && forall k :: k in missing <==> k in keys && !Fresh(inner, k, now)
      ensures forall k :: k in missing <==> k in keys && (k in inner ==> now - inner[k].fetchedAt >= 300)
    {
      resolved, missing := [], [];
      for i := 0 to |keys|
        invariant |resolved| == i
        invariant forall j :: 0 <= j < i ==>
                    resolved[j] == if Fresh(inner, keys[j], now) then Some(inner[keys[j]].account) else None
        invariant Distinct(missing) && forall k :: k in missing <==> k in keys[..i] && !Fresh(inner, k, now)
      {
        var k := keys[i];
        assert keys[..i + 1] == keys[..i] + [k];
        if k in inner && now - inner[k].fetchedAt < ALT_CACHE_TTL {
          resolved := resolved + [Some(inner[k].account)];
        } else {
          resolved := resolved + [None];
          if k !in missing {
            missing := missing + [k];
          }
        }
      }
      assert keys[..|keys|] == keys;
    }

    /** One table per key in input order, duplicates included: the fresh cached
        one or the one just fetched. The node is asked at most once, for exactly
        the distinct keys without a fresh entry. `others` is what other callers
        write between the two passes, while no lock is held. */
    method ResolveMany(rpc: Rpc, keys: seq<Pubkey>, now: int, now2: int, others: map<Pubkey, Entry>)
      returns (r: Result<seq<Table>, ResolveError>)
      requires Valid() && KeyedRight(others)
      modifies this
      ensures Valid()
      ensures NeedsFetch(old(inner), keys, now) ==>
              |batches| == |old(batches)| + 1 && batches[..|old(batches)|] == old(batches)
      ensures NeedsFetch(old(inner), keys, now) ==> IsBatch(old(inner), keys, now, batches[|old(batches)|])
      ensures !NeedsFetch(old(inner), keys, now) ==> batches == old(batches) && inner == old(inner) && r.Ok?
      ensures r.Ok? ==> |r.value| == |keys| && forall i :: 0 <= i < |keys| ==>
                r.value[i].key == keys[i] &&
                  (Fresh(old(inner), keys[i], now) ==> r.value[i] == old(inner)[keys[i]].account)
      ensures r.Ok? && NeedsFetch(old(inner), keys, now) ==>
                var batch := batches[|old(batches)|];
                rpc(batch).Ok? && forall i :: 0 <= i < |keys| && !Fresh(old(inner), keys[i], now) ==>
                  Delivers(batch, rpc(batch).value, keys[i], r.value[i])
      ensures NeedsFetch(old(inner), keys, now) ==>
                var batch := batches[|old(batches)|];
                r.Ok? <==> rpc(batch).Ok? && !Undecoded(rpc(batch).value, |batch|)
                           && forall k :: k in batch ==> exists t :: Delivers(batch, rpc(batch).value, k, t)
      ensures NeedsFetch(old(inner), keys, now) ==>
                var batch := batches[|old(batches)|];
                && (r == Err(RpcFailed) <==> rpc(batch).Err?)
                && (r == Err(DecodeFailed) <==> rpc(batch).Ok? && Undecoded(rpc(batch).value, |batch|))
      ensures NeedsFetch(old(inner), keys, now) ==>
              Wrote(inner, old(inner) + others, rpc, batches[|old(batches)|], now2)
    {
      hide Wrote, Delivers, Undecoded;
      if keys == [] {
        return Ok([]);
      }
      var resolved, missing := Probe(keys, now);
      if missing != [] {
        assert missing[0] in missing;
        batches := batches + [missing];
        var fetched := FetchLookupTables(rpc, missing);
        inner := inner + others;
        if fetched.Err? {
          NothingWrote(inner, rpc, missing, now2);
          return Err(fetched.error);
        }
        var filled := Store(fetched.value, now2, keys, resolved, missing, rpc(missing).value);
        DeliveredKeys(missing, rpc(missing).value, fetched.value);
        StoredIsWrote(inner, old(inner) + others, rpc, missing, fetched.value, now2);
        if filled.Err? {
          return Err(filled.error);
        }
        r := Ok(filled.value);
        forall i | 0 <= i < |keys|
          ensures r.value[i].key == keys[i]
          ensures !Fresh(old(inner), keys[i], now) ==> Delivers(missing, rpc(missing).value, keys[i], r.value[i])
        {
          if !Fresh(old(inner), keys[i], now) {
            assert Lookup(fetched.value, keys[i]) == Some(fetched.value[keys[i]]);
          }
        }
      } else {
        AllFresh(keys, missing, resolved, inner, now);
        r := Ok(seq(|resolved|, i requires 0 <= i < |resolved| && resolved[i].Some? => resolved[i].value));
      }
    }

    /** Pass 2, under the write lock: the fetched tables enter the cache, then
        the gaps are filled. */
    method Store(fetched: map<Pubkey, Table>, now2: int, keys: seq<Pubkey>, resolved: seq<Option<Table>>,
                 ghost batch: seq<Pubkey>, ghost answer: seq<Option<AccountData>>)
      returns (r: Result<seq<Table>, ResolveError>)
      requires Valid() && |resolved| == |keys|
      requires forall k, t :: Lookup(fetched, k) == Some(t) ==> Delivers(batch, answer, k, t)
      modifies this`inner
      ensures Valid()
      ensures inner.Keys == old(inner).Keys + fetched.Keys
      ensures forall k :: k in inner ==> inner[k] == if k in fetched then Entry(fetched[k], now2) else old(inner)[k]
      ensures Fills(keys, resolved, fetched, r)
    {
      var entries := map k | k in fetched :: Entry(fetched[k], now2);
      forall k | k in fetched
        ensures fetched[k].key == k
      {
        assert Lookup(fetched, k) == Some(fetched[k]);
      }
      inner := inner + entries;
      r := Fill(keys, resolved, fetched);
    }
  }

  lemma DeliveredKeys(batch: seq<Pubkey>, answer: seq<Option<AccountData>>, fetched: map<Pubkey, Table>)
    requires forall k, t :: Lookup(fetched, k) == Some(t) <==> Delivers(batch, answer, k, t)
    ensures forall k :: k in fetched <==> exists t :: Delivers(batch, answer, k, t)
  {
    forall k | k in fetched
      ensures Delivers(batch, answer, k, fetched[k])
    {
      assert Lookup(fetched, k) == Some(fetched[k]);
    }
  }

  lemma NothingWrote(before: map<Pubkey, Entry>, rpc: Rpc, batch: seq<Pubkey>, now2: int)
    requires rpc(batch).Err? || Undecoded(rpc(batch).value, |batch|)
    ensures Wrote(before, before, rpc, batch, now2)
  {
  }

  lemma StoredIsWrote(after: map<Pubkey, Entry>, before: map<Pubkey, Entry>, rpc: Rpc, batch: seq<Pubkey>,
                      fetched: map<Pubkey, Table>, now2: int)
    requires rpc(batch).Ok? && !Undecoded(rpc(batch).value, |batch|)
    requires forall k, t :: Lookup(fetched, k) == Some(t) <==> Delivers(batch, rpc(batch).value, k, t)
    requires after.Keys == before.Keys + fetched.Keys
    requires forall k :: k in after ==> after[k] == if k in fetched then Entry(fetched[k], now2) else before[k]
    ensures Wrote(after, before, rpc, batch, now2)
  {
    hide Delivers;
    DeliveredKeys(batch, rpc(batch).value, fetched);
    forall k, t | Delivers(batch, rpc(batch).value, k, t)
      ensures Lookup(after, k) == Some(Entry(t, now2))
    {
      assert Lookup(fetched, k) == Some(t);
    }
  }

  ghost predicate KeyedRight(entries: map<Pubkey, Entry>) {
    forall k :: k in entries ==> entries[k].account.key == k
  }

  /** The cache afterwards: a delivered table, stamped, wherever there is one,
      anything else as it was when pass 2 began; nothing when the fetch failed. */
  ghost predicate Wrote(after: map<Pubkey, Entry>, before: map<Pubkey, Entry>, rpc: Rpc, batch: seq<Pubkey>,
                        now2: int) {
    if rpc(batch).Err? || Undecoded(rpc(batch).value, |batch|) then after == before
    else
      && (forall k, t :: Delivers(batch, rpc(batch).value, k, t) ==> Lookup(after, k) == Some(Entry(t, now2)))
      && (forall k :: (forall t :: !Delivers(batch, rpc(batch).value, k, t)) ==> Lookup(after, k) == Lookup(before, k))
  }

  /** The gaps filled from what was fetched, in input order; a key that is
      missing there is an error. */
  ghost predicate Fills(keys: seq<Pubkey>, resolved: seq<Option<Table>>, fetched: map<Pubkey, Table>,
                        r: Result<seq<Table>, ResolveError>)
    requires |resolved| == |keys|
  {
    && (r.Ok? <==> forall i :: 0 <= i < |keys| && resolved[i].None? ==> keys[i] in fetched)
    && (r.Err? ==> exists i :: 0 <= i < |keys| && r.error == NotReturned(keys[i]) && resolved[i].None?
                     && keys[i] !in fetched && forall j :: 0 <= j < i && resolved[j].None? ==> keys[j] in fetched)
    && (r.Ok? ==> |r.value| == |keys| && forall i :: 0 <= i < |keys| ==>
          if resolved[i].Some? then r.value[i] == resolved[i].value
            else keys[i] in fetched && r.value[i] == fetched[keys[i]])
  }

  /** Fills the gaps in input order; a key the node did not return is an error. */
  method Fill(keys: seq<Pubkey>, resolved: seq<Option<Table>>, fetched: map<Pubkey, Table>)
    returns (r: Result<seq<Table>, ResolveError>)
    requires |resolved| == |keys|
    ensures Fills(keys, resolved, fetched, r)
  {
    var out: seq<Table> := [];
    for i := 0 to |keys|
      invariant |out| == i
      invariant forall j :: 0 <= j < i ==>
                  if resolved[j].Some? then out[j] == resolved[j].value
                    else keys[j] in fetched && out[j] == fetched[keys[j]]
    {
      match resolved[i] {
        case Some(t) => out := out + [t];
        case None =>
          if keys[i] !in fetched {
            return Err(NotReturned(keys[i]));
          }
          out := out + [fetched[keys[i]]];
      }
    }
    return Ok(out);
  }

  predicate Fresh(inner: map<Pubkey, Entry>, k: Pubkey, now: int) {
    k in inner && now - inner[k].fetchedAt < ALT_CACHE_TTL
  }

  ghost predicate NeedsFetch(inner: map<Pubkey, Entry>, keys: seq<Pubkey>, now: int) {
    exists k :: k in keys && !Fresh(inner, k, now)
  }

  ghost predicate IsBatch(inner: map<Pubkey, Entry>, keys: seq<Pubkey>, now: int, batch: seq<Pubkey>) {
    Distinct(batch) && forall k :: k in batch <==> k in keys && !Fresh(inner, k, now)
  }

  lemma AllFresh(keys: seq<Pubkey>, missing: seq<Pubkey>, resolved: seq<Option<Table>>, inner: map<Pubkey, Entry>,
                 now: int)
    requires missing == [] && |resolved| == |keys|
    requires forall k :: k in missing <==> k in keys && !Fresh(inner, k, now)
    requires forall i :: 0 <= i < |keys| ==>
               resolved[i] == if Fresh(inner, keys[i], now) then Some(inner[keys[i]].account) else None
    ensures forall i :: 0 <= i < |keys| ==> Fresh(inner, keys[i], now) && resolved[i] == Some(inner[keys[i]].account)
  {
  }

  /** What a second call for the same keys asks the node: nothing until 300
      seconds after a table entered the cache, be it by the first call or before. */
  lemma SecondCallAsks(before: map<Pubkey, Entry>, others: map<Pubkey, Entry>, rpc: Rpc, keys: seq<Pubkey>, now: int,
                       now2: int, batch: seq<Pubkey>, after: map<Pubkey, Entry>, now3: int)
    requires IsBatch(before, keys, now, batch) && Wrote(after, before + others, rpc, batch, now2)
    requires rpc(batch).Ok? && !Undecoded(rpc(batch).value, |batch|)
    requires forall k :: k in batch ==> exists t :: Delivers(batch, rpc(batch).value, k, t)
    requires forall k :: k in keys ==> k !in others
    ensures forall k :: k in keys ==> k in after && (k in batch || k in before)
    ensures NeedsFetch(after, keys, now3) <==>
            exists k :: k in keys && now3 - (if k in batch then now2 else before[k].fetchedAt) >= 300
  {
    hide Delivers, Undecoded;
    forall k | k in keys
      ensures k in after && (k in batch || k in before)
      ensures after[k].fetchedAt == if k in batch then now2 else before[k].fetchedAt
    {
      if k in batch {
        var t :| Delivers(batch, rpc(batch).value, k, t);
        assert Lookup(after, k) == Some(Entry(t, now2));
      } else {
        forall t
          ensures !Delivers(batch, rpc(batch).value, k, t)
        {
          if Delivers(batch, rpc(batch).value, k, t) { DeliveredIsAsked(batch, rpc(batch).value, k, t); }
        }
        assert Lookup(after, k) == Lookup(before + others, k);
      }
    }
  }

  lemma DeliveredIsAsked(batch: seq<Pubkey>, answer: seq<Option<AccountData>>, k: Pubkey, t: Table)
    requires Delivers(batch, answer, k, t)
    ensures k in batch
  {
  }
}
