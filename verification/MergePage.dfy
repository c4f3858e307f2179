/** Records kept in the browser are merged with the accounts read back; a saved
    link wins over the recovered one (src/lib/on-chain-automations.ts,
    mergeOnChainAutomations). */
module MergePage {
  import opened Common
  import opened Automations
  import opened TorchRun
  import opened TorchDisplay
  import opened WaitingPage

  /** A saved record on top of the account of the same address: actions,
      triggers and link as saved, the larger run counter, the account's nonce
      and end. A saved record without a link has no link field to override with. */
  function MergedWith(saved: Automation, account: Automation): Automation {
    Automation(saved.pubkey, account.nonce, saved.downstream, saved.upstream,
               if saved.runs > account.runs then saved.runs else account.runs, account.terminal,
               if saved.link.Some? then saved.link else account.link)
  }

  function Add(byKey: map<Key, Automation>, saved: Automation): map<Key, Automation> {
    byKey[saved.pubkey := if saved.pubkey in byKey then MergedWith(saved, byKey[saved.pubkey]) else saved]
  }

  /** Of a record that is both saved and read back: nonce and end are the
      account's, actions, triggers and a link as saved; the counter is the larger. */
  ghost predicate OnTop(saved: Automation, account: Automation, a: Automation) {
    && a.pubkey == saved.pubkey && a.nonce == account.nonce && a.terminal == account.terminal
    && a.downstream == saved.downstream && a.upstream == saved.upstream
    && a.runs >= saved.runs && a.runs >= account.runs && (a.runs == saved.runs || a.runs == account.runs)
    && a.link == if saved.link.Some? then saved.link else account.link
  }

  ghost predicate ByAddress(byKey: map<Key, Automation>, items: seq<Automation>) {
    && byKey.Keys == Keys(items)
    && forall n :: 0 <= n < |items| ==> byKey[items[n].pubkey] == items[n]
  }

  /** What the merge makes of address `k`: the account, the saved record, or one on top of the other. */
  ghost predicate MergedAt(saved: seq<Automation>, remote: seq<Automation>, byKey: map<Key, Automation>, k: Key) {
    && (k in byKey <==> k in Keys(saved) || k in Keys(remote))
    && (forall n :: 0 <= n < |remote| && remote[n].pubkey == k && k !in Keys(saved) ==> byKey[k] == remote[n])
    && (forall m :: 0 <= m < |saved| && saved[m].pubkey == k && k !in Keys(remote) ==> byKey[k] == saved[m])
    && (forall m, n :: 0 <= m < |saved| && saved[m].pubkey == k && 0 <= n < |remote| && remote[n].pubkey == k
          ==> byKey[k] == MergedWith(saved[m], remote[n]))
  }

  method MergeOnChain(saved: seq<Automation>, remote: seq<Automation>) returns (byKey: map<Key, Automation>)
    requires DistinctKeys(saved) && DistinctKeys(remote)
    ensures forall k :: MergedAt(saved, remote, byKey, k)
    ensures forall m, n :: 0 <= m < |saved| && 0 <= n < |remote| && saved[m].pubkey == remote[n].pubkey ==>
              saved[m].pubkey in byKey && OnTop(saved[m], remote[n], byKey[saved[m].pubkey])
  {
    byKey := map[];
    for n := 0 to |remote|
      invariant ByAddress(byKey, remote[..n])
    {
      RemoteGrows(byKey, remote, n);
      byKey := byKey[remote[n].pubkey := remote[n]];
    }
    assert remote[..|remote|] == remote;
    NothingSaved(byKey, remote);
    for m := 0 to |saved|
      invariant forall k :: MergedAt(saved[..m], remote, byKey, k)
    {
      ghost var before, done := byKey, saved[..m + 1];
      byKey := Add(byKey, saved[m]);
      forall k
        ensures MergedAt(done, remote, byKey, k)
      {
        SavedGrows(saved, remote, before, m, k);
      }
    }
    assert saved[..|saved|] == saved;
    forall m, n | 0 <= m < |saved| && 0 <= n < |remote| && saved[m].pubkey == remote[n].pubkey
      ensures saved[m].pubkey in byKey && OnTop(saved[m], remote[n], byKey[saved[m].pubkey])
    {
      assert MergedAt(saved, remote, byKey, saved[m].pubkey) && saved[m] in saved;
    }
  }

  lemma RemoteGrows(byKey: map<Key, Automation>, remote: seq<Automation>, n: nat)
    requires DistinctKeys(remote) && n < |remote| && ByAddress(byKey, remote[..n])
    ensures ByAddress(byKey[remote[n].pubkey := remote[n]], remote[..n + 1])
  {
    assert remote[..n + 1] == remote[..n] + [remote[n]];
  }

  lemma NothingSaved(byKey: map<Key, Automation>, remote: seq<Automation>)
    requires ByAddress(byKey, remote)
    ensures forall k :: MergedAt([], remote, byKey, k)
  {
  }

  lemma SavedGrows(saved: seq<Automation>, remote: seq<Automation>, byKey: map<Key, Automation>, m: nat, k: Key)
    requires DistinctKeys(saved) && DistinctKeys(remote) && m < |saved|
    requires forall k :: MergedAt(saved[..m], remote, byKey, k)
    ensures MergedAt(saved[..m + 1], remote, Add(byKey, saved[m]), k)
  {
    var a := saved[m];
    assert saved[..m + 1] == saved[..m] + [a];
    assert forall x :: x in Keys(saved[..m + 1]) <==> x in Keys(saved[..m]) || x == a.pubkey;
    assert MergedAt(saved[..m], remote, byKey, k);
    if k == a.pubkey {
      assert k !in Keys(saved[..m]) by { NotAmong(saved, m); }
      if n :| 0 <= n < |remote| && remote[n].pubkey == k {
        assert remote[n] in remote;
      }
    }
  }

  lemma NotAmong(saved: seq<Automation>, m: nat)
    requires DistinctKeys(saved) && m < |saved|
    ensures saved[m].pubkey !in Keys(saved[..m])
  {
  }

  // ---- the page on merged records ------------------------------------------------------

  /** The rules of a chain by position, all saved under one id and all read
      back, in state `st`; no other record carries the id. */
  ghost predicate SavedWhole(saved: seq<Automation>, remote: seq<Automation>, id: string, keys: seq<Key>, st: Torch) {
    && |keys| == |st.rules|
    && (forall p: nat :: p < |keys| ==> RuleSaved(saved, remote, id, keys, st, p))
    && (forall a :: (a in saved || a in remote) && InChain(a, id) ==> a.pubkey in keys)
  }

  /** One rule: its link as saved, and a counter that is not ahead of its account. */
  ghost predicate RuleSaved(saved: seq<Automation>, remote: seq<Automation>, id: string, keys: seq<Key>, st: Torch,
                            p: nat)
    requires p < |keys| == |st.rules|
  {
    exists m, n :: 0 <= m < |saved| && 0 <= n < |remote| && SavedAs(saved[m], remote[n], id, keys[p], st.rules[p], p)
  }

  ghost predicate SavedAs(a: Automation, b: Automation, id: string, k: Key, rule: RuleState, p: nat) {
    && a.pubkey == k && InChain(a, id) && PositionOf(a) == p && a.runs <= rule.executions
    && b.pubkey == k && b.runs == rule.executions && b.terminal == rule.finished
  }

  /** The merged records in any order. */
  ghost predicate ListsMerged(items: seq<Automation>, byKey: map<Key, Automation>) {
    && DistinctKeys(items)
    && (forall n :: 0 <= n < |items| ==> items[n].pubkey in byKey && byKey[items[n].pubkey] == items[n])
    && (forall k :: k in byKey ==> exists n :: 0 <= n < |items| && items[n].pubkey == k)
  }

  /** A chain saved whole is shown as saved, whatever id and links were recovered. */
  lemma SavedChainShown(saved: seq<Automation>, remote: seq<Automation>, byKey: map<Key, Automation>,
                        items: seq<Automation>, id: string, keys: seq<Key>, st: Torch) returns (at: seq<nat>)
    requires DistinctKeys(saved) && DistinctKeys(remote) && (forall k :: MergedAt(saved, remote, byKey, k))
    requires ListsMerged(items, byKey) && SavedWhole(saved, remote, id, keys, st)
    ensures Shows(items, id, st, at) && forall p :: 0 <= p < |at| ==> items[at[p]].pubkey == keys[p]
  {
    hide MergedAt, RuleSaved;
    at := [];
    while |at| < |keys|
      invariant |at| <= |keys|
      invariant forall p: nat :: p < |at| ==>
                  at[p] < |items| && items[at[p]].pubkey == keys[p] && ShownRule(items, id, st, at[p], p)
    {
      var n := RuleMerged(saved, remote, byKey, items, id, keys, st, |at|);
      at := at + [n];
    }
    forall n: nat | n < |items| && InChain(items[n], id)
      ensures n in at
    {
      MergedLink(saved, remote, byKey, items[n].pubkey, id);
      var p: nat :| p < |keys| && keys[p] == items[n].pubkey;
      assert at[p] == n;
    }
    assert forall p: nat :: p < |at| ==> ShownAt(items, id, st, at, p);
  }

  ghost predicate ShownRule(items: seq<Automation>, id: string, st: Torch, n: nat, p: nat) {
    && p < |st.rules| && n < |items| && InChain(items[n], id) && PositionOf(items[n]) == p
    && items[n].runs == st.rules[p].executions && items[n].terminal == st.rules[p].finished
  }

  lemma RuleMerged(saved: seq<Automation>, remote: seq<Automation>, byKey: map<Key, Automation>, items: seq<Automation>,
                   id: string, keys: seq<Key>, st: Torch, p: nat) returns (n: nat)
    requires (forall k :: MergedAt(saved, remote, byKey, k)) && ListsMerged(items, byKey)
    requires |keys| == |st.rules| && p < |keys| && RuleSaved(saved, remote, id, keys, st, p)
    ensures n < |items| && items[n].pubkey == keys[p] && ShownRule(items, id, st, n, p)
  {
    var i, j :| 0 <= i < |saved| && 0 <= j < |remote| && SavedAs(saved[i], remote[j], id, keys[p], st.rules[p], p);
    assert MergedAt(saved, remote, byKey, keys[p]);
    assert saved[i] in saved;
    n :| 0 <= n < |items| && items[n].pubkey == keys[p];
  }

  /** A merged record carries an id only if a record it was merged from does. */
  lemma MergedLink(saved: seq<Automation>, remote: seq<Automation>, byKey: map<Key, Automation>, k: Key, id: string)
    requires MergedAt(saved, remote, byKey, k) && k in byKey && InChain(byKey[k], id)
    ensures exists a :: (a in saved || a in remote) && InChain(a, id) && a.pubkey == k
  {
    if k in Keys(saved) {
      var a :| a in saved && a.pubkey == k;
      var m :| 0 <= m < |saved| && saved[m] == a;
      if k in Keys(remote) {
        var b :| b in remote && b.pubkey == k;
        var n :| 0 <= n < |remote| && remote[n] == b;
        assert byKey[k] == MergedWith(saved[m], remote[n]);
      }
    } else {
      var b :| b in remote && b.pubkey == k;
      var n :| 0 <= n < |remote| && remote[n] == b;
    }
  }

  /** So the page names the holder of a chain saved whole iff its counters do. */
  lemma SavedChainNamed(saved: seq<Automation>, remote: seq<Automation>, byKey: map<Key, Automation>,
                        items: seq<Automation>,
                        id: string, keys: seq<Key>, st: Torch, waiting: set<Key>) returns (at: seq<nat>)
    requires DistinctKeys(saved) && DistinctKeys(remote) && (forall k :: MergedAt(saved, remote, byKey, k))
    requires ListsMerged(items, byKey) && SavedWhole(saved, remote, id, keys, st) && MarksWaiting(items, waiting)
    ensures Shows(items, id, st, at) && (NamesHolder(st, items, at, waiting) <==> DisplayRight(st))
  {
    hide MergedAt, ListsMerged, SavedWhole, MarksWaiting, Shows, NamesHolder, DisplayRight;
    at := SavedChainShown(saved, remote, byKey, items, id, keys, st);
    NamesHolderIff(items, id, st, at, waiting);
  }

  /** A saved counter that has run ahead of its account hides the true state:
      whatever else is merged, the chain is not shown as it is. */
  lemma AheadIsNotShown(saved: seq<Automation>, remote: seq<Automation>, byKey: map<Key, Automation>,
                        items: seq<Automation>, id: string, st: Torch, at: seq<nat>, m: nat, n: nat, p: nat)
    requires (forall k :: MergedAt(saved, remote, byKey, k)) && ListsMerged(items, byKey)
    requires m < |saved| && n < |remote| && saved[m].pubkey == remote[n].pubkey && p < |st.rules|
    requires InChain(saved[m], id) && PositionOf(saved[m]) == p && remote[n].runs == st.rules[p].executions
    requires saved[m].runs > remote[n].runs
    ensures !Shows(items, id, st, at)
  {
    var k := saved[m].pubkey;
    assert MergedAt(saved, remote, byKey, k) && saved[m] in saved;
    var i :| 0 <= i < |items| && items[i].pubkey == k;
    if Shows(items, id, st, at) {
      assert i in at;
      var q: nat :| q < |at| && at[q] == i;
      ShownRuns(items, id, st, at, q);
    }
  }

  lemma ShownRuns(items: seq<Automation>, id: string, st: Torch, at: seq<nat>, q: nat)
    requires Shows(items, id, st, at) && q < |at|
    ensures PositionOf(items[at[q]]) == q && items[at[q]].runs == st.rules[q].executions
  {
    assert ShownAt(items, id, st, at, q);
  }

  // ---- a chain saved in part -------------------------------------------------------------

  /** Some rules of the chain carry one id, the others another, and no other record does. */
  ghost predicate SplitShown(items: seq<Automation>, st: Torch, at: seq<nat>, id: string, other: string) {
    && DistinctKeys(items) && id != other && |at| == |st.rules|
    && (forall p: nat :: p < |at| ==> at[p] < |items| && items[at[p]].terminal == st.rules[p].finished)
    && (forall p: nat :: p < |at| ==> InChain(items[at[p]], id) || InChain(items[at[p]], other))
    && (forall n: nat :: n < |items| && (InChain(items[n], id) || InChain(items[n], other)) ==> n in at)
  }

  /** In a group with a live rule some live rule is not marked. */
  lemma GroupHasUnmarked(items: seq<Automation>, st: Torch, at: seq<nat>, id: string, other: string,
                         waiting: set<Key>, group: string, p: nat)
    returns (q: nat)
    requires SplitShown(items, st, at, id, other) && MarksWaiting(items, waiting) && (group == id || group == other)
    requires Live(st, p) && InChain(items[at[p]], group)
    ensures Live(st, q) && q < |at| && InChain(items[at[q]], group) && items[at[q]].pubkey !in waiting
  {
    hide IsTorchIndex;
    var live := LiveOrder(items, group);
    assert items[at[p]] in items;
    assert items[at[p]] in Group(items, group);
    assert items[at[p]] in live;
    var t := TorchExists(live);
    assert live[t] in live;
    assert live[t] in Group(items, group) && !live[t].terminal && live[t] in items;
    var n: nat :| n < |items| && items[n] == live[t];
    q :| 0 <= q < |at| && at[q] == n;
    if live[t].pubkey in waiting {
      var g :| WaitsIn(items, g, live[t].pubkey);
      OtherWaits(items, group, g, live, t, n);
    }
  }

  lemma LiveIsListed(items: seq<Automation>, g: string, i: nat)
    requires i < |LiveOrder(items, g)|
    ensures var a := LiveOrder(items, g)[i]; a in items && InChain(a, g) && !a.terminal
  {
    var live := LiveOrder(items, g);
    assert live[i] in live;
    assert live[i] in Group(items, g);
  }

  lemma OtherWaits(items: seq<Automation>, group: string, g: string, live: seq<Automation>, t: nat, n: nat)
    requires DistinctKeys(items) && live == LiveOrder(items, group) && t < |live| && IsTorchIndex(live, t)
    requires n < |items| && items[n] == live[t] && InChain(items[n], group)
    ensures !WaitsIn(items, g, live[t].pubkey)
  {
    hide IsTorchIndex, LiveOrder;
    if WaitsIn(items, g, live[t].pubkey) {
      var others := LiveOrder(items, g);
      var i: nat :| i < |others| && others[i].pubkey == live[t].pubkey && !IsTorchIndex(others, i);
      LiveIsListed(items, g, i);
      var k: nat :| k < |items| && items[k] == others[i];
      assert k == n && g == group;
      LiveOrderDistinct(items, group);
    }
  }

  /** A chain of which some live rules show the saved id and others the
      recovered one is never reported correctly: two live rules are unmarked. */
  lemma SplitNeverNamed(items: seq<Automation>, st: Torch, at: seq<nat>, id: string, other: string, waiting: set<Key>,
                        p: nat, q: nat)
    requires SplitShown(items, st, at, id, other) && MarksWaiting(items, waiting)
    requires Live(st, p) && InChain(items[at[p]], id) && Live(st, q) && InChain(items[at[q]], other)
    ensures !NamesHolder(st, items, at, waiting)
  {
    hide MarksWaiting;
    var x := GroupHasUnmarked(items, st, at, id, other, waiting, id, p);
    var y := GroupHasUnmarked(items, st, at, id, other, waiting, other, q);
    assert x != y;
    assert TwoLive(st) by { assert Live(st, x) && Live(st, y); assert x < y || y < x; }
  }
}
