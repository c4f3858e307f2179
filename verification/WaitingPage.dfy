/** The strategies page marks every live chain rule as waiting except the one it
    believes to hold the funds (src/components/ActiveStrategiesPage.tsx). */
module WaitingPage {
  import opened Common
  import opened Automations
  import opened TorchRun
  import opened TorchDisplay

  function PositionOf(a: Automation): nat {
    if a.link.Some? then a.link.value.position else 0
  }

  ghost predicate SortedByPosition(s: seq<Automation>) {
    forall i, j :: 0 <= i < j < |s| ==> PositionOf(s[i]) <= PositionOf(s[j])
  }

  function SortByPosition(s: seq<Automation>): (r: seq<Automation>)
    ensures |r| == |s| && SortedByPosition(r)
    ensures forall a :: a in r <==> a in s
    ensures Distinct(s) ==> Distinct(r)
  {
    SortBy(s, (a: Automation) => PositionOf(a))
  }

  predicate InChain(a: Automation, chainId: string) {
    a.link.Some? && a.link.value.chainId == chainId
  }

  /** The rules of one chain in list order. */
  function Group(items: seq<Automation>, chainId: string): seq<Automation> {
    Filter(items, (a: Automation) => InChain(a, chainId))
  }

  /** The live rules of one chain by position. */
  function LiveOrder(items: seq<Automation>, chainId: string): seq<Automation> {
    SortByPosition(Filter(Group(items, chainId), (a: Automation) => !a.terminal))
  }

  ghost predicate IsMax(live: seq<Automation>, m: nat) {
    (exists i :: 0 <= i < |live| && live[i].runs == m) && forall i :: 0 <= i < |live| ==> live[i].runs <= m
  }

  /** Index of the presumed holder: 0 when all ran equally often, otherwise the first one behind. */
  ghost predicate IsTorchIndex(live: seq<Automation>, t: nat) {
    && t < |live|
    && exists m: nat ::
        && IsMax(live, m)
        && if forall i :: 0 <= i < |live| ==> live[i].runs == m then t == 0
           else live[t].runs < m && forall i :: 0 <= i < t ==> live[i].runs == m
  }

  method FindTorch(live: seq<Automation>) returns (t: nat)
    requires |live| > 0
    ensures IsTorchIndex(live, t)
  {
    var maxRuns := live[0].runs;
    for i := 1 to |live|
      invariant exists j :: 0 <= j < i && live[j].runs == maxRuns
      invariant forall j :: 0 <= j < i ==> live[j].runs <= maxRuns
    {
      if live[i].runs > maxRuns {
        maxRuns := live[i].runs;
      }
    }
    assert IsMax(live, maxRuns);
    for i := 0 to |live|
      invariant forall j :: 0 <= j < i ==> live[j].runs == maxRuns
    {
      if live[i].runs < maxRuns {
        return i;
      }
    }
    return 0;
  }

  lemma TorchIndexUnique(live: seq<Automation>, t: nat, u: nat)
    requires IsTorchIndex(live, t) && IsTorchIndex(live, u)
    ensures t == u
  {
  }

  /** Rule `k` is one of several live rules of the chain, and not the presumed holder. */
  ghost predicate WaitsIn(items: seq<Automation>, chainId: string, k: Key) {
    var live := LiveOrder(items, chainId);
    |live| > 1 && exists i: nat :: i < |live| && live[i].pubkey == k && !IsTorchIndex(live, i)
  }

  ghost predicate MarksWaiting(items: seq<Automation>, waiting: set<Key>) {
    forall k :: k in waiting <==> exists chainId :: WaitsIn(items, chainId, k)
  }

  /** One chain's contribution. */
  method MarkChain(live: seq<Automation>, waiting: set<Key>) returns (waiting': set<Key>)
    ensures forall k :: k in waiting' <==>
              k in waiting || (|live| > 1 && exists i: nat ::
                               i < |live| && live[i].pubkey == k && !IsTorchIndex(live, i))
  {
    waiting' := waiting;
    if |live| <= 1 { return; }
    var torch := FindTorch(live);
    for i := 0 to |live|
      invariant forall k :: k in waiting' <==>
                  k in waiting || exists j: nat :: j < i && live[j].pubkey == k && j != torch
    {
      if i != torch {
        waiting' := waiting' + {live[i].pubkey};
      }
    }
    forall j: nat | j < |live|
      ensures j != torch <==> !IsTorchIndex(live, j)
    {
      if IsTorchIndex(live, j) { TorchIndexUnique(live, j, torch); }
    }
  }

  method GroupByChain(items: seq<Automation>) returns (groups: map<string, seq<Automation>>)
    ensures forall id ::
              (id in groups <==> exists a :: a in items && InChain(a, id)) &&
                (id in groups ==> groups[id] == Group(items, id))
  {
    groups := map[];
    for k := 0 to |items|
      invariant forall id ::
                  (id in groups <==> Group(items[..k], id) != []) &&
                    (id in groups ==> groups[id] == Group(items[..k], id))
    {
      var a := items[k];
      assert items[..k + 1] == items[..k] + [a];
      forall id
        ensures Group(items[..k + 1], id) == Group(items[..k], id) + if InChain(a, id) then [a] else []
      {
        FilterAppend(items[..k], [a], (a: Automation) => InChain(a, id));
      }
      if a.link.Some? {
        var id := a.link.value.chainId;
        groups := groups[id := (if id in groups then groups[id] else []) + [a]];
      }
    }
    assert items[..|items|] == items;
    forall id
      ensures Group(items, id) != [] <==> exists a :: a in items && InChain(a, id)
    {
      if Group(items, id) != [] {
        assert Group(items, id)[0] in Group(items, id);
      }
      if a :| a in items && InChain(a, id) {
        assert a in Group(items, id);
      }
    }
  }

  method WaitingIds(items: seq<Automation>) returns (waiting: set<Key>)
    ensures MarksWaiting(items, waiting)
  {
    var groups := GroupByChain(items);
    waiting := {};
    var todo := groups.Keys;
    while todo != {}
      invariant todo <= groups.Keys
      invariant forall k :: k in waiting <==> exists id :: id in groups && id !in todo && WaitsIn(items, id, k)
    {
      var id :| id in todo;
      var live := SortByPosition(Filter(groups[id], (a: Automation) => !a.terminal));
      waiting := MarkChain(live, waiting);
      todo := todo - {id};
    }
    forall id, k | WaitsIn(items, id, k)
      ensures id in groups
    {
      var a := LiveOrder(items, id)[0];
      assert a in LiveOrder(items, id);
      assert a in items && InChain(a, id);
    }
  }

  // ---- which rules are marked, rule by rule -----------------------------------------

  /** A live rule of the chain. */
  ghost predicate IsPeer(items: seq<Automation>, id: string, a: Automation) {
    a in items && a.link.Some? && a.link.value.chainId == id && !a.terminal
  }

  /** Another live rule of the chain ran more often. */
  ghost predicate Behind(items: seq<Automation>, id: string, a: Automation) {
    exists b :: IsPeer(items, id, b) && b.runs > a.runs
  }

  /** `b` is rather the holder than `a`: it is behind and `a` is not, or both are
      or neither is and it comes first in the chain. */
  ghost predicate Before(items: seq<Automation>, id: string, b: Automation, a: Automation)
    requires IsPeer(items, id, a) && IsPeer(items, id, b)
  {
    if Behind(items, id, a) == Behind(items, id, b) then b.link.value.position < a.link.value.position
    else Behind(items, id, b)
  }

  ghost predicate DistinctPositions(items: seq<Automation>, id: string) {
    forall a, b :: IsPeer(items, id, a) && IsPeer(items, id, b) && a.link.value.position == b.link.value.position ==>
      a == b
  }

  /** The marks, by the fields of the records: a rule is marked exactly if it is
      live and some other live rule of its chain is rather the holder. */
  lemma MarkedIff(items: seq<Automation>, waiting: set<Key>, a: Automation)
    requires DistinctKeys(items) && MarksWaiting(items, waiting) && a in items
    requires a.link.Some? ==> DistinctPositions(items, a.link.value.chainId)
    ensures a.pubkey in waiting <==>
            a.link.Some? && !a.terminal &&
            exists b :: IsPeer(items, a.link.value.chainId, b) && Before(items, a.link.value.chainId, b, a)
  {
    hide LiveOrder, IsTorchIndex, Before, DistinctPositions;
    forall id, b
      ensures b in LiveOrder(items, id) <==> IsPeer(items, id, b)
    {
      PeersAreLive(items, id, b);
    }
    if a.pubkey in waiting {
      var id :| WaitsIn(items, id, a.pubkey);
      var live := LiveOrder(items, id);
      var i: nat :| i < |live| && live[i].pubkey == a.pubkey && !IsTorchIndex(live, i);
      assert live[i] in live;
      SameRecord(items, live[i], a);
      var t := TorchExists(live);
      assert live[t] in live && live[t] != live[i] by { LiveOrderDistinct(items, id); }
      TorchIsBefore(items, id, t, i);
    }
    if a.link.Some? && !a.terminal {
      var id := a.link.value.chainId;
      var live := LiveOrder(items, id);
      assert a in live;
      var i :| 0 <= i < |live| && live[i] == a;
      if b :| IsPeer(items, id, b) && Before(items, id, b, a) {
        assert b in live;
        var j :| 0 <= j < |live| && live[j] == b;
        if IsTorchIndex(live, i) { TorchIsFirst(items, id, i, j); }
        NotBeforeItself(items, id, a);
        assert WaitsIn(items, id, a.pubkey);
      }
    }
  }

  lemma SameRecord(items: seq<Automation>, a: Automation, b: Automation)
    requires DistinctKeys(items) && a in items && b in items && a.pubkey == b.pubkey
    ensures a == b
  {
  }

  lemma LiveOrderDistinct(items: seq<Automation>, group: string)
    requires DistinctKeys(items)
    ensures Distinct(LiveOrder(items, group))
  {
    DistinctItems(items);
    FilterDistinct(items, (a: Automation) => InChain(a, group));
    FilterDistinct(Group(items, group), (a: Automation) => !a.terminal);
  }

  lemma NotBeforeItself(items: seq<Automation>, id: string, a: Automation)
    requires IsPeer(items, id, a)
    ensures !Before(items, id, a, a)
  {
  }

  lemma PeersAreLive(items: seq<Automation>, id: string, a: Automation)
    ensures a in LiveOrder(items, id) <==> IsPeer(items, id, a)
  {
    assert a in Group(items, id) <==> a in items && InChain(a, id);
  }

  /** A maximum of the counters is what makes a rule behind. */
  lemma BehindMax(items: seq<Automation>, id: string, m: nat, i: nat)
    requires i < |LiveOrder(items, id)| && IsMax(LiveOrder(items, id), m)
    ensures IsPeer(items, id, LiveOrder(items, id)[i])
    ensures Behind(items, id, LiveOrder(items, id)[i]) <==> LiveOrder(items, id)[i].runs < m
  {
    var live := LiveOrder(items, id);
    PeersAreLive(items, id, live[i]);
    assert live[i] in live;
    forall b
      ensures b in live <==> IsPeer(items, id, b)
    {
      PeersAreLive(items, id, b);
    }
    hide LiveOrder, IsPeer;
    var j :| 0 <= j < |live| && live[j].runs == m;
    assert live[j] in live;
  }

  /** The presumed holder is before every other live rule. */
  lemma TorchIsBefore(items: seq<Automation>, id: string, t: nat, i: nat)
    requires DistinctPositions(items, id)
    requires var live := LiveOrder(items, id); t < |live| && i < |live| && IsTorchIndex(live, t) && live[t] != live[i]
    ensures var live := LiveOrder(items, id);
            IsPeer(items, id, live[i]) && IsPeer(items, id, live[t]) && Before(items, id, live[t], live[i])
  {
    var live := LiveOrder(items, id);
    var m: nat :| IsMax(live, m) && if forall i :: 0 <= i < |live| ==> live[i].runs == m then t == 0
                                    else live[t].runs < m && forall i :: 0 <= i < t ==> live[i].runs == m;
    BehindMax(items, id, m, i);
    BehindMax(items, id, m, t);
    hide LiveOrder, IsPeer, Behind, DistinctPositions;
    PositionsRise(items, id, if t < i then t else i, if t < i then i else t);
  }

  lemma PositionsRise(items: seq<Automation>, id: string, i: nat, j: nat)
    requires DistinctPositions(items, id)
    requires var live := LiveOrder(items, id); i < j < |live| && live[i] != live[j]
    ensures var live := LiveOrder(items, id);
            && IsPeer(items, id, live[i]) && IsPeer(items, id, live[j])
            && live[i].link.value.position < live[j].link.value.position
  {
    var live := LiveOrder(items, id);
    assert live[i] in live && live[j] in live;
    PeersAreLive(items, id, live[i]);
    PeersAreLive(items, id, live[j]);
    assert PositionOf(live[i]) <= PositionOf(live[j]);
  }

  lemma TorchIsFirst(items: seq<Automation>, id: string, t: nat, j: nat)
    requires DistinctPositions(items, id)
    requires var live := LiveOrder(items, id); t < |live| && j < |live| && IsTorchIndex(live, t)
    ensures var live := LiveOrder(items, id);
            IsPeer(items, id, live[t]) && IsPeer(items, id, live[j]) && !Before(items, id, live[j], live[t])
  {
    var live := LiveOrder(items, id);
    assert live[t] in live && live[j] in live;
    PeersAreLive(items, id, live[t]);
    PeersAreLive(items, id, live[j]);
    if live[t] == live[j] {
      NotBeforeItself(items, id, live[t]);
    } else {
      TorchIsBefore(items, id, t, j);
    }
  }

  // ---- the page against a running chain ------------------------------------------

  /** The list shows the chain in state `st`: item `at[p]` is the rule at
      position `p`, and no other item carries the chain's id. */
  ghost predicate Shows(items: seq<Automation>, chainId: string, st: Torch, at: seq<nat>) {
    && DistinctKeys(items)
    && |at| == |st.rules|
    && (forall p :: 0 <= p < |at| ==> at[p] < |items|)
    && (forall p: nat :: p < |at| ==> ShownAt(items, chainId, st, at, p))
    && (forall n: nat :: n < |items| && InChain(items[n], chainId) ==> n in at)
  }

  ghost predicate ShownAt(items: seq<Automation>, chainId: string, st: Torch, at: seq<nat>, p: nat)
    requires p < |at| == |st.rules| && at[p] < |items|
  {
    && InChain(items[at[p]], chainId) && PositionOf(items[at[p]]) == p
    && items[at[p]].runs == st.rules[p].executions && items[at[p]].terminal == st.rules[p].finished
  }

  lemma DistinctItems(items: seq<Automation>)
    requires DistinctKeys(items)
    ensures Distinct(items)
  {
  }

  /** `live` lists the live rules of `st` in position order. */
  ghost predicate Lists(live: seq<Automation>, st: Torch) {
    && (forall p: nat :: Live(st, p) ==> HasPosition(live, p))
    && (forall i: nat :: i < |live| ==>
        Live(st, PositionOf(live[i])) && live[i].runs == st.rules[PositionOf(live[i])].executions)
    && (forall i: nat, j: nat :: i < j < |live| ==> PositionOf(live[i]) < PositionOf(live[j]))
  }

  ghost predicate HasPosition(live: seq<Automation>, p: nat) {
    exists i: nat :: i < |live| && PositionOf(live[i]) == p
  }

  lemma LiveShown(items: seq<Automation>, chainId: string, st: Torch, at: seq<nat>, p: nat) returns (i: nat)
    requires Shows(items, chainId, st, at) && Live(st, p)
    ensures i < |LiveOrder(items, chainId)| && LiveOrder(items, chainId)[i] == items[at[p]] &&
            PositionOf(items[at[p]]) == p
  {
    assert ShownAt(items, chainId, st, at, p);
    var a := items[at[p]];
    assert a in items;
    assert a in Group(items, chainId);
    assert a in LiveOrder(items, chainId);
    i :| 0 <= i < |LiveOrder(items, chainId)| && LiveOrder(items, chainId)[i] == a;
  }

  lemma ShownLive(items: seq<Automation>, chainId: string, st: Torch, at: seq<nat>, i: nat)
    requires Shows(items, chainId, st, at) && i < |LiveOrder(items, chainId)|
    ensures var a := LiveOrder(items, chainId)[i];
            && Live(st, PositionOf(a)) && a == items[at[PositionOf(a)]] && a.runs == st.rules[PositionOf(a)].executions
  {
    var a := LiveOrder(items, chainId)[i];
    assert a in LiveOrder(items, chainId);
    assert a in Group(items, chainId) && !a.terminal && a in items;
    var n: nat :| n < |items| && items[n] == a;
    assert n in at;
    var p: nat :| p < |at| && at[p] == n;
    assert ShownAt(items, chainId, st, at, p);
  }

  /** The live order is the live rules of the state, in position order. */
  lemma LiveOrderLists(items: seq<Automation>, chainId: string, st: Torch, at: seq<nat>)
    requires Shows(items, chainId, st, at)
    ensures Lists(LiveOrder(items, chainId), st)
  {
    var live := LiveOrder(items, chainId);
    DistinctItems(items);
    FilterDistinct(items, (a: Automation) => InChain(a, chainId));
    FilterDistinct(Group(items, chainId), (a: Automation) => !a.terminal);
    forall p: nat | Live(st, p)
      ensures HasPosition(live, p)
    {
      var i := LiveShown(items, chainId, st, at, p);
    }
    forall i: nat | i < |live|
      ensures Live(st, PositionOf(live[i])) && live[i].runs == st.rules[PositionOf(live[i])].executions
      ensures live[i] == items[at[PositionOf(live[i])]]
    {
      ShownLive(items, chainId, st, at, i);
    }
  }

  lemma MatchMax(live: seq<Automation>, st: Torch, m: nat)
    requires Lists(live, st)
    ensures IsMax(live, m) <==> IsMaxRuns(st, m)
    ensures (forall i :: 0 <= i < |live| ==> live[i].runs == m) <==> forall p: nat :: Live(st, p) ==>
              st.rules[p].executions == m
  {
  }

  lemma MatchBefore(live: seq<Automation>, st: Torch, t: nat, m: nat)
    requires Lists(live, st) && t < |live|
    ensures (forall i :: 0 <= i < t ==> live[i].runs == m) <==>
              forall p: nat :: p < PositionOf(live[t]) && Live(st, p) ==> st.rules[p].executions == m
    ensures t == 0 <==> forall p: nat :: p < PositionOf(live[t]) ==> !Live(st, p)
  {
    forall p: nat | p < PositionOf(live[t]) && Live(st, p)
      ensures exists i: nat :: i < t && PositionOf(live[i]) == p && live[i].runs == st.rules[p].executions
    {
      assert HasPosition(live, p);
    }
    if t > 0 {
      assert PositionOf(live[0]) < PositionOf(live[t]);
    }
  }

  lemma MatchTorch(live: seq<Automation>, st: Torch, t: nat)
    requires Lists(live, st) && t < |live|
    ensures IsTorchIndex(live, t) <==> ShowsTorch(st, PositionOf(live[t]))
  {
    hide IsMax, IsMaxRuns;
    forall m: nat
      ensures IsMax(live, m) <==> IsMaxRuns(st, m)
      ensures (forall i :: 0 <= i < |live| ==> live[i].runs == m) <==> forall p: nat :: Live(st, p) ==>
                st.rules[p].executions == m
      ensures (forall i :: 0 <= i < t ==> live[i].runs == m) <==>
                forall p: nat :: p < PositionOf(live[t]) && Live(st, p) ==> st.rules[p].executions == m
    {
      MatchMax(live, st, m);
      MatchBefore(live, st, t, m);
    }
    MatchBefore(live, st, t, 0);
  }

  lemma MatchTwoLive(live: seq<Automation>, st: Torch)
    requires Lists(live, st)
    ensures |live| > 1 <==> TwoLive(st)
  {
    if |live| > 1 {
      assert PositionOf(live[0]) < PositionOf(live[1]);
    }
    if TwoLive(st) {
      var p: nat, q: nat :| p < q && Live(st, p) && Live(st, q);
      assert HasPosition(live, p) && HasPosition(live, q);
    }
  }

  /** What the page says of a live rule depends on the chain's state alone. */
  lemma WaitingShows(items: seq<Automation>, chainId: string, st: Torch, at: seq<nat>, waiting: set<Key>, p: nat)
    requires Shows(items, chainId, st, at) && MarksWaiting(items, waiting) && Live(st, p)
    ensures items[at[p]].pubkey in waiting <==> TwoLive(st) && !ShowsTorch(st, p)
  {
    var live := LiveOrder(items, chainId);
    LiveOrderLists(items, chainId, st, at);
    MatchTwoLive(live, st);
    var i := LiveShown(items, chainId, st, at, p);
    MatchTorch(live, st, i);
    var k := items[at[p]].pubkey;
    if k in waiting {
      var id :| WaitsIn(items, id, k);
      SameKeySameChain(items, chainId, st, at, p, id);
    }
    if |live| > 1 && !IsTorchIndex(live, i) {
      assert WaitsIn(items, chainId, k);
    }
  }

  lemma SameKeySameChain(items: seq<Automation>, chainId: string, st: Torch, at: seq<nat>, p: nat, id: string)
    requires Shows(items, chainId, st, at) && Live(st, p) && WaitsIn(items, id, items[at[p]].pubkey)
    ensures TwoLive(st) && !ShowsTorch(st, p)
  {
    var live := LiveOrder(items, id);
    var k := items[at[p]].pubkey;
    var j: nat :| j < |live| && live[j].pubkey == k && !IsTorchIndex(live, j);
    assert live[j] in live;
    assert live[j] in items && InChain(live[j], id);
    var n: nat :| n < |items| && items[n] == live[j];
    assert n == at[p];
    assert ShownAt(items, chainId, st, at, p);
    LiveOrderLists(items, chainId, st, at);
    MatchTwoLive(live, st);
    MatchTorch(live, st, j);
  }

  // ---- the page against every reachable state -------------------------------------

  /** With two live rules or more, the one live rule not marked is the holder. */
  ghost predicate NamesHolder(st: Torch, items: seq<Automation>, at: seq<nat>, waiting: set<Key>) {
    TwoLive(st) ==> forall p: nat :: Live(st, p) && p < |at| && at[p] < |items| ==>
      (items[at[p]].pubkey !in waiting <==> st.holder == Some(p))
  }

  /** For any listing of the chain the page names the holder iff the counters do. */
  lemma NamesHolderIff(items: seq<Automation>, chainId: string, st: Torch, at: seq<nat>, waiting: set<Key>)
    requires Shows(items, chainId, st, at) && MarksWaiting(items, waiting)
    ensures NamesHolder(st, items, at, waiting) <==> DisplayRight(st)
  {
    if !TwoLive(st) { return; }
    forall p: nat | Live(st, p)
      ensures items[at[p]].pubkey !in waiting <==> ShowsTorch(st, p)
    {
      WaitingShows(items, chainId, st, at, waiting, p);
    }
    var h := SomeTorchShown(items, chainId, st, at);
    assert ShowsTorch(st, h) && Live(st, h);
    if DisplayRight(st) {
      forall p: nat | Live(st, p)
        ensures ShowsTorch(st, p) <==> st.holder == Some(p)
      {
        if ShowsTorch(st, p) { ShowsOne(st, p, st.holder.value); }
      }
    }
  }

  /** Some live rule is always singled out. */
  lemma SomeTorchShown(items: seq<Automation>, chainId: string, st: Torch, at: seq<nat>) returns (h: nat)
    requires Shows(items, chainId, st, at) && TwoLive(st)
    ensures ShowsTorch(st, h)
  {
    var live := LiveOrder(items, chainId);
    LiveOrderLists(items, chainId, st, at);
    MatchTwoLive(live, st);
    var t := TorchExists(live);
    MatchTorch(live, st, t);
    h := PositionOf(live[t]);
  }

  lemma TorchExists(live: seq<Automation>) returns (t: nat)
    requires |live| > 0
    ensures IsTorchIndex(live, t)
  {
    var m := MaxExists(live);
    if i :| 0 <= i < |live| && live[i].runs != m {
      t := 0;
      while live[t].runs == m
        invariant t <= i && forall j :: 0 <= j < t ==> live[j].runs == m
        decreases i - t
      {
        t := t + 1;
      }
    } else {
      t := 0;
    }
  }

  lemma {:induction false} MaxExists(live: seq<Automation>) returns (m: nat)
    requires |live| > 0
    ensures IsMax(live, m)
  {
    var n := |live| - 1;
    if n == 0 {
      m := live[0].runs;
    } else {
      var init := live[..n];
      var rest := MaxExists(init);
      var i :| 0 <= i < n && init[i].runs == rest;
      assert forall j :: 0 <= j < n ==> init[j] == live[j];
      m := if live[n].runs > rest then live[n].runs else rest;
      assert live[if live[n].runs > rest then n else i].runs == m;
    }
  }

  /** One listing of a state: the rules in order under one id. */
  function Listing(st: Torch): (items: seq<Automation>)
    ensures |items| == |st.rules|
  {
    seq(|st.rules|, p requires 0 <= p < |st.rules| =>
      Automation(Key(seq(p, _ => 'k')), p, None, None, st.rules[p].executions, st.rules[p].finished,
                 Some(ChainLink("chain", p, |st.rules|, None, p == 0))))
  }

  lemma ListingShows(st: Torch)
    ensures Shows(Listing(st), "chain", st, seq(|st.rules|, p => p))
  {
    var items, at := Listing(st), seq(|st.rules|, p => p);
    forall i, j | 0 <= i < j < |items|
      ensures items[i].pubkey != items[j].pubkey
    {
      assert |items[i].pubkey.text| == i && |items[j].pubkey.text| == j;
    }
    forall n: nat | n < |items|
      ensures n in at
    {
      assert at[n] == n;
    }
  }

  ghost function AllWaiting(items: seq<Automation>): (waiting: set<Key>)
    ensures MarksWaiting(items, waiting)
  {
    var waiting := set a | a in items && (exists id :: WaitsIn(items, id, a.pubkey)) :: a.pubkey;
    WaitingAreListed(items);
    waiting
  }

  lemma WaitingAreListed(items: seq<Automation>)
    ensures forall id, k :: WaitsIn(items, id, k) ==> exists a :: a in items && a.pubkey == k
  {
    forall id, k | WaitsIn(items, id, k)
      ensures exists a :: a in items && a.pubkey == k
    {
      var i: nat :| i < |LiveOrder(items, id)| && LiveOrder(items, id)[i].pubkey == k;
      assert LiveOrder(items, id)[i] in LiveOrder(items, id);
    }
  }

  /** Whatever is listed beside the chain and in whatever order. */
  ghost predicate PageRight(st: Torch) {
    forall items, chainId, at, waiting :: Shows(items, chainId, st, at) && MarksWaiting(items, waiting) ==>
      NamesHolder(st, items, at, waiting)
  }

  lemma PageRightIsDisplayRight(st: Torch)
    ensures PageRight(st) <==> DisplayRight(st)
  {
    if PageRight(st) {
      var items, at := Listing(st), seq(|st.rules|, p => p);
      ListingShows(st);
      assert NamesHolder(st, items, at, AllWaiting(items));
      NamesHolderIff(items, "chain", st, at, AllWaiting(items));
    } else {
      var items, chainId, at, waiting :| Shows(items, chainId, st, at) && MarksWaiting(items, waiting) &&
        !NamesHolder(st, items, at, waiting);
      NamesHolderIff(items, chainId, st, at, waiting);
    }
  }

  /** Exactly the chains for which, in every reachable state and every listing,
      the one live rule the page does not mark is the holder. */
  lemma PageNamesHolder(ring: Ring)
    requires IsRing(ring)
    ensures (forall k: nat :: PageRight(After(ring, k))) <==> Reportable(ring)
  {
    hide DisplayRight, Reportable, PageRight;
    forall k: nat
      ensures PageRight(After(ring, k)) <==> DisplayRight(After(ring, k))
    {
      PageRightIsDisplayRight(After(ring, k));
    }
    DisplayRightIffReportable(ring);
  }
}
