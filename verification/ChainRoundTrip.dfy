/** Chains survive the trip to the chain and back: what the builder writes for
    every rule (src/lib/linked-chains.ts, src/components/AutomationWorkspace.tsx)
    is what reconstruction recovers from the bare accounts. */
module ChainRoundTrip {
  import opened Common
  import opened Automations
  import opened ChainGraph
  import opened ChainLinks

  // ---- lines: what reconstruction recovers whole ------------------------------------

  /** Where the rule at `i` of a line points: to the next, the last one back. */
  function LineTarget(keys: seq<Key>, back: Option<nat>, i: nat): Option<Key>
    requires i < |keys| && (back.Some? ==> back.value < |keys|)
  {
    if i + 1 < |keys| then Some(keys[i + 1]) else if back.Some? then Some(keys[back.value]) else None
  }

  ghost predicate HeadIsOldest(items: seq<Automation>, keys: seq<Key>)
    requires |keys| > 0
  {
    forall i, j :: 0 <= i < |items| && 0 <= j < |items| && items[i].pubkey == keys[0] && items[j].pubkey in keys &&
      items[j].nonce <= items[i].nonce
      ==> items[j].pubkey == keys[0]
  }

  /** Listed rules, each pointing exactly at the one after it and the last one
      nowhere or back, adjacent to no other rule; in a full loop the first is
      the oldest. */
  ghost predicate IsLine(items: seq<Automation>, keys: seq<Key>, back: Option<nat>) {
    && |keys| >= 2 && Distinct(keys) && (back.Some? ==> back.value < |keys|)
    && (forall k :: k in keys ==> k in Keys(items))
    && (forall i: nat, y :: i < |keys| ==> (Points(items, keys[i], y) <==> LineTarget(keys, back, i) == Some(y)))
    && (forall x, y :: x in keys && Adjacent(items, x, y) ==> y in keys)
    && (back == Some(0) ==> HeadIsOldest(items, keys))
  }

  lemma {:induction false} HeadReaches(items: seq<Automation>, keys: seq<Key>, back: Option<nat>, i: nat)
    requires IsLine(items, keys, back) && i < |keys|
    ensures Connected(items, keys[0], keys[i])
  {
    if i == 0 {
      ConnectedSelf(items, keys[0]);
    } else {
      HeadReaches(items, keys, back, i - 1);
      assert LineTarget(keys, back, i - 1) == Some(keys[i]);
      assert Points(items, keys[i - 1], keys[i]);
      assert Adjacent(items, keys[i - 1], keys[i]);
      ConnectedStep(items, keys[0], keys[i - 1], keys[i]);
    }
  }

  /** A line is one connected component. */
  lemma LineIsComponent(items: seq<Automation>, keys: seq<Key>, back: Option<nat>, y: Key)
    requires IsLine(items, keys, back)
    ensures Connected(items, keys[0], y) <==> y in keys
  {
    if Connected(items, keys[0], y) {
      var path: seq<Key> :| IsPath(items, path) && path[0] == keys[0] && path[|path| - 1] == y;
      ClosedContainsPath(items, Elements(keys), path);
    }
    if y in keys {
      var i: nat :| i < |keys| && keys[i] == y;
      HeadReaches(items, keys, back, i);
    }
  }

  /** The only rule of a line that can lack a predecessor is its first. */
  lemma Predecessors(items: seq<Automation>, keys: seq<Key>, back: Option<nat>, i: nat)
    requires IsLine(items, keys, back) && i < |keys|
    ensures HasPredecessor(items, keys[i]) <==> i > 0 || back == Some(0)
  {
    if i > 0 || back == Some(0) {
      var from := if i > 0 then i - 1 else |keys| - 1;
      assert LineTarget(keys, back, from) == Some(keys[i]);
      assert Points(items, keys[from], keys[i]);
    }
    if HasPredecessor(items, keys[i]) {
      var m: nat :| m < |items| && PointsTo(items, m, keys[i]);
      var x := items[m].pubkey;
      assert Points(items, x, keys[i]);
      assert Adjacent(items, keys[i], x);
      var j: nat :| j < |keys| && keys[j] == x;
      assert LineTarget(keys, back, j) == Some(keys[i]);
    }
  }

  /** A chain order of a line's rules starts at the first. */
  lemma OrderStartsAtHead(items: seq<Automation>, keys: seq<Key>, back: Option<nat>, order: seq<Key>)
    requires IsLine(items, keys, back) && order != [] && forall k :: k in order <==> k in keys
    requires if SomeFree(items, order) then !HasPredecessor(items, order[0]) else NoneOlder(items, order[0], order)
    ensures order[0] == keys[0]
  {
    hide HasPredecessor;
    assert order[0] in order && keys[0] in keys;
    var i: nat :| i < |keys| && keys[i] == order[0];
    Predecessors(items, keys, back, i);
    Predecessors(items, keys, back, 0);
    if HasPredecessor(items, keys[0]) {
      forall x | x in order
        ensures HasPredecessor(items, x)
      {
        var j: nat :| j < |keys| && keys[j] == x;
        Predecessors(items, keys, back, j);
      }
      var n := ItemOf(items, keys[i]);
      var m := ItemOf(items, keys[0]);
      assert items[n].nonce <= items[m].nonce;
    }
  }

  lemma ItemOf(items: seq<Automation>, k: Key) returns (n: nat)
    requires k in Keys(items)
    ensures n < |items| && items[n].pubkey == k
  {
    var a :| a in items && a.pubkey == k;
    n :| 0 <= n < |items| && items[n] == a;
  }

  /** Keys each pointing exactly at the next. */
  ghost predicate IsTrail(items: seq<Automation>, trail: seq<Key>) {
    forall i: nat, y :: i < |trail| - 1 ==> (Points(items, trail[i], y) <==> trail[i + 1] == y)
  }

  /** The pointer walk from the start of a trail follows it. */
  lemma {:induction false} WalkFollows(items: seq<Automation>, trail: seq<Key>, order: seq<Key>, w: nat, i: nat)
    requires IsTrail(items, trail) && WalksTo(items, order, w) && |trail| > 0 && order[0] == trail[0]
    requires i < w && i < |trail|
    ensures order[i] == trail[i]
  {
    if i == 0 {
    } else {
      WalkFollows(items, trail, order, w, i - 1);
      assert Points(items, order[i - 1], order[i]);
    }
  }

  lemma WalkGoesOn(items: seq<Automation>, trail: seq<Key>, order: seq<Key>, w: nat)
    requires IsTrail(items, trail) && WalksTo(items, order, w) && w < |trail|
    requires forall i :: 0 <= i < w ==> order[i] == trail[i]
    ensures exists i :: 0 <= i < w && trail[i] == trail[w]
  {
    assert Points(items, order[w - 1], trail[w]);
    assert trail[w] in order[..w];
    var i :| 0 <= i < |order[..w]| && order[..w][i] == trail[w];
    assert trail[i] == trail[w];
  }

  /** ... and reaches its end if its keys are distinct. */
  lemma WalkCovers(items: seq<Automation>, trail: seq<Key>, order: seq<Key>, w: nat)
    requires IsTrail(items, trail) && Distinct(trail) && WalksTo(items, order, w) && |trail| > 0 && order[0] == trail[0]
    ensures w >= |trail| && order[..|trail|] == trail
  {
    forall i | 0 <= i < w && i < |trail|
      ensures order[i] == trail[i]
    {
      WalkFollows(items, trail, order, w, i);
    }
    if w < |trail| { WalkGoesOn(items, trail, order, w); }
  }

  /** It is the line itself. */
  lemma OrderIsLine(items: seq<Automation>, keys: seq<Key>, back: Option<nat>, order: seq<Key>)
    requires IsLine(items, keys, back) && ChainOrder(items, order)
    requires forall k :: k in order <==> k in keys
    ensures order == keys
  {
    var w := ChainOrderFacts(items, order);
    OrderStartsAtHead(items, keys, back, order);
    SameMembers(order, keys);
    forall i: nat, y | i < |keys| - 1
      ensures Points(items, keys[i], y) <==> keys[i + 1] == y
    {
      assert Points(items, keys[i], y) <==> LineTarget(keys, back, i) == Some(y);
    }
    WalkCovers(items, keys, order, w);
  }

  lemma LineInLayout(items: seq<Automation>, keys: seq<Key>, back: Option<nat>, layout: seq<seq<Key>>) returns (c: nat)
    requires IsLine(items, keys, back) && IsLayout(items, layout)
    ensures c < |layout| && layout[c] == keys
  {
    LineIsComponent(items, keys, back, keys[1]);
    assert keys[0] in keys;
    assert Covers(layout, keys[0]);
    c :| 0 <= c < |layout| && keys[0] in layout[c];
    assert IsChain(items, layout[c]);
    forall k
      ensures k in layout[c] <==> k in keys
    {
      LineIsComponent(items, keys, back, k);
    }
    OrderIsLine(items, keys, back, layout[c]);
  }

  function LineLink(keys: seq<Key>, back: Option<nat>, i: nat): ChainLink
    requires i < |keys| && (back.Some? ==> back.value < |keys|)
  {
    ChainLink(ChainIdOf(keys[0]), i, |keys|, LineTarget(keys, back, i), i == 0)
  }

  /** Every rule of a line is recovered with its place and target in it,
      whatever else is listed and in any order. */
  lemma LineRecovered(items: seq<Automation>, keys: seq<Key>, back: Option<nat>, layout: seq<seq<Key>>,
                      out: seq<Automation>, i: nat, n: nat)
    requires IsLine(items, keys, back) && Reconstructed(items, layout, out)
    requires i < |keys| && n < |items| && items[n].pubkey == keys[i]
    ensures out[n] == items[n].(link := Some(LineLink(keys, back, i)))
  {
    var c := LineInLayout(items, keys, back, layout);
    assert RuleDone(items, layout, items[n], out[n]);
    assert Placed(items, layout[c], keys[i], out[n].link);
    assert IsLink(items, layout[c], i, out[n].link.value);
    var link, target := out[n].link.value, LineTarget(keys, back, i);
    var y := if link.next.Some? then link.next.value else if target.Some? then target.value else keys[0];
    assert Points(items, keys[i], y) <==> target == Some(y);
  }

  // ---- written chains ----------------------------------------------------------------

  /** A draft, the addresses its rules were created under and the first nonce. */
  datatype Chain = Chain(cards: seq<Card>, keys: seq<Key>, startNonce: nat)

  /** The shape the builder enforces: two cards or more, each linked to the one
      after it, the last free to link back; the head is not price-relative. */
  ghost predicate IsDraft(ch: Chain) {
    && |ch.cards| == |ch.keys| >= 2
    && Distinct(ch.keys)
    && !ch.cards[0].relative
    && (forall i :: 0 <= i < |ch.cards| - 1 ==> ch.cards[i].next == Some(i + 1))
    && (BackLink(ch.cards).Some? ==> 0 <= BackLink(ch.cards).value < |ch.cards|)
  }

  /** The downstream written for rule `i`. */
  function TargetKey(ch: Chain, i: nat): Option<Key>
    requires i < |ch.cards| == |ch.keys|
    requires ch.cards[i].next.Some? ==> 0 <= ch.cards[i].next.value < |ch.cards|
  {
    if |ch.cards| > 1 && ch.cards[i].next.Some? then Some(ch.keys[ch.cards[i].next.value]) else None
  }

  /** The record saved when the chain is created, link included. */
  function Written(ch: Chain, localId: string, i: nat): (a: Automation)
    requires i < |ch.cards| == |ch.keys|
    requires ch.cards[i].next.Some? ==> 0 <= ch.cards[i].next.value < |ch.cards|
  {
    Automation(
      ch.keys[i],
      ch.startNonce + i,
      TargetKey(ch, i),
      if ch.cards[i].relative && i > 0 then Some(ch.keys[i - 1]) else None,
      0,
      false,
      Some(ChainLink(localId, i, |ch.cards|, TargetKey(ch, i), i == 0))
    )
  }

  /** The account created for rule `i`, at any later time: run counter, terminal
      flag and link may be anything, the rest is as written. */
  ghost predicate IsAccount(ch: Chain, i: nat, a: Automation)
    requires IsDraft(ch) && i < |ch.cards|
  {
    var w := Written(ch, "", i);
    a.pubkey == w.pubkey && a.nonce == w.nonce && a.downstream == w.downstream && a.upstream == w.upstream
  }

  /** Item `n` is not a rule of the chain and refers to none. */
  ghost predicate Apart(ch: Chain, items: seq<Automation>, n: nat)
    requires n < |items|
  {
    && items[n].pubkey !in ch.keys
    && (items[n].downstream.Some? ==> items[n].downstream.value !in ch.keys)
    && (items[n].upstream.Some? ==> items[n].upstream.value !in ch.keys)
  }

  /** Some accounts of the chain are listed, as created, and no rule outside it refers to it. */
  ghost predicate Scattered(ch: Chain, items: seq<Automation>) {
    && IsDraft(ch) && DistinctKeys(items)
    && (forall i: nat, n: nat :: i < |ch.cards| && n < |items| && items[n].pubkey == ch.keys[i] ==>
        IsAccount(ch, i, items[n]))
    && (forall n: nat :: n < |items| ==> items[n].pubkey in ch.keys || Apart(ch, items, n))
  }

  /** What the writer stored: consecutive nonces, the next rule or the one linked
      back to as downstream, the rule before as the reference of a relative trigger. */
  lemma AccountMeans(ch: Chain, items: seq<Automation>, i: nat, n: nat)
    requires Scattered(ch, items) && i < |ch.keys| && n < |items| && items[n].pubkey == ch.keys[i]
    ensures items[n].nonce == ch.startNonce + i
    ensures i + 1 < |ch.keys| ==> items[n].downstream == Some(ch.keys[i + 1])
    ensures i + 1 == |ch.keys| ==>
              items[n].downstream ==
              if ch.cards[i].next.Some? then Some(ch.keys[ch.cards[i].next.value]) else None
    ensures items[n].upstream == if ch.cards[i].relative && i > 0 then Some(ch.keys[i - 1]) else None
  {
    assert IsAccount(ch, i, items[n]);
  }

  ghost predicate Present(ch: Chain, items: seq<Automation>, i: nat) {
    i < |ch.keys| && ch.keys[i] in Keys(items)
  }

  /** All of them are. */
  ghost predicate Intact(ch: Chain, items: seq<Automation>) {
    Scattered(ch, items) && forall i: nat :: i < |ch.keys| ==> Present(ch, items, i)
  }

  /** The pointers among the accounts are the draft's links, as far as both ends are listed. */
  lemma PointersAreLinks(ch: Chain, items: seq<Automation>, i: nat, y: Key)
    requires Scattered(ch, items) && Present(ch, items, i)
    ensures Points(items, ch.keys[i], y) <==> TargetKey(ch, i) == Some(y) && y in Keys(items)
  {
    var n := ItemOf(items, ch.keys[i]);
    assert IsAccount(ch, i, items[n]);
    if TargetKey(ch, i) == Some(y) && y in Keys(items) {
      assert PointsTo(items, n, y);
    }
  }

  /** Cards that follow each other, or the last one and the one it links back to. */
  ghost predicate Linked(ch: Chain, i: nat, j: nat)
    requires IsDraft(ch)
  {
    || j == i + 1 || i == j + 1
    || (i == |ch.cards| - 1 && BackLink(ch.cards) == Some(j))
    || (j == |ch.cards| - 1 && BackLink(ch.cards) == Some(i))
  }

  lemma EdgeOutIsLinked(ch: Chain, items: seq<Automation>, i: nat, y: Key) returns (j: nat)
    requires Scattered(ch, items) && Present(ch, items, i) && Edge(items, |items|, ch.keys[i], y)
    ensures Present(ch, items, j) && y == ch.keys[j] && Linked(ch, i, j)
  {
    hide Apart;
    var n: nat :| n < |items| && items[n].pubkey == ch.keys[i] && (PointsTo(items, n, y) || RefersTo(items, n, y));
    assert IsAccount(ch, i, items[n]);
    j := if PointsTo(items, n, y) then ch.cards[i].next.value else i - 1;
  }

  lemma EdgeInIsLinked(ch: Chain, items: seq<Automation>, i: nat, y: Key) returns (j: nat)
    requires Scattered(ch, items) && Present(ch, items, i) && Edge(items, |items|, y, ch.keys[i])
    ensures Present(ch, items, j) && y == ch.keys[j] && Linked(ch, i, j)
  {
    var n: nat :| n < |items| && items[n].pubkey == y &&
      (PointsTo(items, n, ch.keys[i]) || RefersTo(items, n, ch.keys[i]));
    assert items[n] in items && !Apart(ch, items, n);
    j :| 0 <= j < |ch.keys| && ch.keys[j] == y;
    assert IsAccount(ch, j, items[n]);
  }

  lemma AdjacentIsLinked(ch: Chain, items: seq<Automation>, i: nat, y: Key) returns (j: nat)
    requires Scattered(ch, items) && Present(ch, items, i) && Adjacent(items, ch.keys[i], y)
    ensures Present(ch, items, j) && y == ch.keys[j] && Linked(ch, i, j)
  {
    if Edge(items, |items|, ch.keys[i], y) {
      j := EdgeOutIsLinked(ch, items, i, y);
    } else {
      j := EdgeInIsLinked(ch, items, i, y);
    }
  }

  /** A written chain is a line. */
  lemma ChainIsLine(ch: Chain, items: seq<Automation>)
    requires Intact(ch, items)
    ensures IsLine(items, ch.keys, BackLink(ch.cards))
  {
    forall i: nat, y | i < |ch.keys|
      ensures Points(items, ch.keys[i], y) <==> LineTarget(ch.keys, BackLink(ch.cards), i) == Some(y)
    {
      assert Present(ch, items, i);
      PointersAreLinks(ch, items, i, y);
      var to := ch.cards[i].next;
      assert to.Some? ==> Present(ch, items, to.value);
    }
    forall x, y | x in ch.keys && Adjacent(items, x, y)
      ensures y in ch.keys
    {
      var i: nat :| i < |ch.keys| && ch.keys[i] == x;
      var j := AdjacentIsLinked(ch, items, i, y);
    }
    forall k | k in ch.keys
      ensures k in Keys(items)
    {
      var i: nat :| i < |ch.keys| && ch.keys[i] == k;
      assert Present(ch, items, i);
    }
    forall i, j | 0 <= i < |items| && 0 <= j < |items| && items[i].pubkey == ch.keys[0] &&
      items[j].pubkey in ch.keys && items[j].nonce <= items[i].nonce
      ensures items[j].pubkey == ch.keys[0]
    {
      var p: nat :| p < |ch.keys| && ch.keys[p] == items[j].pubkey;
      assert IsAccount(ch, 0, items[i]) && IsAccount(ch, p, items[j]);
    }
  }

  /** What reconstruction makes of item `n`, rule `i` of the chain. */
  ghost predicate Recovered(ch: Chain, localId: string, i: nat, item: Automation, done: Automation)
    requires IsDraft(ch) && i < |ch.cards|
  {
    done == item.(link := Some(Written(ch, localId, i).link.value.(chainId := ChainIdOf(ch.keys[0]))))
  }

  lemma IntactIsDraft(ch: Chain, items: seq<Automation>)
    requires Intact(ch, items)
    ensures IsDraft(ch)
  {
  }

  lemma LinksAreLine(ch: Chain, i: nat)
    requires IsDraft(ch) && i < |ch.keys|
    ensures LineTarget(ch.keys, BackLink(ch.cards), i) == TargetKey(ch, i)
  {
  }

  /** Round trip for one intact chain, whatever else is listed and in any order:
      each rule gets back the position, total, head flag and target written for
      it, under an id derived from the head's address. */
  lemma RoundTrip(ch: Chain, localId: string, items: seq<Automation>, layout: seq<seq<Key>>, out: seq<Automation>,
                  i: nat, n: nat)
    requires Intact(ch, items) && Reconstructed(items, layout, out)
    requires i < |ch.keys| && n < |items| && items[n].pubkey == ch.keys[i]
    ensures Recovered(ch, localId, i, items[n], out[n])
  {
    hide Scattered, IsLine, Reconstructed, Recovered, LineLink, Written;
    IntactIsDraft(ch, items);
    ChainIsLine(ch, items);
    LineRecovered(items, ch.keys, BackLink(ch.cards), layout, out, i, n);
    LineLinkIsWritten(ch, localId, items[n], i);
  }

  lemma LineLinkIsWritten(ch: Chain, localId: string, item: Automation, i: nat)
    requires IsDraft(ch) && i < |ch.keys|
    ensures Recovered(ch, localId, i, item, item.(link := Some(LineLink(ch.keys, BackLink(ch.cards), i))))
  {
    LinksAreLine(ch, i);
  }

  /** So its link has its place, the length of the chain, the head flag of the
      first rule, and the next rule or the one linked back to as target. */
  lemma RecoveredMeans(ch: Chain, localId: string, i: nat, item: Automation, done: Automation)
    requires IsDraft(ch) && i < |ch.keys| && Recovered(ch, localId, i, item, done)
    ensures done.link.Some? && done.link.value.position == i && done.link.value.total == |ch.keys|
    ensures done.link.value.isHead <==> i == 0
    ensures done.link.value.next ==
            if i + 1 < |ch.keys| then Some(ch.keys[i + 1])
            else if ch.cards[i].next.Some? then Some(ch.keys[ch.cards[i].next.value]) else None
  {
  }

  /** Any number of chains without a common rule, presented in any list order
      together with rules that neither belong to one nor refer to one. */
  ghost predicate Presents(chains: seq<Chain>, items: seq<Automation>) {
    && DistinctKeys(items)
    && (forall c: nat :: c < |chains| ==> IsDraft(chains[c]))
    && (forall c, d, k :: 0 <= c < d < |chains| && k in chains[c].keys ==> k !in chains[d].keys)
    && (forall c: nat, i: nat :: c < |chains| && i < |chains[c].keys| ==> Listed(chains[c], items, i))
    && (forall n: nat :: n < |items| ==> Member(chains, items[n].pubkey) || Loose(chains, items, n))
  }

  /** Rule `i` is in the list, as the account created for it. */
  ghost predicate Listed(ch: Chain, items: seq<Automation>, i: nat)
    requires IsDraft(ch) && i < |ch.cards|
  {
    && Present(ch, items, i)
    && (forall n :: 0 <= n < |items| && items[n].pubkey == ch.keys[i] ==> IsAccount(ch, i, items[n]))
  }

  ghost predicate Member(chains: seq<Chain>, k: Key) {
    exists c: nat :: c < |chains| && k in chains[c].keys
  }

  ghost predicate Loose(chains: seq<Chain>, items: seq<Automation>, n: nat)
    requires n < |items|
  {
    forall c: nat :: c < |chains| ==> Apart(chains[c], items, n)
  }

  lemma PresentedIsIntact(chains: seq<Chain>, items: seq<Automation>, c: nat)
    requires Presents(chains, items) && c < |chains|
    ensures Intact(chains[c], items)
  {
    forall i: nat | i < |chains[c].keys|
      ensures Present(chains[c], items, i)
      ensures forall n: nat :: n < |items| && items[n].pubkey == chains[c].keys[i] ==> IsAccount(chains[c], i, items[n])
    {
      assert Listed(chains[c], items, i);
    }
    forall n: nat | n < |items|
      ensures items[n].pubkey in chains[c].keys || Apart(chains[c], items, n)
    {
      if items[n].pubkey !in chains[c].keys && Member(chains, items[n].pubkey) {
        var d: nat :| d < |chains| && items[n].pubkey in chains[d].keys;
        OtherChainIsApart(chains, items, c, d, n);
      }
    }
  }

  lemma OtherChainIsApart(chains: seq<Chain>, items: seq<Automation>, c: nat, d: nat, n: nat)
    requires Presents(chains, items) && c < |chains| && d < |chains| && c != d
    requires n < |items| && items[n].pubkey in chains[d].keys
    ensures Apart(chains[c], items, n)
  {
    var i: nat :| i < |chains[d].keys| && chains[d].keys[i] == items[n].pubkey;
    assert Listed(chains[d], items, i);
    assert IsAccount(chains[d], i, items[n]);
    assert items[n].downstream.Some? ==> items[n].downstream.value in chains[d].keys;
    assert items[n].upstream.Some? ==> items[n].upstream.value in chains[d].keys;
  }

  /** Round trip for the whole list. */
  lemma WorldRoundTrip(chains: seq<Chain>, localIds: seq<string>, items: seq<Automation>, layout: seq<seq<Key>>,
                       out: seq<Automation>)
    requires Presents(chains, items) && |localIds| == |chains| && Reconstructed(items, layout, out)
    ensures forall c: nat, i: nat, n: nat ::
              c < |chains| && i < |chains[c].keys| && n < |items| && items[n].pubkey == chains[c].keys[i]
              ==> Recovered(chains[c], localIds[c], i, items[n], out[n])
  {
    forall c: nat, i: nat, n: nat | c < |chains| && i < |chains[c].keys| && n < |items| &&
      items[n].pubkey == chains[c].keys[i]
      ensures Recovered(chains[c], localIds[c], i, items[n], out[n])
    {
      PresentedIsIntact(chains, items, c);
      RoundTrip(chains[c], localIds[c], items, layout, out, i, n);
    }
  }
}
