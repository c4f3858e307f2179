/** Recovering chains from a flat list of accounts: connected components, the
    order of each chain, and the link written on each rule
    (src/lib/on-chain-automations.ts, reconstructChainLinks). */
module ChainLinks {
  import opened Common
  import opened Automations
  import opened ChainGraph

  // ---- sorting by nonce ------------------------------------------------

  ghost predicate SortedByNonce(nonce: map<Key, nat>, keys: seq<Key>) {
    && (forall k :: k in keys ==> k in nonce)
    && forall i, j :: 0 <= i < j < |keys| ==> nonce[keys[i]] <= nonce[keys[j]]
  }

  function SortByNonce(nonce: map<Key, nat>, keys: seq<Key>): (r: seq<Key>)
    requires forall k :: k in keys ==> k in nonce
    ensures SortedByNonce(nonce, r)
    ensures forall k :: k in r <==> k in keys
    ensures Distinct(keys) ==> Distinct(r)
  {
    SortBy(keys, (k: Key) => if k in nonce then nonce[k] else 0)
  }

  // ---- components ------------------------------------------------------

  /** A set of keys out of which no neighbour leads. */
  ghost predicate Closed(items: seq<Automation>, s: set<Key>) {
    forall x, y :: x in s && Adjacent(items, x, y) ==> y in s
  }

  ghost predicate IsComponent(items: seq<Automation>, id: Key, component: seq<Key>) {
    && Distinct(component)
    && forall y :: y in component <==> Connected(items, id, y)
  }

  ghost predicate DfsState(items: seq<Automation>, id: Key, visited0: set<Key>,
                           visited: set<Key>, stack: seq<Key>, component: seq<Key>)
  {
    && Distinct(component) && Distinct(stack)
    && (forall x :: x in component ==> x !in stack && x !in visited0)
    && (forall x :: x in stack ==> x !in visited0)
    && (forall x :: x in visited <==> x in visited0 || x in component || x in stack)
    && (id in component || id in stack)
    && (forall x :: x in component || x in stack ==> x in Keys(items) && Connected(items, id, x))
  }

  ghost predicate NeighboursOf(items: seq<Automation>, nbr: map<Key, seq<Key>>) {
    forall x, y :: y in Nbr(nbr, x) <==> Adjacent(items, x, y)
  }

  /** The rule at `j` is adjacent to one found before it. */
  ghost predicate FoundFrom(items: seq<Automation>, listing: seq<Key>, j: nat)
    requires j < |listing|
  {
    exists i: nat :: i < j && Adjacent(items, listing[i], listing[j])
  }

  ghost predicate AdjacentToOne(items: seq<Automation>, component: seq<Key>, x: Key) {
    exists i: nat :: i < |component| && Adjacent(items, component[i], x)
  }

  /** The listing starts with `id`, and every later rule was reached from an earlier one. */
  ghost predicate Grown(items: seq<Automation>, id: Key, listing: seq<Key>) {
    && |listing| > 0 && listing[0] == id
    && forall j: nat :: 0 < j < |listing| ==> FoundFrom(items, listing, j)
  }

  /** What is stacked was reached from what is listed. */
  ghost predicate Growing(items: seq<Automation>, id: Key, stack: seq<Key>, component: seq<Key>) {
    if component == [] then stack == [id]
    else Grown(items, id, component) && forall x :: x in stack ==> AdjacentToOne(items, component, x)
  }

  lemma PopGrows(items: seq<Automation>, id: Key, stack: seq<Key>, component: seq<Key>)
    requires stack != [] && Growing(items, id, stack, component)
    ensures Growing(items, id, stack[..|stack| - 1], component + [stack[|stack| - 1]])
  {
    hide Adjacent;
    var rest, last := stack[..|stack| - 1], stack[|stack| - 1];
    var listing := component + [last];
    assert last in stack;
    forall j: nat | 0 < j < |listing|
      ensures FoundFrom(items, listing, j)
    {
      if j < |component| {
        assert FoundFrom(items, component, j);
        var i: nat :| i < j && Adjacent(items, component[i], component[j]);
        assert Adjacent(items, listing[i], listing[j]);
      } else {
        assert AdjacentToOne(items, component, last);
        var i: nat :| i < |component| && Adjacent(items, component[i], last);
        assert Adjacent(items, listing[i], listing[j]);
      }
    }
    forall x | x in rest
      ensures AdjacentToOne(items, listing, x)
    {
      assert x in stack;
      if component != [] {
        var i: nat :| i < |component| && Adjacent(items, component[i], x);
        assert Adjacent(items, listing[i], x);
      }
    }
  }

  lemma PushGrows(items: seq<Automation>, id: Key, stack: seq<Key>, component: seq<Key>, cur: Key, next: Key)
    requires Growing(items, id, stack, component) && cur in component && Adjacent(items, cur, next)
    ensures Growing(items, id, stack + [next], component)
  {
    hide Adjacent;
    var i: nat :| i < |component| && component[i] == cur;
    assert AdjacentToOne(items, component, next);
  }

  /** The depth-first collection of one component. */
  method Component(ghost items: seq<Automation>, nbr: map<Key, seq<Key>>, id: Key, visited0: set<Key>)
    returns (component: seq<Key>, visited: set<Key>)
    requires NeighboursOf(items, nbr)
    requires id in Keys(items) && id !in visited0 && Closed(items, visited0)
    ensures IsComponent(items, id, component) && Grown(items, id, component) && id in visited
    ensures visited == visited0 + Elements(component) && visited0 !! Elements(component)
    ensures Closed(items, visited)
    ensures forall x :: x in component ==> x in Keys(items)
  {
    hide Adjacent, Connected, Grown;
    var stack := [id];
    component := [];
    visited := visited0 + {id};
    ConnectedSelf(items, id);
    while stack != []
      invariant DfsState(items, id, visited0, visited, stack, component)
      invariant Growing(items, id, stack, component)
      invariant forall x, y :: x in component && Adjacent(items, x, y) ==> y in visited
      decreases Keys(items) - visited, |stack|
    {
      var cur := stack[|stack| - 1];
      PopKeepsState(items, id, visited0, visited, stack, component);
      PopGrows(items, id, stack, component);
      stack := stack[..|stack| - 1];
      component := component + [cur];
      visited, stack := PushNeighbours(items, id, visited0, visited, stack, component, cur, Nbr(nbr, cur));
    }
    DoneIsComponent(items, id, visited0, visited, component);
  }

  /** Stacks the neighbours of `cur` that have not been visited. */
  method PushNeighbours(ghost items: seq<Automation>, ghost id: Key, ghost visited0: set<Key>, visited: set<Key>,
                        stack: seq<Key>, ghost component: seq<Key>, ghost cur: Key, ns: seq<Key>)
    returns (visited': set<Key>, stack': seq<Key>)
    requires DfsState(items, id, visited0, visited, stack, component) && cur in component
    requires Growing(items, id, stack, component)
    requires forall y :: y in ns ==> Adjacent(items, cur, y)
    ensures DfsState(items, id, visited0, visited', stack', component)
    ensures Growing(items, id, stack', component)
    ensures visited <= visited' && forall y :: y in ns ==> y in visited'
    ensures (visited' == visited && stack' == stack) || Keys(items) - visited' < Keys(items) - visited
  {
    hide Adjacent, Connected, Growing, DfsState;
    visited', stack' := visited, stack;
    for j := 0 to |ns|
      invariant DfsState(items, id, visited0, visited', stack', component)
      invariant Growing(items, id, stack', component)
      invariant visited <= visited' && forall i :: 0 <= i < j ==> ns[i] in visited'
      invariant (visited' == visited && stack' == stack) || Keys(items) - visited' < Keys(items) - visited
    {
      var next := ns[j];
      if next !in visited' {
        PushKeepsState(items, id, visited0, visited', stack', component, cur, next);
        PushGrows(items, id, stack', component, cur, next);
        AdjacentAreKeys(items, cur, next);
        ghost var before := Keys(items) - visited';
        visited' := visited' + {next};
        stack' := stack' + [next];
        assert next in before && next !in Keys(items) - visited';
      }
    }
  }

  lemma PopKeepsState(items: seq<Automation>, id: Key, visited0: set<Key>,
                      visited: set<Key>, stack: seq<Key>, component: seq<Key>)
    requires stack != [] && DfsState(items, id, visited0, visited, stack, component)
    ensures DfsState(items, id, visited0, visited, stack[..|stack| - 1], component + [stack[|stack| - 1]])
  {
    hide Connected;
    var rest, last := stack[..|stack| - 1], stack[|stack| - 1];
    assert stack == rest + [last];
    assert forall x :: x in stack <==> x in rest || x == last;
    assert last in stack && last !in rest && last !in component;
    assert forall x :: x in component + [last] <==> x in component || x == last;
    assert Distinct(component + [last]);
  }

  lemma PushKeepsState(items: seq<Automation>, id: Key, visited0: set<Key>,
                       visited: set<Key>, stack: seq<Key>, component: seq<Key>, cur: Key, next: Key)
    requires DfsState(items, id, visited0, visited, stack, component)
    requires cur in component && next !in visited && Adjacent(items, cur, next)
    ensures DfsState(items, id, visited0, visited + {next}, stack + [next], component)
  {
    assert forall x :: x in stack + [next] <==> x in stack || x == next;
    ConnectedStep(items, id, cur, next);
    AdjacentAreKeys(items, cur, next);
  }

  lemma AdjacentAreKeys(items: seq<Automation>, x: Key, y: Key)
    requires Adjacent(items, x, y)
    ensures x in Keys(items) && y in Keys(items)
  {
  }

  lemma DoneIsComponent(items: seq<Automation>, id: Key, visited0: set<Key>, visited: set<Key>, component: seq<Key>)
    requires DfsState(items, id, visited0, visited, [], component)
    requires Closed(items, visited0)
    requires forall x, y :: x in component && Adjacent(items, x, y) ==> y in visited
    ensures IsComponent(items, id, component)
    ensures Closed(items, visited) && visited == visited0 + Elements(component)
  {
    var s := Elements(component);
    forall x, y | x in s && Adjacent(items, x, y)
      ensures y in s
    {
      assert Adjacent(items, y, x);
    }
    forall y | Connected(items, id, y)
      ensures y in component
    {
      var path: seq<Key> :| IsPath(items, path) && path[0] == id && path[|path| - 1] == y;
      ClosedContainsPath(items, s, path);
    }
  }

  // ---- the order of one chain -------------------------------------------

  /** The rule with key `x` hands its output to the rule with key `y`. */
  ghost predicate Points(items: seq<Automation>, x: Key, y: Key) {
    Forward(items, |items|, x, y)
  }

  /** `x` is at least as old as every rule in `keys`. */
  ghost predicate NoneOlder(items: seq<Automation>, x: Key, keys: seq<Key>) {
    forall i, j :: 0 <= i < |items| && 0 <= j < |items| && items[i].pubkey == x && items[j].pubkey in keys ==>
      items[i].nonce <= items[j].nonce
  }

  ghost predicate ByNonce(items: seq<Automation>, keys: seq<Key>) {
    forall p: nat :: p < |keys| ==> NoneOlder(items, keys[p], keys[p..])
  }

  ghost predicate SomeFree(items: seq<Automation>, keys: seq<Key>) {
    exists x :: x in keys && !HasPredecessor(items, x)
  }

  /** The first rule of the listing that no rule points at. */
  ghost predicate FirstFree(items: seq<Automation>, listing: seq<Key>, start: Key) {
    exists j: nat ::
      && j < |listing| && listing[j] == start && !HasPredecessor(items, start)
      && forall i: nat :: i < j ==> HasPredecessor(items, listing[i])
  }

  /** The first `w` rules follow the pointers, and the pointers go no further. */
  ghost predicate WalksTo(items: seq<Automation>, order: seq<Key>, w: nat) {
    && 1 <= w <= |order|
    && (forall i :: 0 <= i < w - 1 ==> Points(items, order[i], order[i + 1]))
    && (forall y :: Points(items, order[w - 1], y) ==> y in order[..w])
  }

  /** The rules of a listing that the walk did not reach, in its order. */
  function Leftover(listing: seq<Key>, seen: seq<Key>): (rest: seq<Key>)
    ensures forall k :: k in rest <==> k in listing && k !in seen
  {
    Filter(listing, (k: Key) => k !in seen)
  }

  /** A search from the oldest rule of a component found its rules in the order of `listing`. */
  ghost predicate Searched(items: seq<Automation>, listing: seq<Key>) {
    && Distinct(listing) && listing != []
    && Grown(items, listing[0], listing) && NoneOlder(items, listing[0], listing)
  }

  /** The first `w` rules are the walk. It starts at the first rule found that
      has no predecessor, and what it did not reach follows in the order found;
      if every rule has one, it starts at the oldest and the rest is by nonce. */
  ghost predicate OrderOf(items: seq<Automation>, listing: seq<Key>, order: seq<Key>, w: nat) {
    && Searched(items, listing)
    && Distinct(order) && (forall k :: k in order <==> k in listing)
    && WalksTo(items, order, w)
    && if SomeFree(items, listing) then FirstFree(items, listing, order[0]) &&
       order[w..] == Leftover(listing, order[..w])
       else NoneOlder(items, order[0], order) && ByNonce(items, order[w..])
  }

  ghost predicate ChainOrder(items: seq<Automation>, order: seq<Key>) {
    exists listing: seq<Key>, w: nat :: OrderOf(items, listing, order, w)
  }

  /** What holds of the order whatever the search found first. */
  lemma ChainOrderFacts(items: seq<Automation>, order: seq<Key>) returns (w: nat)
    requires ChainOrder(items, order)
    ensures |order| > 0 && Distinct(order) && WalksTo(items, order, w)
    ensures if SomeFree(items, order) then !HasPredecessor(items, order[0]) else NoneOlder(items, order[0], order)
  {
    var listing: seq<Key>, v: nat :| OrderOf(items, listing, order, v);
    w := v;
  }

  method PickStart(ghost items: seq<Automation>, prev: map<Key, Key>, nonce: map<Key, nat>, component: seq<Key>)
    returns (start: Key, component': seq<Key>)
    requires |component| > 0 && Distinct(component)
    requires forall y :: y in prev <==> HasPredecessor(items, y)
    requires forall k :: k in component ==> k in nonce
    ensures Distinct(component') && forall k :: k in component' <==> k in component
    ensures start in component'
    ensures if SomeFree(items, component) then FirstFree(items, component, start) && component' == component
            else start == component'[0] && SortedByNonce(nonce, component')
  {
    component' := component;
    for i := 0 to |component|
      invariant component' == component
      invariant forall j :: 0 <= j < i ==> component[j] in prev
    {
      if component[i] !in prev {
        start := component[i];
        return;
      }
    }
    component' := SortByNonce(nonce, component);
    assert component[0] in component';
    start := component'[0];
  }

  method WalkOrder(ghost items: seq<Automation>, next: map<Key, Key>, component: seq<Key>, start: Key)
    returns (order: seq<Key>, ghost w: nat)
    requires Distinct(component) && start in component
    requires forall x, y :: Lookup(next, x) == Some(y) <==> Points(items, x, y)
    requires forall x, y :: x in component && Points(items, x, y) ==> y in component
    ensures Distinct(order) && |order| > 0 && order[0] == start
    ensures forall k :: k in order <==> k in component
    ensures WalksTo(items, order, w) && order[w..] == Leftover(component, order[..w])
  {
    hide Points;
    order := [];
    var cur := Some(start);
    while cur.Some? && cur.value !in order && cur.value in component
      invariant Distinct(order) && forall k :: k in order ==> k in component
      invariant if order == [] then cur == Some(start) else order[0] == start && cur == Lookup(next, order[|order| - 1])
      invariant forall i :: 0 <= i < |order| - 1 ==> Points(items, order[i], order[i + 1])
      decreases Elements(component) - Elements(order)
    {
      ghost var before := Elements(component) - Elements(order);
      order := order + [cur.value];
      assert cur.value in before && cur.value !in Elements(component) - Elements(order);
      cur := Lookup(next, cur.value);
    }
    w := |order|;
    var seen := order;
    assert cur.Some? ==> Points(items, seen[w - 1], cur.value);
    assert WalksTo(items, seen, w) by { WalkEnds(items, next, component, seen, cur); }
    order := AppendLeftover(component, seen);
    WalkExtends(items, seen, order);
  }

  lemma WalkEnds(items: seq<Automation>, next: map<Key, Key>, component: seq<Key>, seen: seq<Key>, cur: Option<Key>)
    requires seen != [] && cur == Lookup(next, seen[|seen| - 1]) &&
             (cur.Some? ==> cur.value in seen || cur.value !in component)
    requires forall x, y :: Lookup(next, x) == Some(y) <==> Points(items, x, y)
    requires forall x, y :: x in component && Points(items, x, y) ==> y in component
    requires forall k :: k in seen ==> k in component
    requires forall i :: 0 <= i < |seen| - 1 ==> Points(items, seen[i], seen[i + 1])
    ensures WalksTo(items, seen, |seen|)
  {
    hide Points;
    var last := seen[|seen| - 1];
    assert seen[..|seen|] == seen && last in seen;
    forall y | Points(items, last, y)
      ensures y in seen
    {
      assert Lookup(next, last) == Some(y);
    }
  }

  lemma WalkExtends(items: seq<Automation>, seen: seq<Key>, order: seq<Key>)
    requires WalksTo(items, seen, |seen|) && seen <= order
    ensures WalksTo(items, order, |seen|)
  {
    hide Points;
    assert order[..|seen|] == seen && seen[..|seen|] == seen;
  }

  /** The rules the walk did not reach, behind those it did. */
  method AppendLeftover(component: seq<Key>, seen: seq<Key>) returns (order: seq<Key>)
    requires Distinct(component) && Distinct(seen) && forall k :: k in seen ==> k in component
    ensures order == seen + Leftover(component, seen)
    ensures Distinct(order) && forall k :: k in order <==> k in component
  {
    order := seen;
    for i := 0 to |component|
      invariant order == seen + Leftover(component[..i], seen)
    {
      assert component[..i + 1] == component[..i] + [component[i]];
      FilterAppend(component[..i], [component[i]], (k: Key) => k !in seen);
      if component[i] !in seen {
        order := order + [component[i]];
      }
    }
    assert component[..|component|] == component;
    FilterDistinct(component, (k: Key) => k !in seen);
    var rest := Leftover(component, seen);
    ConcatDistinct(seen, rest);
  }

  // ---- the links written -------------------------------------------------

  ghost predicate IsLink(items: seq<Automation>, order: seq<Key>, p: nat, link: ChainLink)
    requires p < |order|
  {
    && link.chainId == ChainIdOf(order[0])
    && link.position == p && link.total == |order| && link.isHead == (p == 0)
    && forall y :: link.next == Some(y) <==> Points(items, order[p], y)
  }

  /** One component of two rules or more, in chain order. */
  ghost predicate IsChain(items: seq<Automation>, order: seq<Key>) {
    && |order| >= 2 && Distinct(order)
    && ChainOrder(items, order)
    && forall x, y :: x in order ==> (y in order <==> Connected(items, x, y))
  }

  ghost predicate Covers(layout: seq<seq<Key>>, x: Key) {
    exists c :: 0 <= c < |layout| && x in layout[c]
  }

  /** Chains, no rule in two of them. */
  ghost predicate DisjointChains(items: seq<Automation>, layout: seq<seq<Key>>) {
    && (forall c :: 0 <= c < |layout| ==> IsChain(items, layout[c]))
    && (forall c, d, x :: 0 <= c < d < |layout| && x in layout[c] ==> x !in layout[d])
  }

  /** Every rule connected to another one is in one of the chains. */
  ghost predicate IsLayout(items: seq<Automation>, layout: seq<seq<Key>>) {
    && DisjointChains(items, layout)
    && forall x, y :: x in Keys(items) && x != y && Connected(items, x, y) ==> Covers(layout, x)
  }

  /** Wherever the key stands in the order, the link says so. */
  ghost predicate Placed(items: seq<Automation>, order: seq<Key>, key: Key, link: Option<ChainLink>) {
    forall p :: 0 <= p < |order| && order[p] == key ==> link.Some? && IsLink(items, order, p, link.value)
  }

  /** What becomes of one rule: a rule of a chain gets its link, any other
      rule is returned as it came. */
  ghost predicate RuleDone(items: seq<Automation>, layout: seq<seq<Key>>, item: Automation, done: Automation) {
    && done.(link := item.link) == item
    && (forall c :: 0 <= c < |layout| ==> Placed(items, layout[c], item.pubkey, done.link))
    && (!Covers(layout, item.pubkey) ==> done == item)
  }

  ghost predicate Reconstructed(items: seq<Automation>, layout: seq<seq<Key>>, out: seq<Automation>) {
    && IsLayout(items, layout)
    && |out| == |items|
    && forall i :: 0 <= i < |items| ==> RuleDone(items, layout, items[i], out[i])
  }

  /** The chains found so far are those of the rules visited so far. */
  ghost predicate PartialLayout(items: seq<Automation>, layout: seq<seq<Key>>, visited: set<Key>) {
    && DisjointChains(items, layout)
    && (forall x :: Covers(layout, x) ==> x in visited)
    && (forall x, y :: x in visited && x != y && Connected(items, x, y) ==> Covers(layout, x))
  }

  lemma ComponentIsClass(items: seq<Automation>, id: Key, component: seq<Key>, x: Key, y: Key)
    requires IsComponent(items, id, component) && x in component
    ensures y in component <==> Connected(items, x, y)
  {
    var toX: seq<Key> :| IsPath(items, toX) && toX[0] == id && toX[|toX| - 1] == x;
    if Connected(items, x, y) {
      var path: seq<Key> :| IsPath(items, path) && path[0] == x && path[|path| - 1] == y;
      ConnectedTransitive(items, id, x, path);
    }
    if y in component {
      ConnectedSymmetric(items, toX);
      var path: seq<Key> :| IsPath(items, path) && path[0] == id && path[|path| - 1] == y;
      ConnectedTransitive(items, x, id, path);
    }
  }

  lemma AddSingle(items: seq<Automation>, layout: seq<seq<Key>>, visited0: set<Key>, id: Key, component: seq<Key>)
    requires PartialLayout(items, layout, visited0)
    requires IsComponent(items, id, component) && |component| <= 1
    ensures PartialLayout(items, layout, visited0 + Elements(component))
  {
    hide Connected, DisjointChains;
    forall x, y | x in component && Connected(items, x, y)
      ensures x == y
    {
      ComponentIsClass(items, id, component, x, y);
      assert IsComponent(items, id, component) && y in component;
    }
  }

  lemma CoversGrows(layout: seq<seq<Key>>, order: seq<Key>, x: Key)
    ensures Covers(layout + [order], x) <==> Covers(layout, x) || x in order
  {
    var layout' := layout + [order];
    assert layout'[|layout|] == order;
    if Covers(layout, x) {
      var c :| 0 <= c < |layout| && x in layout[c];
      assert x in layout'[c];
    }
  }

  lemma AddChain(items: seq<Automation>, layout: seq<seq<Key>>, visited0: set<Key>, id: Key, component: seq<Key>,
                 order: seq<Key>)
    requires PartialLayout(items, layout, visited0)
    requires IsComponent(items, id, component) && visited0 !! Elements(component)
    requires |order| >= 2 && ChainOrder(items, order) && forall k :: k in order <==> k in component
    ensures PartialLayout(items, layout + [order], visited0 + Elements(component))
  {
    forall x, y | x in order
      ensures y in order <==> Connected(items, x, y)
    {
      ComponentIsClass(items, id, component, x, y);
    }
    forall x
      ensures Covers(layout + [order], x) <==> Covers(layout, x) || x in order
    {
      CoversGrows(layout, order, x);
    }
    AddDisjoint(items, layout, order);
  }

  lemma AddDisjoint(items: seq<Automation>, layout: seq<seq<Key>>, order: seq<Key>)
    requires DisjointChains(items, layout) && IsChain(items, order)
    requires forall x :: x in order ==> !Covers(layout, x)
    ensures DisjointChains(items, layout + [order])
  {
  }

  function LinkOf(next: map<Key, Key>, order: seq<Key>, p: nat): ChainLink
    requires p < |order|
  {
    ChainLink(ChainIdOf(order[0]), p, |order|, Lookup(next, order[p]), p == 0)
  }

  /** Writes the link of every rule of one more chain. */
  method PatchChain(order: seq<Key>, byKey: map<Key, Automation>, next: map<Key, Key>, patched: map<Key, Automation>)
    returns (patched': map<Key, Automation>)
    requires Distinct(order) && forall k :: k in order ==> k in byKey
    ensures forall k :: k in patched ==> k in patched' && (k !in order ==> patched'[k] == patched[k])
    ensures forall q :: 0 <= q < |order| ==>
              order[q] in patched' && patched'[order[q]] == byKey[order[q]].(link := Some(LinkOf(next, order, q)))
  {
    patched' := patched;
    for p := 0 to |order|
      invariant forall k :: k in patched ==> k in patched' && (k !in order ==> patched'[k] == patched[k])
      invariant forall q :: 0 <= q < p ==>
                  order[q] in patched' && patched'[order[q]] == byKey[order[q]].(link := Some(LinkOf(next, order, q)))
    {
      var item := byKey[order[p]];
      assert order[p] in order;
      patched' := patched'[order[p] := item.(link := Some(LinkOf(next, order, p)))];
    }
  }

  ghost predicate AllDone(items: seq<Automation>, layout: seq<seq<Key>>, patched: map<Key, Automation>) {
    forall i :: 0 <= i < |items| ==>
      items[i].pubkey in patched && RuleDone(items, layout, items[i], patched[items[i].pubkey])
  }

  lemma PatchedRule(items: seq<Automation>, layout: seq<seq<Key>>, order: seq<Key>, item: Automation,
                    before: Automation, after: Automation, next: map<Key, Key>)
    requires forall x, y :: Lookup(next, x) == Some(y) <==> Points(items, x, y)
    requires RuleDone(items, layout, item, before)
    requires item.pubkey !in order ==> after == before
    requires item.pubkey in order ==> !Covers(layout, item.pubkey)
    requires forall q :: 0 <= q < |order| && order[q] == item.pubkey ==>
               after == item.(link := Some(LinkOf(next, order, q)))
    ensures RuleDone(items, layout + [order], item, after)
  {
    var layout' := layout + [order];
    CoversGrows(layout, order, item.pubkey);
    forall c | 0 <= c < |layout'|
      ensures Placed(items, layout'[c], item.pubkey, after.link)
    {
      if c < |layout| {
        assert layout'[c] == layout[c];
        assert Placed(items, layout[c], item.pubkey, before.link);
      }
    }
  }

  lemma PatchKeepsDone(items: seq<Automation>, layout: seq<seq<Key>>, order: seq<Key>, byKey: map<Key, Automation>,
                       next: map<Key, Key>, patched: map<Key, Automation>, patched': map<Key, Automation>)
    requires AllDone(items, layout, patched)
    requires forall i :: 0 <= i < |items| ==> items[i].pubkey in byKey && byKey[items[i].pubkey] == items[i]
    requires forall x, y :: Lookup(next, x) == Some(y) <==> Points(items, x, y)
    requires forall k :: k in order ==> k in byKey && !Covers(layout, k)
    requires forall k :: k in patched ==> k in patched' && (k !in order ==> patched'[k] == patched[k])
    requires forall q :: 0 <= q < |order| ==>
               order[q] in patched' && patched'[order[q]] == byKey[order[q]].(link := Some(LinkOf(next, order, q)))
    ensures AllDone(items, layout + [order], patched')
  {
    forall i | 0 <= i < |items|
      ensures items[i].pubkey in patched' && RuleDone(items, layout + [order], items[i], patched'[items[i].pubkey])
    {
      PatchedRule(items, layout, order, items[i], patched[items[i].pubkey], patched'[items[i].pubkey], next);
    }
  }

  /** The order of the chain that is the component of `id`. */
  method OrderChain(ghost items: seq<Automation>, ghost id: Key, g: Graph, nonce: map<Key, nat>, component: seq<Key>)
    returns (order: seq<Key>)
    requires Describes(items, |items|, g)
    requires IsComponent(items, id, component) && |component| >= 2 && Searched(items, component)
    requires forall k :: k in component ==> k in nonce
    requires forall i :: 0 <= i < |items| ==> items[i].pubkey in nonce && nonce[items[i].pubkey] == items[i].nonce
    ensures |order| == |component| && ChainOrder(items, order)
    ensures forall k :: k in order <==> k in component
  {
    hide Searched, Points, Connected, NoneOlder, ByNonce, FirstFree, Leftover;
    var start, component' := PickStart(items, g.prev, nonce, component);
    forall x, y | x in component' && Points(items, x, y)
      ensures y in component'
    {
      StepStays(items, id, component, x, y);
    }
    DescribesPointers(items, g);
    ghost var w: nat;
    order, w := WalkOrder(items, g.next, component', start);
    SameMembers(component, order);
    if !SomeFree(items, component) {
      SortedLeftover(items, nonce, component', order, w);
    }
    assert OrderOf(items, component, order, w);
  }

  lemma DescribesPointers(items: seq<Automation>, g: Graph)
    requires Describes(items, |items|, g)
    ensures forall x, y :: Lookup(g.next, x) == Some(y) <==> Points(items, x, y)
  {
  }

  /** Sorted, what remains of a component is by nonce, and its first is the oldest. */
  lemma SortedLeftover(items: seq<Automation>, nonce: map<Key, nat>, sorted: seq<Key>, order: seq<Key>, w: nat)
    requires SortedByNonce(nonce, sorted) && sorted != [] && forall k :: k in order <==> k in sorted
    requires forall i :: 0 <= i < |items| ==> items[i].pubkey in nonce && nonce[items[i].pubkey] == items[i].nonce
    requires 1 <= w <= |order| && order[0] == sorted[0] && order[w..] == Leftover(sorted, order[..w])
    ensures NoneOlder(items, order[0], order) && ByNonce(items, order[w..])
  {
    var seen, rest := order[..w], order[w..];
    FilterKeepsSorted(nonce, sorted, (k: Key) => k !in seen);
    assert SortedByNonce(nonce, rest);
    forall p: nat | p < |rest|
      ensures NoneOlder(items, rest[p], rest[p..])
    {
      SortedNoneOlder(items, nonce, rest, p);
    }
    SortedNoneOlder(items, nonce, sorted, 0);
  }

  lemma SortedNoneOlder(items: seq<Automation>, nonce: map<Key, nat>, keys: seq<Key>, p: nat)
    requires SortedByNonce(nonce, keys) && p < |keys|
    requires forall i :: 0 <= i < |items| ==> items[i].pubkey in nonce && nonce[items[i].pubkey] == items[i].nonce
    ensures NoneOlder(items, keys[p], keys[p..])
  {
    forall k | k in keys[p..]
      ensures nonce[keys[p]] <= nonce[k]
    {
      var q :| 0 <= q < |keys[p..]| && keys[p..][q] == k;
      assert keys[p + q] == k;
    }
  }

  lemma {:induction false} FilterKeepsSorted(nonce: map<Key, nat>, keys: seq<Key>, p: Key -> bool)
    requires SortedByNonce(nonce, keys)
    ensures SortedByNonce(nonce, Filter(keys, p))
  {
    if keys == [] {
    } else {
      SortedCons(nonce, keys[0], keys[1..]);
      assert keys == [keys[0]] + keys[1..];
      FilterKeepsSorted(nonce, keys[1..], p);
      SortedCons(nonce, keys[0], Filter(keys[1..], p));
    }
  }

  lemma SortedCons(nonce: map<Key, nat>, k: Key, rest: seq<Key>)
    requires k in nonce && forall x :: x in rest ==> x in nonce
    ensures SortedByNonce(nonce, [k] + rest) <==>
            SortedByNonce(nonce, rest) && forall x :: x in rest ==> nonce[k] <= nonce[x]
  {
    var keys := [k] + rest;
    assert keys[0] == k && forall i :: 0 <= i < |rest| ==> keys[i + 1] == rest[i];
  }

  /** `byKey` and `nonce` are the list, looked up by key. */
  ghost predicate Indexes(items: seq<Automation>, byKey: map<Key, Automation>, nonce: map<Key, nat>) {
    && byKey.Keys == Keys(items) && nonce.Keys == Keys(items)
    && forall i :: 0 <= i < |items| ==> byKey[items[i].pubkey] == items[i] && nonce[items[i].pubkey] == items[i].nonce
  }

  /** Handles the component found for `id`: a rule on its own is left alone. */
  method LinkComponent(items: seq<Automation>, ghost layout: seq<seq<Key>>, ghost visited0: set<Key>, id: Key,
                       component: seq<Key>,
                       g: Graph, byKey: map<Key, Automation>, nonce: map<Key, nat>, patched: map<Key, Automation>)
    returns (ghost layout': seq<seq<Key>>, patched': map<Key, Automation>)
    requires Describes(items, |items|, g) && Indexes(items, byKey, nonce)
    requires IsComponent(items, id, component) && visited0 !! Elements(component) && Searched(items, component)
    requires forall k :: k in component ==> k in Keys(items)
    requires PartialLayout(items, layout, visited0) && AllDone(items, layout, patched)
    ensures PartialLayout(items, layout', visited0 + Elements(component)) && AllDone(items, layout', patched')
  {
    layout', patched' := layout, patched;
    if |component| <= 1 {
      AddSingle(items, layout, visited0, id, component);
      return;
    }
    var order := OrderChain(items, id, g, nonce, component);
    AddChain(items, layout, visited0, id, component, order);
    patched' := PatchChain(order, byKey, g.next, patched);
    PatchKeepsDone(items, layout, order, byKey, g.next, patched, patched');
    layout' := layout + [order];
  }

  /** One component after another, oldest rule first. */
  method LinkAll(items: seq<Automation>, g: Graph, byKey: map<Key, Automation>, nonce: map<Key, nat>,
                 sortedIds: seq<Key>)
    returns (patched: map<Key, Automation>, ghost layout: seq<seq<Key>>)
    requires Describes(items, |items|, g) && Indexes(items, byKey, nonce)
    requires SortedByNonce(nonce, sortedIds) && forall k :: k in sortedIds <==> k in Keys(items)
    ensures IsLayout(items, layout) && AllDone(items, layout, patched)
  {
    hide *;
    patched, layout := byKey, [];
    var visited: set<Key> := {};
    NothingVisited(items, byKey, nonce);
    DescribesNeighbours(items, g);
    for n := 0 to |sortedIds|
      invariant PartialLayout(items, layout, visited) && Closed(items, visited)
      invariant forall j :: 0 <= j < n ==> sortedIds[j] in visited
      invariant AllDone(items, layout, patched)
    {
      var id := sortedIds[n];
      if id !in visited {
        var component, visited' := Component(items, g.nbr, id, visited);
        StartsAtOldest(items, byKey, nonce, sortedIds, n, visited, component);
        layout, patched := LinkComponent(items, layout, visited, id, component, g, byKey, nonce, patched);
        visited := visited';
      }
    }
    AllVisited(items, layout, visited);
  }

  /** The ids not visited yet come later, so the search starts at the oldest of its component. */
  lemma StartsAtOldest(items: seq<Automation>, byKey: map<Key, Automation>, nonce: map<Key, nat>, sortedIds: seq<Key>,
                       n: nat, visited: set<Key>, component: seq<Key>)
    requires Indexes(items, byKey, nonce) && n < |sortedIds|
    requires SortedByNonce(nonce, sortedIds) && forall k :: k in sortedIds <==> k in Keys(items)
    requires forall j :: 0 <= j < n ==> sortedIds[j] in visited
    requires IsComponent(items, sortedIds[n], component) && Grown(items, sortedIds[n], component)
    requires visited !! Elements(component) && forall x :: x in component ==> x in Keys(items)
    ensures Searched(items, component)
  {
    hide IsComponent, FoundFrom;
    assert Distinct(component) by { ComponentDistinct(items, sortedIds[n], component); }
    forall k | k in component
      ensures nonce[sortedIds[n]] <= nonce[k]
    {
      var m :| 0 <= m < |sortedIds| && sortedIds[m] == k;
      assert k in Elements(component);
    }
  }

  lemma ComponentDistinct(items: seq<Automation>, id: Key, component: seq<Key>)
    requires IsComponent(items, id, component)
    ensures Distinct(component)
  {
  }

  lemma DescribesNeighbours(items: seq<Automation>, g: Graph)
    requires Describes(items, |items|, g)
    ensures NeighboursOf(items, g.nbr)
  {
  }

  lemma NothingVisited(items: seq<Automation>, byKey: map<Key, Automation>, nonce: map<Key, nat>)
    requires Indexes(items, byKey, nonce)
    ensures PartialLayout(items, [], {}) && Closed(items, {}) && AllDone(items, [], byKey)
  {
  }

  lemma AllVisited(items: seq<Automation>, layout: seq<seq<Key>>, visited: set<Key>)
    requires PartialLayout(items, layout, visited) && Keys(items) <= visited
    ensures IsLayout(items, layout)
  {
  }

  /** The list looked up by key, and its keys oldest first. */
  method IndexItems(items: seq<Automation>)
    returns (byKey: map<Key, Automation>, nonce: map<Key, nat>, sortedIds: seq<Key>)
    requires DistinctKeys(items)
    ensures Indexes(items, byKey, nonce)
    ensures SortedByNonce(nonce, sortedIds) && forall k :: k in sortedIds <==> k in Keys(items)
  {
    byKey := map a | a in items :: a.pubkey := a;
    nonce := map k | k in byKey :: byKey[k].nonce;
    ByKeyIndexes(items, byKey, nonce);
    var ids := seq(|items|, i requires 0 <= i < |items| => items[i].pubkey);
    IdsAreKeys(items, ids);
    sortedIds := SortByNonce(nonce, ids);
  }

  method ReconstructChainLinks(items: seq<Automation>) returns (out: seq<Automation>)
    requires DistinctKeys(items)
    ensures exists layout :: Reconstructed(items, layout, out)
  {
    var g := BuildGraph(items);
    var byKey, nonce, sortedIds := IndexItems(items);
    var patched, layout := LinkAll(items, g, byKey, nonce, sortedIds);
    out := Collect(items, layout, patched);
    assert Reconstructed(items, layout, out);
  }

  /** The list in its own order, each rule in its patched form. */
  method Collect(items: seq<Automation>, ghost layout: seq<seq<Key>>, patched: map<Key, Automation>)
    returns (out: seq<Automation>)
    requires AllDone(items, layout, patched)
    ensures |out| == |items| && forall i :: 0 <= i < |items| ==> RuleDone(items, layout, items[i], out[i])
  {
    hide RuleDone;
    out := seq(|items|, i requires 0 <= i < |items| && items[i].pubkey in patched => patched[items[i].pubkey]);
  }

  lemma IdsAreKeys(items: seq<Automation>, ids: seq<Key>)
    requires |ids| == |items| && forall i :: 0 <= i < |items| ==> ids[i] == items[i].pubkey
    ensures forall k :: k in ids <==> k in Keys(items)
  {
  }

  lemma ByKeyIndexes(items: seq<Automation>, byKey: map<Key, Automation>, nonce: map<Key, nat>)
    requires DistinctKeys(items)
    requires byKey == map a | a in items :: a.pubkey := a
    requires nonce == map k | k in byKey :: byKey[k].nonce
    ensures Indexes(items, byKey, nonce)
  {
  }

  lemma StepStays(items: seq<Automation>, id: Key, component: seq<Key>, x: Key, y: Key)
    requires IsComponent(items, id, component) && x in component && Points(items, x, y)
    ensures y in component
  {
    assert Edge(items, |items|, x, y);
    assert Adjacent(items, x, y);
    ConnectedStep(items, id, x, y);
  }

  // ---- what the result says about the list ---------------------------------

  ghost predicate SameChain(items: seq<Automation>, i: nat, j: nat) {
    i < |items| && j < |items| && Connected(items, items[i].pubkey, items[j].pubkey)
  }

  /** The rules connected to rule `i` carry the positions 0 .. total - 1, each
      exactly once, one of them as head, under one chain id. */
  ghost predicate Numbered(items: seq<Automation>, out: seq<Automation>, i: nat) {
    && i < |items| == |out|
    && out[i].link.Some?
    && (forall j: nat :: SameChain(items, i, j) ==>
          && out[j].link.Some?
          && out[j].link.value.chainId == out[i].link.value.chainId
          && out[j].link.value.total == out[i].link.value.total
          && out[j].link.value.position < out[i].link.value.total
          && out[j].link.value.isHead == (out[j].link.value.position == 0))
    && (forall j: nat, k: nat ::
          SameChain(items, i, j) && SameChain(items, i, k)
          && out[j].link.value.position == out[k].link.value.position
          ==> j == k)
    && (forall p: nat :: p < out[i].link.value.total ==> HolderExists(items, out, i, p))
  }

  ghost predicate HolderExists(items: seq<Automation>, out: seq<Automation>, i: nat, p: nat) {
    exists j: nat :: SameChain(items, i, j) && j < |out| && out[j].link.Some? && out[j].link.value.position == p
  }

  lemma ConnectedIsKey(items: seq<Automation>, x: Key, y: Key)
    requires Connected(items, x, y) && x in Keys(items)
    ensures y in Keys(items)
  {
    var path: seq<Key> :| IsPath(items, path) && path[0] == x && path[|path| - 1] == y;
    if |path| > 1 {
      assert Adjacent(items, path[|path| - 2], path[|path| - 2 + 1]);
      AdjacentAreKeys(items, path[|path| - 2], y);
    }
  }

  /** The link of the rule at position `p` of a chain. */
  lemma LinkAtPosition(items: seq<Automation>, layout: seq<seq<Key>>, out: seq<Automation>, c: nat, j: nat)
    returns (p: nat)
    requires Reconstructed(items, layout, out)
    requires c < |layout| && j < |items| && items[j].pubkey in layout[c]
    ensures p < |layout[c]| && layout[c][p] == items[j].pubkey
    ensures out[j].link.Some? && IsLink(items, layout[c], p, out[j].link.value)
  {
    p :| 0 <= p < |layout[c]| && layout[c][p] == items[j].pubkey;
    assert RuleDone(items, layout, items[j], out[j]);
    assert Placed(items, layout[c], items[j].pubkey, out[j].link);
  }

  lemma PositionHeld(items: seq<Automation>, layout: seq<seq<Key>>, out: seq<Automation>, c: nat, i: nat, p: nat)
    requires DistinctKeys(items) && Reconstructed(items, layout, out)
    requires c < |layout| && i < |items| && items[i].pubkey in layout[c] && p < |layout[c]|
    ensures HolderExists(items, out, i, p)
  {
    var key := layout[c][p];
    assert IsChain(items, layout[c]);
    assert key in layout[c];
    assert items[i] in items;
    ConnectedIsKey(items, items[i].pubkey, key);
    var a :| a in items && a.pubkey == key;
    var j: nat :| j < |items| && items[j] == a;
    var q := LinkAtPosition(items, layout, out, c, j);
    assert q == p;
  }

  /** For every list: only links change; a rule connected to no other is
      returned as it came; any other rule's component is numbered. */
  lemma GeneralReconstruction(items: seq<Automation>, layout: seq<seq<Key>>, out: seq<Automation>, i: nat)
    requires DistinctKeys(items) && Reconstructed(items, layout, out) && i < |items|
    ensures |out| == |items| && out[i].(link := items[i].link) == items[i]
    ensures if exists j: nat :: j != i && SameChain(items, i, j) then Numbered(items, out, i) else out[i] == items[i]
  {
    assert RuleDone(items, layout, items[i], out[i]);
    assert items[i] in items;
    if exists j: nat :: j != i && SameChain(items, i, j) {
      var j: nat :| j != i && SameChain(items, i, j);
      assert items[j].pubkey != items[i].pubkey;
      assert Covers(layout, items[i].pubkey);
      var c: nat :| c < |layout| && items[i].pubkey in layout[c];
      ChainIsNumbered(items, layout, out, c, i);
    } else if Covers(layout, items[i].pubkey) {
      var c: nat :| c < |layout| && items[i].pubkey in layout[c];
      CoveredIsNotAlone(items, layout, c, i);
    }
  }

  lemma ChainIsNumbered(items: seq<Automation>, layout: seq<seq<Key>>, out: seq<Automation>, c: nat, i: nat)
    requires DistinctKeys(items) && Reconstructed(items, layout, out)
    requires c < |layout| && i < |items| && items[i].pubkey in layout[c]
    ensures Numbered(items, out, i)
  {
    assert IsChain(items, layout[c]);
    var p := LinkAtPosition(items, layout, out, c, i);
    forall j: nat | SameChain(items, i, j)
      ensures out[j].link.Some? && exists q: nat ::
                q < |layout[c]| && layout[c][q] == items[j].pubkey && IsLink(items, layout[c], q, out[j].link.value)
    {
      var q := LinkAtPosition(items, layout, out, c, j);
    }
    forall p: nat | p < out[i].link.value.total
      ensures HolderExists(items, out, i, p)
    {
      PositionHeld(items, layout, out, c, i, p);
    }
  }

  lemma CoveredIsNotAlone(items: seq<Automation>, layout: seq<seq<Key>>, c: nat, i: nat)
    requires DistinctKeys(items) && IsLayout(items, layout)
    requires c < |layout| && i < |items| && items[i].pubkey in layout[c]
    ensures exists j: nat :: j != i && SameChain(items, i, j)
  {
    assert IsChain(items, layout[c]);
    var key := if layout[c][0] == items[i].pubkey then layout[c][1] else layout[c][0];
    assert key in layout[c] && key != items[i].pubkey;
    assert items[i] in items;
    ConnectedIsKey(items, items[i].pubkey, key);
    var a :| a in items && a.pubkey == key;
    var j: nat :| j < |items| && items[j] == a;
    assert SameChain(items, i, j);
  }

  /** Rules `i` and `j` of the chains with heads `g` and `h` carry one id exactly
      if the heads' addresses agree on their first twelve characters. */
  lemma SameIdMeans(items: seq<Automation>, layout: seq<seq<Key>>, out: seq<Automation>, i: nat, g: nat, j: nat, h: nat)
    requires DistinctKeys(items) && Reconstructed(items, layout, out)
    requires SameChain(items, i, g) && i != g && SameChain(items, j, h) && j != h
    requires out[g].link.Some? && out[g].link.value.isHead && out[h].link.Some? && out[h].link.value.isHead
    ensures out[i].link.Some? && out[j].link.Some?
    ensures out[i].link.value.chainId == out[j].link.value.chainId <==> SameStart(items[g].pubkey, items[h].pubkey)
  {
    hide IsLayout, Points, Connected;
    IdOfChain(items, layout, out, i, g);
    IdOfChain(items, layout, out, j, h);
    SameIdIff(items[g].pubkey, items[h].pubkey);
  }

  lemma IdOfChain(items: seq<Automation>, layout: seq<seq<Key>>, out: seq<Automation>, i: nat, g: nat)
    requires DistinctKeys(items) && Reconstructed(items, layout, out)
    requires SameChain(items, i, g) && i != g && out[g].link.Some? && out[g].link.value.isHead
    ensures out[i].link.Some? && out[i].link.value.chainId == ChainIdOf(items[g].pubkey)
  {
    assert items[i].pubkey != items[g].pubkey && items[i] in items;
    assert Covers(layout, items[i].pubkey);
    var c: nat :| c < |layout| && items[i].pubkey in layout[c];
    assert IsChain(items, layout[c]);
    var p := LinkAtPosition(items, layout, out, c, i);
    var q := LinkAtPosition(items, layout, out, c, g);
    hide Connected, IsLayout;
    assert q == 0;
  }
}
