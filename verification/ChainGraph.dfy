/** What the flat account list says about chains: who points at whom, and the
    neighbour map built from it (src/lib/on-chain-automations.ts). */
module ChainGraph {
  import opened Common
  import opened Automations

  /** `a`'s swap hands its output to `y`, which is in the list. */
  ghost predicate PointsTo(items: seq<Automation>, i: nat, y: Key)
    requires i < |items|
  {
    items[i].downstream == Some(y) && y in Keys(items)
  }

  /** The rule with key `x`, among the first `k`, hands its output to `y`. */
  ghost predicate Forward(items: seq<Automation>, k: nat, x: Key, y: Key)
    requires k <= |items|
  {
    exists i: nat :: i < k && items[i].pubkey == x && PointsTo(items, i, y)
  }

  ghost predicate HasPredecessor(items: seq<Automation>, y: Key) {
    exists i: nat :: i < |items| && PointsTo(items, i, y)
  }

  /** A price-relative rule is tied to its reference rule unless something
      listed up to and including it already points at it. */
  ghost predicate RefersTo(items: seq<Automation>, i: nat, y: Key)
    requires i < |items|
  {
    items[i].upstream == Some(y) && y in Keys(items) && forall j: nat :: j <= i ==> !PointsTo(items, j, items[i].pubkey)
  }

  ghost predicate Edge(items: seq<Automation>, k: nat, x: Key, y: Key)
    requires k <= |items|
  {
    exists i: nat :: i < k && items[i].pubkey == x && (PointsTo(items, i, y) || RefersTo(items, i, y))
  }

  /** The symmetric neighbour relation. */
  ghost predicate Adjacent(items: seq<Automation>, x: Key, y: Key) {
    Edge(items, |items|, x, y) || Edge(items, |items|, y, x)
  }

  ghost predicate IsPath(items: seq<Automation>, path: seq<Key>) {
    |path| > 0 && forall i :: 0 <= i < |path| - 1 ==> Adjacent(items, path[i], path[i + 1])
  }

  ghost predicate Connected(items: seq<Automation>, x: Key, y: Key) {
    exists path: seq<Key> :: IsPath(items, path) && path[0] == x && path[|path| - 1] == y
  }

  lemma ConnectedSelf(items: seq<Automation>, x: Key)
    ensures Connected(items, x, x)
  {
    assert IsPath(items, [x]);
  }

  lemma ConnectedStep(items: seq<Automation>, x: Key, y: Key, z: Key)
    requires Connected(items, x, y) && Adjacent(items, y, z)
    ensures Connected(items, x, z)
  {
    var path: seq<Key> :| IsPath(items, path) && path[0] == x && path[|path| - 1] == y;
    assert IsPath(items, path + [z]);
  }

  lemma {:induction false} ConnectedTransitive(items: seq<Automation>, x: Key, y: Key, path: seq<Key>)
    requires Connected(items, x, y) && IsPath(items, path) && path[0] == y
    ensures Connected(items, x, path[|path| - 1])
    decreases |path|
  {
    if |path| == 1 {
    } else {
      var shorter := path[..|path| - 1];
      ConnectedTransitive(items, x, y, shorter);
      ConnectedStep(items, x, shorter[|shorter| - 1], path[|path| - 1]);
    }
  }

  lemma {:induction false} ConnectedSymmetric(items: seq<Automation>, path: seq<Key>)
    requires IsPath(items, path)
    ensures Connected(items, path[|path| - 1], path[0])
    decreases |path|
  {
    if |path| == 1 {
      ConnectedSelf(items, path[0]);
    } else {
      var rest := path[1..];
      assert IsPath(items, rest) by {
        forall i | 0 <= i < |rest| - 1
          ensures Adjacent(items, rest[i], rest[i + 1])
        {
          assert Adjacent(items, path[i + 1], path[i + 2]);
        }
      }
      ConnectedSymmetric(items, rest);
      assert Adjacent(items, path[0], path[1]);
      ConnectedStep(items, path[|path| - 1], path[1], path[0]);
    }
  }

  /** A set that contains `x` and whatever its members are adjacent to contains all `x` is connected to. */
  lemma {:induction false} ClosedContainsPath(items: seq<Automation>, s: set<Key>, path: seq<Key>)
    requires IsPath(items, path) && path[0] in s
    requires forall x, y :: x in s && Adjacent(items, x, y) ==> y in s
    ensures path[|path| - 1] in s
    decreases |path|
  {
    if |path| == 1 {
    } else {
      ClosedContainsPath(items, s, path[..|path| - 1]);
    }
  }

  datatype Graph = Graph(next: map<Key, Key>, prev: map<Key, Key>, nbr: map<Key, seq<Key>>)

  function Nbr(nbr: map<Key, seq<Key>>, x: Key): seq<Key> {
    if x in nbr then nbr[x] else []
  }

  /** Records `a` and `b` as neighbours of each other. */
  function Join(nbr: map<Key, seq<Key>>, a: Key, b: Key): (r: map<Key, seq<Key>>)
    ensures forall x, y :: y in Nbr(r, x) <==> y in Nbr(nbr, x) || (x == a && y == b) || (x == b && y == a)
  {
    nbr[a := AddIfAbsent(Nbr(nbr, a), b)][b := AddIfAbsent(Nbr(nbr, b), a)]
  }

  ghost predicate NextRight(items: seq<Automation>, k: nat, next: map<Key, Key>)
    requires k <= |items|
  {
    forall x, y :: Lookup(next, x) == Some(y) <==> Forward(items, k, x, y)
  }

  ghost predicate PrevRight(items: seq<Automation>, k: nat, prev: map<Key, Key>)
    requires k <= |items|
  {
    forall y :: y in prev <==> exists i: nat :: i < k && PointsTo(items, i, y)
  }

  ghost predicate NbrRight(items: seq<Automation>, k: nat, nbr: map<Key, seq<Key>>)
    requires k <= |items|
  {
    forall x, y :: y in Nbr(nbr, x) <==> Edge(items, k, x, y) || Edge(items, k, y, x)
  }

  /** The maps describe the first `k` items faithfully. */
  ghost predicate Describes(items: seq<Automation>, k: nat, g: Graph)
    requires k <= |items|
  {
    NextRight(items, k, g.next) && PrevRight(items, k, g.prev) && NbrRight(items, k, g.nbr)
  }

  lemma EdgeGrows(items: seq<Automation>, k: nat, x: Key, y: Key)
    requires k < |items|
    ensures Edge(items, k + 1, x, y) <==>
            Edge(items, k, x, y) || (items[k].pubkey == x && (PointsTo(items, k, y) || RefersTo(items, k, y)))
  {
  }

  /** What one item adds to the maps: its forward link first, then its reference. */
  function Connect(keys: set<Key>, item: Automation, g: Graph): Graph {
    if item.downstream.Some? && item.downstream.value in keys then
      var to := item.downstream.value;
      Graph(g.next[item.pubkey := to], g.prev[to := item.pubkey], Join(g.nbr, item.pubkey, to))
    else g
  }

  function Refer(keys: set<Key>, item: Automation, g: Graph): Graph {
    if item.upstream.Some? && item.upstream.value in keys && item.pubkey !in g.prev then
      g.(nbr := Join(g.nbr, item.pubkey, item.upstream.value))
    else g
  }

  lemma NextGrows(items: seq<Automation>, k: nat, g: Graph, x: Key, y: Key)
    requires DistinctKeys(items) && k < |items| && NextRight(items, k, g.next)
    ensures Lookup(Connect(Keys(items), items[k], g).next, x) == Some(y) <==> Forward(items, k + 1, x, y)
  {
  }

  lemma PrevGrows(items: seq<Automation>, k: nat, g: Graph, y: Key)
    requires k < |items| && PrevRight(items, k, g.prev)
    ensures y in Connect(Keys(items), items[k], g).prev <==> exists i: nat :: i < k + 1 && PointsTo(items, i, y)
  {
    if y in Connect(Keys(items), items[k], g).prev && y !in g.prev {
      assert PointsTo(items, k, y);
    }
  }

  lemma NbrGrows(items: seq<Automation>, k: nat, g: Graph, x: Key, y: Key)
    requires k < |items| && PrevRight(items, k, g.prev) && NbrRight(items, k, g.nbr)
    ensures var g2 := Refer(Keys(items), items[k], Connect(Keys(items), items[k], g));
            y in Nbr(g2.nbr, x) <==> Edge(items, k + 1, x, y) || Edge(items, k + 1, y, x)
  {
    hide Edge, Nbr;
    var item := items[k];
    EdgeGrows(items, k, x, y);
    EdgeGrows(items, k, y, x);
    PrevGrows(items, k, g, item.pubkey);
    assert item.pubkey in Connect(Keys(items), item, g).prev <==>
      exists j: nat :: j <= k && PointsTo(items, j, item.pubkey);
  }

  lemma StepDescribes(items: seq<Automation>, k: nat, g: Graph)
    requires DistinctKeys(items) && k < |items| && Describes(items, k, g)
    ensures Describes(items, k + 1, Refer(Keys(items), items[k], Connect(Keys(items), items[k], g)))
  {
    forall x, y
      ensures Lookup(Connect(Keys(items), items[k], g).next, x) == Some(y) <==> Forward(items, k + 1, x, y)
    {
      NextGrows(items, k, g, x, y);
    }
    forall y
      ensures y in Connect(Keys(items), items[k], g).prev <==> exists i: nat :: i < k + 1 && PointsTo(items, i, y)
    {
      PrevGrows(items, k, g, y);
    }
    forall x, y
      ensures var g2 := Refer(Keys(items), items[k], Connect(Keys(items), items[k], g));
              y in Nbr(g2.nbr, x) <==> Edge(items, k + 1, x, y) || Edge(items, k + 1, y, x)
    {
      NbrGrows(items, k, g, x, y);
    }
  }

  method BuildGraph(items: seq<Automation>) returns (g: Graph)
    requires DistinctKeys(items)
    ensures Describes(items, |items|, g)
    ensures forall x, y :: Lookup(g.next, x) == Some(y) <==>
              exists a, b :: a in items && b in items && a.pubkey == x && b.pubkey == y && a.downstream == Some(y)
    ensures forall y :: y in g.prev <==>
              exists a, b :: a in items && b in items && b.pubkey == y && a.downstream == Some(y)
  {
    var keys := Keys(items);
    g := Graph(map[], map[], map[]);
    for k := 0 to |items|
      invariant Describes(items, k, g)
    {
      StepDescribes(items, k, g);
      hide Describes;
      g := Connect(keys, items[k], g);
      g := Refer(keys, items[k], g);
    }
    GraphMeans(items, g);
  }

  /** Rule `i`, with key `x`, names the listed rule `y`: as its downstream, or as
      its reference if nothing listed up to it names it as a downstream. */
  ghost predicate Names(items: seq<Automation>, i: nat, x: Key, y: Key) {
    && i < |items| && items[i].pubkey == x && (exists b :: b in items && b.pubkey == y)
    && (items[i].downstream == Some(y)
        || (items[i].upstream == Some(y) && forall j :: 0 <= j <= i ==> items[j].downstream != Some(x)))
  }

  /** Two rules are adjacent exactly if one names the other. */
  lemma AdjacentMeans(items: seq<Automation>, x: Key, y: Key)
    ensures Adjacent(items, x, y) <==> exists i: nat :: Names(items, i, x, y) || Names(items, i, y, x)
  {
    EdgeMeans(items, x, y);
    EdgeMeans(items, y, x);
  }

  lemma EdgeMeans(items: seq<Automation>, x: Key, y: Key)
    ensures Edge(items, |items|, x, y) <==> exists i: nat :: Names(items, i, x, y)
  {
    forall i: nat | i < |items| && items[i].pubkey == x
      ensures Names(items, i, x, y) <==> PointsTo(items, i, y) || RefersTo(items, i, y)
    {
      assert y in Keys(items) <==> exists b :: b in items && b.pubkey == y;
      assert items[i] in items && x in Keys(items);
      assert forall j: nat :: j <= i ==> (PointsTo(items, j, x) <==> items[j].downstream == Some(x));
    }
  }

  lemma GraphMeans(items: seq<Automation>, g: Graph)
    requires Describes(items, |items|, g)
    ensures forall x, y :: Lookup(g.next, x) == Some(y) <==>
              exists a, b :: a in items && b in items && a.pubkey == x && b.pubkey == y && a.downstream == Some(y)
    ensures forall y :: y in g.prev <==>
              exists a, b :: a in items && b in items && b.pubkey == y && a.downstream == Some(y)
  {
    hide Forward, PointsTo, NbrRight;
    forall x, y
      ensures Lookup(g.next, x) == Some(y) <==>
              exists a, b :: a in items && b in items && a.pubkey == x && b.pubkey == y && a.downstream == Some(y)
    {
      ForwardMeans(items, x, y);
    }
    forall y
      ensures y in g.prev <==> exists a, b :: a in items && b in items && b.pubkey == y && a.downstream == Some(y)
    {
      ForwardMeans(items, y, y);
    }
  }

  /** A pointer is a downstream of a listed rule that names a listed rule. */
  lemma ForwardMeans(items: seq<Automation>, x: Key, y: Key)
    ensures Forward(items, |items|, x, y) <==>
            exists a, b :: a in items && b in items && a.pubkey == x && b.pubkey == y && a.downstream == Some(y)
    ensures (exists i: nat :: i < |items| && PointsTo(items, i, y)) <==>
            exists a, b :: a in items && b in items && b.pubkey == y && a.downstream == Some(y)
  {
    forall a, b | a in items && b in items && b.pubkey == y && a.downstream == Some(y)
      ensures exists i: nat :: i < |items| && items[i] == a && PointsTo(items, i, y)
    {
      var i :| 0 <= i < |items| && items[i] == a;
      assert PointsTo(items, i, y);
    }
    if i: nat :| i < |items| && PointsTo(items, i, y) {
      var b :| b in items && b.pubkey == y;
      assert items[i] in items;
    }
    if i: nat :| i < |items| && items[i].pubkey == x && PointsTo(items, i, y) {
      var b :| b in items && b.pubkey == y;
      assert items[i] in items;
    }
  }
}
