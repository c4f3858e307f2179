/** Which rules of a chain draft lie on a loop (src/lib/linked-chains.ts). */
module CycleFinder {
  import opened Common

  /** One entry per card: the `ruleIndex` of its `next` link, if it has one.
      Nothing restricts the index, so it may lie outside the table. */
  type Links = seq<Option<int>>

  /** Following a link; an index outside the table has no link. */
  function NextOf(links: Links, i: int): Option<int> {
    if 0 <= i < |links| then links[i] else None
  }

  /** The card reached from `i` after `k` links. */
  function Hop(links: Links, i: int, k: nat): Option<int> {
    if k == 0 then Some(i)
    else match Hop(links, i, k - 1)
      case None => None
      case Some(j) => NextOf(links, j)
  }

  ghost predicate Reaches(links: Links, a: int, b: int) {
    exists k: nat :: Hop(links, a, k) == Some(b)
  }

  /** `i` comes back to itself after at least one link. */
  ghost predicate OnCycle(links: Links, i: int) {
    exists k: nat :: k >= 1 && Hop(links, i, k) == Some(i)
  }

  /** One closed orbit: nonempty, closed under links, every member reaching every other. */
  ghost predicate IsOrbit(links: Links, c: set<int>) {
    && c != {}
    && (forall a :: a in c ==> 0 <= a < |links| && links[a].Some? && links[a].value in c)
    && (forall a, b :: a in c && b in c ==> Reaches(links, a, b))
  }

  /** What the finder promises about its answer. */
  ghost predicate FindsCycle(links: Links, cycle: set<int>) {
    && (cycle == {} <==> forall i :: 0 <= i < |links| ==> !OnCycle(links, i))
    && (cycle != {} ==> IsOrbit(links, cycle) && LeadsIn(links, cycle))
  }

  /** The orbit is the one the smallest possible start runs into. */
  ghost predicate LeadsIn(links: Links, cycle: set<int>) {
    exists s: nat :: s < |links| && RunsInto(links, s, cycle) && forall i: nat :: i < s ==> !RunsInto(links, i, cycle)
  }

  ghost predicate RunsInto(links: Links, s: int, cycle: set<int>) {
    exists c :: c in cycle && Reaches(links, s, c)
  }

  lemma {:induction false} HopAdd(links: Links, i: int, a: nat, b: nat)
    requires Hop(links, i, a).Some?
    ensures Hop(links, i, a + b) == Hop(links, Hop(links, i, a).value, b)
  {
    if b == 0 {
    } else {
      HopAdd(links, i, a, b - 1);
    }
  }

  lemma {:induction false} HopDead(links: Links, i: int, a: nat, b: nat)
    requires Hop(links, i, a).None? && a <= b
    ensures Hop(links, i, b).None?
    decreases b
  {
    if a == b {
    } else {
      HopDead(links, i, a, b - 1);
    }
  }

  /** A card on a loop never runs out of links. */
  lemma {:induction false} Laps(links: Links, i: int, k: nat, laps: nat)
    requires k >= 1 && Hop(links, i, k) == Some(i)
    ensures Hop(links, i, laps * k) == Some(i)
  {
    if laps == 0 {
    } else {
      Laps(links, i, k, laps - 1);
      assert laps * k == (laps - 1) * k + k;
      HopAdd(links, i, (laps - 1) * k, k);
    }
  }

  lemma CycleNeverDies(links: Links, i: int, m: nat)
    requires OnCycle(links, i)
    ensures Hop(links, i, m).Some?
  {
    var k: nat :| k >= 1 && Hop(links, i, k) == Some(i);
    if Hop(links, i, m).None? {
      Laps(links, i, k, m);
      assert m <= m * k;
      HopDead(links, i, m, m * k);
    }
  }

  /** A walk that dies meets no loop at all. */
  lemma DeadStartMeetsNoCycle(links: Links, start: int, m: nat, b: int)
    requires Hop(links, start, m).None?
    ensures !OnCycle(links, start)
    ensures OnCycle(links, b) ==> !Reaches(links, start, b)
  {
    if OnCycle(links, start) {
      CycleNeverDies(links, start, m);
    }
    if OnCycle(links, b) && Reaches(links, start, b) {
      var k: nat :| Hop(links, start, k) == Some(b);
      if k <= m {
        HopAdd(links, start, k, m - k);
        CycleNeverDies(links, b, m - k);
      } else {
        HopDead(links, start, m, k);
      }
    }
  }

  /** A walk whose next card would be `tail[0]` again: each card links to the
      following one, the last back to the first. */
  ghost predicate ClosesUp(links: Links, tail: seq<int>) {
    forall j :: 0 <= j < |tail| ==> NextOf(links, tail[j]) == Some(tail[Succ(tail, j)])
  }

  function Succ(tail: seq<int>, j: nat): nat {
    if j + 1 < |tail| then j + 1 else 0
  }

  lemma {:induction false} Along(links: Links, tail: seq<int>, i: nat, k: nat)
    requires ClosesUp(links, tail) && i + k < |tail|
    ensures Hop(links, tail[i], k) == Some(tail[i + k])
  {
    if k == 0 {
    } else {
      Along(links, tail, i, k - 1);
    }
  }

  lemma Around(links: Links, tail: seq<int>, i: nat, j: nat)
    requires ClosesUp(links, tail) && i < |tail| && j < |tail|
    ensures Hop(links, tail[i], |tail| - i + j) == Some(tail[j])
  {
    var n := |tail|;
    Along(links, tail, i, n - 1 - i);
    assert Hop(links, tail[i], n - i) == Some(tail[0]);
    Along(links, tail, 0, j);
    HopAdd(links, tail[i], n - i, j);
  }

  lemma ClosedTailIsOrbit(links: Links, tail: seq<int>)
    requires ClosesUp(links, tail) && tail != []
    ensures IsOrbit(links, Elements(tail))
    ensures forall a :: a in tail ==> OnCycle(links, a)
  {
    var c := Elements(tail);
    assert tail[0] in c;
    forall a | a in c
      ensures 0 <= a < |links| && links[a].Some? && links[a].value in c && OnCycle(links, a)
    {
      var i: nat :| i < |tail| && tail[i] == a;
      var next := tail[Succ(tail, i)];
      assert NextOf(links, a) == Some(next);
      assert next in c;
      Around(links, tail, i, i);
      assert Hop(links, a, |tail|) == Some(a);
    }
    forall a, b | a in c && b in c
      ensures Reaches(links, a, b)
    {
      var i :| 0 <= i < |tail| && tail[i] == a;
      var j :| 0 <= j < |tail| && tail[j] == b;
      Around(links, tail, i, j);
    }
  }

  /** The tail of a walk from its first repeated card on is one closed orbit. */
  lemma TailIsOrbit(links: Links, start: int, visited: seq<int>, entryAt: nat)
    requires forall j :: 0 <= j < |visited| ==> Hop(links, start, j) == Some(visited[j])
    requires entryAt < |visited|
    requires Hop(links, start, |visited|) == Some(visited[entryAt])
    ensures IsOrbit(links, Elements(visited[entryAt..]))
    ensures forall a :: a in visited[entryAt..] ==> OnCycle(links, a)
  {
    var tail := visited[entryAt..];
    forall j | 0 <= j < |tail|
      ensures NextOf(links, tail[j]) == Some(tail[Succ(tail, j)])
    {
      assert Hop(links, start, entryAt + j + 1) == NextOf(links, visited[entryAt + j]);
    }
    ClosedTailIsOrbit(links, tail);
  }

  /** The walk of one start: the cards seen, and what stopped it. */
  method Walk(links: Links, start: int) returns (visited: seq<int>, cur: Option<int>)
    ensures forall j :: 0 <= j < |visited| ==> Hop(links, start, j) == Some(visited[j])
    ensures cur == Hop(links, start, |visited|)
    ensures cur.Some? ==> cur.value in visited
  {
    visited := [];
    cur := Some(start);
    ghost var indices := Range(0, |links|);
    while cur.Some? && cur.value !in visited
      invariant cur == Hop(links, start, |visited|)
      invariant forall j :: 0 <= j < |visited| ==> Hop(links, start, j) == Some(visited[j])
      decreases indices - Elements(visited), if cur.Some? then 1 else 0
    {
      ghost var before := Elements(visited);
      visited := visited + [cur.value];
      assert Elements(visited) == before + {cur.value};
      cur := NextOf(links, cur.value);
    }
  }

  ghost predicate MeetsNoCycle(links: Links, i: int) {
    !OnCycle(links, i) && forall b :: OnCycle(links, b) ==> !Reaches(links, i, b)
  }

  lemma FoundIt(links: Links, start: nat, entryAt: nat, cycle: set<int>)
    requires start < |links| && IsOrbit(links, cycle)
    requires forall i :: 0 <= i < start ==> MeetsNoCycle(links, i)
    requires forall a :: a in cycle ==> OnCycle(links, a)
    requires Hop(links, start, entryAt).Some? && Hop(links, start, entryAt).value in cycle
    ensures FindsCycle(links, cycle)
  {
    var c := Hop(links, start, entryAt).value;
    assert Reaches(links, start, c);
    assert RunsInto(links, start, cycle);
    assert 0 <= c < |links| && OnCycle(links, c);
    forall i: nat | i < start
      ensures !RunsInto(links, i, cycle)
    {
      assert MeetsNoCycle(links, i);
    }
  }

  lemma NothingFound(links: Links)
    requires forall i :: 0 <= i < |links| ==> MeetsNoCycle(links, i)
    ensures FindsCycle(links, {})
  {
    forall i | 0 <= i < |links|
      ensures !OnCycle(links, i)
    {
      assert MeetsNoCycle(links, i);
    }
  }

  method FindCycleNodes(links: Links) returns (cycle: set<int>)
    ensures FindsCycle(links, cycle)
  {
    cycle := {};
    if |links| == 0 { return; }
    for start := 0 to |links|
      invariant cycle == {}
      invariant forall i :: 0 <= i < start ==> MeetsNoCycle(links, i)
    {
      var visited, cur := Walk(links, start);
      if cur.Some? {
        var entryAt :| 0 <= entryAt < |visited| && visited[entryAt] == cur.value;
        for j := entryAt to |visited|
          invariant cycle == Elements(visited[entryAt..j])
        {
          cycle := cycle + {visited[j]};
          assert visited[entryAt..j + 1] == visited[entryAt..j] + [visited[j]];
        }
        assert visited[entryAt..|visited|] == visited[entryAt..];
        assert visited[entryAt] == visited[entryAt..][0];
        TailIsOrbit(links, start, visited, entryAt);
        FoundIt(links, start, entryAt, cycle);
        return;
      }
      forall b
        ensures !OnCycle(links, start) && (OnCycle(links, b) ==> !Reaches(links, start, b))
      {
        DeadStartMeetsNoCycle(links, start, |visited|, b);
      }
    }
    NothingFound(links);
  }

  /** An orbit is everything any of its members can reach, so it is unique. */
  lemma OrbitIsReachableSet(links: Links, c: set<int>, a: int)
    requires IsOrbit(links, c) && a in c
    ensures forall b :: b in c <==> Reaches(links, a, b)
    ensures OnCycle(links, a)
  {
    forall b
      ensures b in c <==> Reaches(links, a, b)
    {
      if Reaches(links, a, b) {
        var k: nat :| Hop(links, a, k) == Some(b);
        StaysInOrbit(links, c, a, k);
      }
    }
    var next := links[a].value;
    assert Reaches(links, next, a);
    var k: nat :| Hop(links, next, k) == Some(a);
    assert Hop(links, a, 0) == Some(a);
    assert Hop(links, a, 1) == Some(next);
    HopAdd(links, a, 1, k);
  }

  lemma {:induction false} StaysInOrbit(links: Links, c: set<int>, a: int, k: nat)
    requires IsOrbit(links, c) && a in c
    ensures Hop(links, a, k).Some? && Hop(links, a, k).value in c
  {
    if k == 0 {
    } else {
      StaysInOrbit(links, c, a, k - 1);
    }
  }

  /** The builder's convention: every card links to the one after it, and the
      last card is free to link back to any card or to none. */
  ghost predicate ForwardChain(links: Links) {
    && |links| >= 1
    && (forall i :: 0 <= i < |links| - 1 ==> links[i] == Some(i + 1))
    && (links[|links| - 1].Some? ==> 0 <= links[|links| - 1].value < |links|)
  }

  lemma {:induction false} ForwardHop(links: Links, i: nat, k: nat)
    requires ForwardChain(links) && i + k < |links|
    ensures Hop(links, i, k) == Some(i + k)
  {
    if k == 0 {
    } else {
      ForwardHop(links, i, k - 1);
    }
  }

  lemma OpenChainHasNoCycle(links: Links, i: nat)
    requires ForwardChain(links) && links[|links| - 1].None? && i < |links|
    ensures !OnCycle(links, i)
  {
    var n := |links|;
    ForwardHop(links, i, n - 1 - i);
    assert Hop(links, i, n - i) == None;
    DeadStartMeetsNoCycle(links, i, n - i, i);
  }

  lemma LoopedChainReach(links: Links, t: nat, i: int)
    requires ForwardChain(links) && links[|links| - 1] == Some(t)
    ensures Reaches(links, t, i) <==> t <= i < |links|
  {
    if t <= i < |links| {
      ForwardHop(links, t, i - t);
    }
    if Reaches(links, t, i) {
      var k: nat :| Hop(links, t, k) == Some(i);
      ForwardStays(links, t, k);
    }
  }

  /** On such a chain the answer is exactly the cards from the back-link's target on. */
  lemma ForwardChainCycle(links: Links, cycle: set<int>)
    requires ForwardChain(links)
    ensures var back := links[|links| - 1];
            FindsCycle(links, cycle) ==> cycle == if back.Some? then Range(back.value, |links|) else {}
  {
    if !FindsCycle(links, cycle) { return; }
    var n := |links|;
    match links[n - 1]
    case None =>
      forall i | 0 <= i < n
        ensures !OnCycle(links, i)
      {
        OpenChainHasNoCycle(links, i);
      }
    case Some(t) =>
      ForwardHop(links, t, n - 1 - t);
      assert Hop(links, t, n - t) == Some(t);
      assert OnCycle(links, t);
      var a :| a in cycle;
      ForwardHop(links, a, n - 1 - a);
      StaysInOrbit(links, cycle, a, n - a);
      assert Hop(links, a, n - a) == Some(t);
      OrbitIsReachableSet(links, cycle, t);
      forall i
        ensures i in cycle <==> t <= i < n
      {
        LoopedChainReach(links, t, i);
      }
  }

  lemma {:induction false} ForwardStays(links: Links, t: nat, k: nat)
    requires ForwardChain(links) && links[|links| - 1] == Some(t)
    ensures Hop(links, t, k).Some? && t <= Hop(links, t, k).value < |links|
  {
    if k == 0 {
    } else {
      ForwardStays(links, t, k - 1);
    }
  }
}
