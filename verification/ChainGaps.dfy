/** What reconstruction makes of a chain some accounts of which have been
    closed (src/lib/on-chain-automations.ts). */
module ChainGaps {
  import opened Common
  import opened Automations
  import opened ChainGraph
  import opened ChainLinks
  import opened ChainRoundTrip

  /** Rules a .. b - 1 are listed, the ones before and after are not. */
  ghost predicate IsRun(ch: Chain, items: seq<Automation>, a: nat, b: nat) {
    && a < b <= |ch.keys|
    && (forall i: nat :: a <= i < b ==> Present(ch, items, i))
    && (a > 0 ==> !Present(ch, items, a - 1))
    && (b < |ch.keys| ==> !Present(ch, items, b))
  }

  /** The last rule and the one it links back to are both listed. */
  ghost predicate BackLinked(ch: Chain, items: seq<Automation>, t: nat)
    requires IsDraft(ch)
  {
    BackLink(ch.cards) == Some(t) && Present(ch, items, t) && Present(ch, items, |ch.keys| - 1)
  }

  /** The back-link lies within the run or has nothing to do with it. */
  ghost predicate OnItsOwn(ch: Chain, items: seq<Automation>, a: nat, b: nat)
    requires IsDraft(ch)
  {
    forall t: nat :: BackLinked(ch, items, t) ==> (a <= t < b <==> b == |ch.keys|)
  }

  /** Where the back-link leads within the run. */
  ghost function RunBack(ch: Chain, items: seq<Automation>, a: nat, b: nat): (back: Option<nat>)
    requires IsDraft(ch) && a < b <= |ch.keys| && OnItsOwn(ch, items, a, b)
    ensures back.Some? ==> back.value < b - a
  {
    if b == |ch.keys| && BackLink(ch.cards).Some? && BackLinked(ch, items, BackLink(ch.cards).value)
    then Some(BackLink(ch.cards).value - a)
    else None
  }

  lemma RunPoints(ch: Chain, items: seq<Automation>, a: nat, b: nat, i: nat, y: Key)
    requires Scattered(ch, items) && IsRun(ch, items, a, b) && a <= i < b
    ensures Points(items, ch.keys[i], y) <==>
            if i + 1 < b then y == ch.keys[i + 1]
            else (i + 1 == |ch.keys| && BackLink(ch.cards).Some? && BackLinked(ch, items, BackLink(ch.cards).value) &&
                  y == ch.keys[BackLink(ch.cards).value])
  {
    PointersAreLinks(ch, items, i, y);
    assert Present(ch, items, i);
    if i + 1 < b { assert Present(ch, items, i + 1); }
  }

  lemma RunIsClosed(ch: Chain, items: seq<Automation>, a: nat, b: nat, i: nat, y: Key)
    requires Scattered(ch, items) && IsRun(ch, items, a, b) && OnItsOwn(ch, items, a, b)
    requires a <= i < b && Adjacent(items, ch.keys[i], y)
    ensures y in ch.keys[a..b]
  {
    hide Scattered, Adjacent;
    ScatteredIsDraft(ch, items);
    var n := |ch.keys|;
    var j := AdjacentIsLinked(ch, items, i, y);
    assert Present(ch, items, i);
    if i == n - 1 && BackLink(ch.cards) == Some(j) { assert BackLinked(ch, items, j); }
    if j == n - 1 && BackLink(ch.cards) == Some(i) { assert BackLinked(ch, items, i); }
    assert a <= j < b;
    assert ch.keys[a..b][j - a] == y;
  }

  /** A run of two rules or more on its own is a line. */
  lemma RunIsLine(ch: Chain, items: seq<Automation>, a: nat, b: nat)
    requires Scattered(ch, items) && IsRun(ch, items, a, b) && OnItsOwn(ch, items, a, b) && b - a >= 2
    ensures IsLine(items, ch.keys[a..b], RunBack(ch, items, a, b))
  {
    hide Points, Adjacent, HeadIsOldest, Apart, IsAccount, OnItsOwn, RunBack;
    var keys, back := ch.keys[a..b], RunBack(ch, items, a, b);
    assert forall i :: 0 <= i < |keys| ==> keys[i] == ch.keys[a + i];
    forall i: nat, y | i < |keys|
      ensures Points(items, keys[i], y) <==> LineTarget(keys, back, i) == Some(y)
    {
      RunTargets(ch, items, a, b, i, y);
    }
    forall x, y | x in keys && Adjacent(items, x, y)
      ensures y in keys
    {
      var i: nat :| i < |keys| && keys[i] == x;
      RunIsClosed(ch, items, a, b, a + i, y);
    }
    forall k | k in keys
      ensures k in Keys(items)
    {
      var i: nat :| i < |keys| && keys[i] == k;
      assert Present(ch, items, a + i);
    }
    RunHeadIsOldest(ch, items, a, b);
  }

  lemma RunTargets(ch: Chain, items: seq<Automation>, a: nat, b: nat, i: nat, y: Key)
    requires Scattered(ch, items) && IsRun(ch, items, a, b) && OnItsOwn(ch, items, a, b) && i < b - a
    ensures Points(items, ch.keys[a + i], y) <==> LineTarget(ch.keys[a..b], RunBack(ch, items, a, b), i) == Some(y)
  {
    hide Points, Scattered, Present;
    ScatteredIsDraft(ch, items);
    RunPoints(ch, items, a, b, a + i, y);
  }

  lemma RunHeadIsOldest(ch: Chain, items: seq<Automation>, a: nat, b: nat)
    requires Scattered(ch, items) && a < b <= |ch.keys|
    ensures HeadIsOldest(items, ch.keys[a..b])
  {
    var keys := ch.keys[a..b];
    forall i, j | 0 <= i < |items| && 0 <= j < |items| && items[i].pubkey == keys[0] && items[j].pubkey in keys &&
      items[j].nonce <= items[i].nonce
      ensures items[j].pubkey == keys[0]
    {
      var p: nat :| p < |keys| && keys[p] == items[j].pubkey;
      assert IsAccount(ch, a, items[i]) && IsAccount(ch, a + p, items[j]);
    }
  }

  lemma RunInside(ch: Chain, items: seq<Automation>, a: nat, b: nat)
    requires Scattered(ch, items) && IsRun(ch, items, a, b)
    ensures a < b <= |ch.keys| && IsDraft(ch) && DistinctKeys(items)
  {
  }

  /** A run between gaps is recovered as a chain of its own: positions from 0,
      its own length, its first rule as head, no target beyond its end. */
  lemma RunRecovered(ch: Chain, items: seq<Automation>, a: nat, b: nat, layout: seq<seq<Key>>, out: seq<Automation>,
                     i: nat, n: nat)
    requires Scattered(ch, items) && IsRun(ch, items, a, b) && OnItsOwn(ch, items, a, b) && b - a >= 2
    requires Reconstructed(items, layout, out)
    requires a <= i < b && n < |items| && items[n].pubkey == ch.keys[i]
    ensures out[n] == items[n].(link := Some(LineLink(ch.keys[a..b], RunBack(ch, items, a, b), i - a)))
  {
    RunInside(ch, items, a, b);
    hide Scattered, IsRun, OnItsOwn, IsLine, Reconstructed, LineLink;
    RunIsLine(ch, items, a, b);
    LineRecovered(items, ch.keys[a..b], RunBack(ch, items, a, b), layout, out, i - a, n);
  }

  /** A rule between two gaps is left as it was. */
  lemma LoneRuleUntouched(ch: Chain, items: seq<Automation>, a: nat, layout: seq<seq<Key>>, out: seq<Automation>,
                          n: nat)
    requires Scattered(ch, items) && IsRun(ch, items, a, a + 1) && OnItsOwn(ch, items, a, a + 1)
    requires Reconstructed(items, layout, out) && n < |items| && items[n].pubkey == ch.keys[a]
    ensures out[n] == items[n]
  {
    hide Connected, Adjacent, IsRun, OnItsOwn, Reconstructed;
    forall j: nat | SameChain(items, n, j)
      ensures j == n
    {
      LoneRuleAlone(ch, items, a, items[j].pubkey);
    }
    GeneralReconstruction(items, layout, out, n);
  }

  lemma LoneRuleAlone(ch: Chain, items: seq<Automation>, a: nat, y: Key)
    requires Scattered(ch, items) && IsRun(ch, items, a, a + 1) && OnItsOwn(ch, items, a, a + 1)
    requires Connected(items, ch.keys[a], y)
    ensures y == ch.keys[a]
  {
    hide Adjacent, Scattered, OnItsOwn;
    var self := {ch.keys[a]};
    forall x, z | x in self && Adjacent(items, x, z)
      ensures z in self
    {
      RunIsClosed(ch, items, a, a + 1, a, z);
    }
    var path: seq<Key> :| IsPath(items, path) && path[0] == ch.keys[a] && path[|path| - 1] == y;
    ClosedContainsPath(items, self, path);
  }

  // ---- runs joined by the back-link ---------------------------------------------------

  /** The run s .. n - 1 at the end of the chain links back into the run u .. v - 1. */
  ghost predicate Joined(ch: Chain, items: seq<Automation>, u: nat, v: nat, s: nat, t: nat) {
    && Scattered(ch, items)
    && IsRun(ch, items, u, v) && IsRun(ch, items, s, |ch.keys|)
    && u <= t < v < s < |ch.keys| && BackLinked(ch, items, t)
  }

  function JoinedKeys(ch: Chain, v: nat, s: nat, t: nat): seq<Key>
    requires t <= v <= s <= |ch.keys|
  {
    ch.keys[s..] + ch.keys[t..v]
  }

  lemma JoinedAt(ch: Chain, v: nat, s: nat, t: nat, i: nat)
    requires t <= v <= s <= |ch.keys| && i < |ch.keys| - s + v - t
    ensures i < |JoinedKeys(ch, v, s, t)|
    ensures JoinedKeys(ch, v, s, t)[i] == ch.keys[if i < |ch.keys| - s then s + i else t + (i - (|ch.keys| - s))]
  {
  }

  /** From the start of the last run the pointers lead to its end, then on from
      the target of the back-link to the next gap. */
  lemma JoinedPoints(ch: Chain, items: seq<Automation>, u: nat, v: nat, s: nat, t: nat, i: nat, y: Key)
    requires Joined(ch, items, u, v, s, t) && i < |JoinedKeys(ch, v, s, t)|
    ensures Points(items, JoinedKeys(ch, v, s, t)[i], y) <==> LineTarget(JoinedKeys(ch, v, s, t), None, i) == Some(y)
  {
    hide Points, Scattered;
    var l := |ch.keys| - s;
    JoinedAt(ch, v, s, t, i);
    if i + 1 < |JoinedKeys(ch, v, s, t)| { JoinedAt(ch, v, s, t, i + 1); }
    if i < l {
      RunPoints(ch, items, s, |ch.keys|, s + i, y);
    } else {
      RunPoints(ch, items, u, v, t + (i - l), y);
    }
  }

  lemma JoinedDistinct(ch: Chain, v: nat, s: nat, t: nat)
    requires Distinct(ch.keys) && t <= v <= s <= |ch.keys|
    ensures Distinct(JoinedKeys(ch, v, s, t))
  {
    var keys := JoinedKeys(ch, v, s, t);
    forall i: nat, j: nat | i < j < |keys|
      ensures keys[i] != keys[j]
    {
      JoinedAt(ch, v, s, t, i);
      JoinedAt(ch, v, s, t, j);
    }
  }

  lemma JoinedMembers(ch: Chain, items: seq<Automation>, u: nat, v: nat, s: nat, t: nat, y: Key)
    requires Joined(ch, items, u, v, s, t)
    ensures y in JoinedKeys(ch, v, s, u) <==> exists i: nat :: InEither(ch, u, v, s, i) && ch.keys[i] == y
  {
    var keys := JoinedKeys(ch, v, s, u);
    var l := |ch.keys| - s;
    if y in keys {
      var p: nat :| p < |keys| && keys[p] == y;
      JoinedAt(ch, v, s, u, p);
      assert InEither(ch, u, v, s, if p < l then s + p else u + (p - l));
    }
    if i: nat :| InEither(ch, u, v, s, i) && ch.keys[i] == y {
      var p := if i >= s then i - s else l + (i - u);
      JoinedAt(ch, v, s, u, p);
    }
  }

  predicate InEither(ch: Chain, u: nat, v: nat, s: nat, i: nat) {
    u <= i < v || s <= i < |ch.keys|
  }

  lemma ScatteredIsDraft(ch: Chain, items: seq<Automation>)
    requires Scattered(ch, items)
    ensures IsDraft(ch)
  {
  }

  lemma JoinedIsClosed(ch: Chain, items: seq<Automation>, u: nat, v: nat, s: nat, t: nat, i: nat, y: Key)
    requires Joined(ch, items, u, v, s, t) && i < |ch.keys| && InEither(ch, u, v, s, i) &&
             Adjacent(items, ch.keys[i], y)
    ensures exists j: nat :: InEither(ch, u, v, s, j) && ch.keys[j] == y
  {
    hide Scattered, Adjacent;
    assert Present(ch, items, i);
    assert IsDraft(ch) by { ScatteredIsDraft(ch, items); }
    var j := AdjacentIsLinked(ch, items, i, y);
    assert InEither(ch, u, v, s, j);
  }

  /** When the back-link leads to the first rule after a gap, the two runs make
      one line: the last run first, then the run it links back to. */
  lemma JoinedAtStartIsLine(ch: Chain, items: seq<Automation>, u: nat, v: nat, s: nat)
    requires Joined(ch, items, u, v, s, u)
    ensures IsLine(items, JoinedKeys(ch, v, s, u), None)
  {
    var keys := JoinedKeys(ch, v, s, u);
    JoinedDistinct(ch, v, s, u);
    forall i: nat, y | i < |keys|
      ensures Points(items, keys[i], y) <==> LineTarget(keys, None, i) == Some(y)
    {
      JoinedPoints(ch, items, u, v, s, u, i, y);
    }
    forall x, y | x in keys && Adjacent(items, x, y)
      ensures y in keys
    {
      JoinedMembers(ch, items, u, v, s, u, x);
      JoinedMembers(ch, items, u, v, s, u, y);
      var i: nat :| InEither(ch, u, v, s, i) && ch.keys[i] == x;
      JoinedIsClosed(ch, items, u, v, s, u, i, y);
    }
    forall k | k in keys
      ensures k in Keys(items)
    {
      JoinedMembers(ch, items, u, v, s, u, k);
      var i: nat :| InEither(ch, u, v, s, i) && ch.keys[i] == k;
      assert Present(ch, items, i);
    }
  }

  /** ... and every rule is recovered in that order, with no target at the end. */
  lemma JoinedAtStartRecovered(ch: Chain, items: seq<Automation>, u: nat, v: nat, s: nat, layout: seq<seq<Key>>,
                               out: seq<Automation>, i: nat, n: nat)
    requires Joined(ch, items, u, v, s, u) && Reconstructed(items, layout, out)
    requires i < |JoinedKeys(ch, v, s, u)| && n < |items| && items[n].pubkey == JoinedKeys(ch, v, s, u)[i]
    ensures out[n] == items[n].(link := Some(LineLink(JoinedKeys(ch, v, s, u), None, i)))
  {
    JoinedAtStartIsLine(ch, items, u, v, s);
    LineRecovered(items, JoinedKeys(ch, v, s, u), None, layout, out, i, n);
  }

  /** A rule of the two runs without predecessor starts one of them. */
  lemma JoinedStarts(ch: Chain, items: seq<Automation>, u: nat, v: nat, s: nat, t: nat, i: nat)
    requires Joined(ch, items, u, v, s, t) && t > u && InEither(ch, u, v, s, i)
    ensures HasPredecessor(items, ch.keys[i]) <==> i != u && i != s
  {
    hide HasPredecessor, Scattered, Points, IsDraft;
    assert Present(ch, items, i);
    if i != u && i != s {
      assert Present(ch, items, i - 1);
      FollowsHasPredecessor(ch, items, i);
    }
    if HasPredecessor(items, ch.keys[i]) {
      var p := PredecessorOf(ch, items, i);
    }
  }

  lemma FollowsHasPredecessor(ch: Chain, items: seq<Automation>, i: nat)
    requires Scattered(ch, items) && 0 < i && Present(ch, items, i - 1) && Present(ch, items, i)
    ensures HasPredecessor(items, ch.keys[i])
  {
    PointersAreLinks(ch, items, i - 1, ch.keys[i]);
    assert Points(items, ch.keys[i - 1], ch.keys[i]);
  }

  lemma PredecessorOf(ch: Chain, items: seq<Automation>, i: nat) returns (p: nat)
    requires Scattered(ch, items) && i < |ch.keys| && HasPredecessor(items, ch.keys[i])
    ensures Present(ch, items, p) && (p + 1 == i || (p + 1 == |ch.keys| && BackLink(ch.cards) == Some(i)))
  {
    var m: nat :| m < |items| && PointsTo(items, m, ch.keys[i]);
    hide HasPredecessor, Points;
    assert !Apart(ch, items, m);
    p :| 0 <= p < |ch.keys| && ch.keys[p] == items[m].pubkey;
    assert IsAccount(ch, p, items[m]);
    assert items[m] in items;
  }

  /** When it leads further in, the search starts at the first rule of the run
      linked back to, which is the oldest, ... */
  lemma JoinedInsideStart(ch: Chain, items: seq<Automation>, u: nat, v: nat, s: nat, t: nat, listing: seq<Key>)
    requires Joined(ch, items, u, v, s, t) && t > u && Searched(items, listing)
    requires forall k :: k in listing <==> k in JoinedKeys(ch, v, s, u)
    ensures listing != [] && listing[0] == ch.keys[u] && !HasPredecessor(items, ch.keys[u])
  {
    hide HasPredecessor, IsRun, BackLinked, Grown, Apart;
    assert InEither(ch, u, v, s, u);
    JoinedMembers(ch, items, u, v, s, t, ch.keys[u]);
    assert listing[0] in listing;
    JoinedMembers(ch, items, u, v, s, t, listing[0]);
    var i: nat :| InEither(ch, u, v, s, i) && ch.keys[i] == listing[0];
    PresentInJoined(ch, items, u, v, s, t, i);
    PresentInJoined(ch, items, u, v, s, t, u);
    var n := ItemOf(items, ch.keys[i]);
    var m := ItemOf(items, ch.keys[u]);
    assert IsAccount(ch, i, items[n]) && IsAccount(ch, u, items[m]);
    assert items[n].nonce <= items[m].nonce;
    JoinedStarts(ch, items, u, v, s, t, u);
  }

  lemma PresentInJoined(ch: Chain, items: seq<Automation>, u: nat, v: nat, s: nat, t: nat, i: nat)
    requires Joined(ch, items, u, v, s, t) && InEither(ch, u, v, s, i)
    ensures Present(ch, items, i)
  {
  }

  /** ... the walk is exactly that run, ... */
  lemma JoinedInsideWalk(ch: Chain, items: seq<Automation>, u: nat, v: nat, s: nat, t: nat, order: seq<Key>, w: nat)
    requires Joined(ch, items, u, v, s, t) && WalksTo(items, order, w) && order[0] == ch.keys[u]
    ensures w == v - u <= |order| && order[..w] == ch.keys[u..v]
  {
    hide Points;
    RunTrail(ch, items, u, v);
    WalkCovers(items, ch.keys[u..v], order, w);
    if w > v - u {
      RunPoints(ch, items, u, v, v - 1, order[v - u]);
    }
  }

  /** ... and the search enters the last run at its end, so its rules are found last first. */
  lemma {:induction false} FoundBackwards(ch: Chain, items: seq<Automation>, u: nat, v: nat, s: nat, t: nat,
                                          listing: seq<Key>, m: nat) returns (c: nat)
    requires Joined(ch, items, u, v, s, t) && Searched(items, listing) && listing[0] == ch.keys[u]
    requires forall k :: k in listing <==> k in JoinedKeys(ch, v, s, u)
    requires 1 <= m <= |listing|
    ensures FoundSuffix(ch, u, v, s, listing[..m], c)
  {
    hide Joined, Searched, JoinedKeys, IsDraft;
    JoinedBounds(ch, items, u, v, s, t);
    if m == 1 {
      c := 0;
      assert listing[..1] == [listing[0]] && ch.keys[u..v][0] == ch.keys[u];
    } else {
      var before := FoundBackwards(ch, items, u, v, s, t, listing, m - 1);
      c := OneMoreFound(ch, items, u, v, s, t, listing, m, before);
    }
  }

  /** Of the rules from place `s` on exactly the last `c` are found. */
  ghost predicate EndFound(keys: seq<Key>, s: nat, found: seq<Key>, c: int) {
    forall i :: s <= i < |keys| ==> (keys[i] in found <==> i >= |keys| - c)
  }

  ghost predicate FoundSuffix(ch: Chain, u: nat, v: nat, s: nat, found: seq<Key>, c: nat) {
    && u <= v <= s <= |ch.keys| && c <= |ch.keys| - s
    && EndFound(ch.keys, s, found, c)
    && Leftover(found, ch.keys[u..v]) == Reversed(ch.keys[|ch.keys| - c..])
  }

  lemma OneMoreFound(ch: Chain, items: seq<Automation>, u: nat, v: nat, s: nat, t: nat,
                     listing: seq<Key>, m: nat, before: nat) returns (c: nat)
    requires Joined(ch, items, u, v, s, t) && Searched(items, listing)
    requires forall k :: k in listing <==> k in JoinedKeys(ch, v, s, u)
    requires 1 < m <= |listing| && FoundSuffix(ch, u, v, s, listing[..m - 1], before)
    ensures FoundSuffix(ch, u, v, s, listing[..m], c)
  {
    hide Joined, JoinedKeys, IsDraft, Grown, NoneOlder, Leftover;
    JoinedBounds(ch, items, u, v, s, t);
    var k := listing[m - 1];
    assert k in listing && k !in listing[..m - 1];
    JoinedMembers(ch, items, u, v, s, t, k);
    var i: nat :| InEither(ch, u, v, s, i) && ch.keys[i] == k;
    if i >= s { NextIsBefore(ch, items, u, v, s, t, listing, m, i, before); }
    assert listing[..m] == listing[..m - 1] + [k];
    c := SuffixGrows(ch, u, v, s, listing[..m - 1], i, before);
  }

  lemma SuffixGrows(ch: Chain, u: nat, v: nat, s: nat, found: seq<Key>, i: nat, before: nat) returns (c: nat)
    requires Distinct(ch.keys) && v <= s && FoundSuffix(ch, u, v, s, found, before)
    requires InEither(ch, u, v, s, i) && (i >= s ==> i == |ch.keys| - before - 1)
    ensures FoundSuffix(ch, u, v, s, found + [ch.keys[i]], c)
  {
    hide Leftover, Reversed, Distinct, EndFound;
    c := if i < v then before else before + 1;
    LeftoverGrows(ch, u, v, s, found, i, before, c);
    OneMoreKey(ch.keys, s, found, i, before, c);
  }

  lemma LeftoverGrows(ch: Chain, u: nat, v: nat, s: nat, found: seq<Key>, i: nat, before: nat, c: nat)
    requires Distinct(ch.keys) && v <= s && FoundSuffix(ch, u, v, s, found, before) && InEither(ch, u, v, s, i)
    requires if i < v then c == before else i == |ch.keys| - before - 1 && c == before + 1
    ensures Leftover(found + [ch.keys[i]], ch.keys[u..v]) == Reversed(ch.keys[|ch.keys| - c..])
  {
    hide Leftover, Reversed, EndFound;
    var run, k := ch.keys[u..v], ch.keys[i];
    LeftoverAppend(found, k, run);
    if i < v {
      assert run[i - u] == k;
    } else {
      assert k !in run by {
        assert forall j :: 0 <= j < |run| ==> run[j] == ch.keys[u + j];
      }
      ReversedTail(ch.keys, i);
    }
  }

  lemma OneMoreKey(keys: seq<Key>, s: nat, found: seq<Key>, i: nat, before: nat, c: nat)
    requires Distinct(keys) && i < |keys| && before <= |keys| - s && s <= |keys|
    requires EndFound(keys, s, found, before)
    requires if i < s then c == before else i == |keys| - before - 1 && c == before + 1
    ensures EndFound(keys, s, found + [keys[i]], c)
  {
    forall j | s <= j < |keys|
      ensures keys[j] in found + [keys[i]] <==> j >= |keys| - c
    {
      assert keys[j] in found + [keys[i]] <==> keys[j] in found || j == i;
    }
  }

  lemma LeftoverAppend(found: seq<Key>, k: Key, seen: seq<Key>)
    ensures Leftover(found + [k], seen) == Leftover(found, seen) + if k in seen then [] else [k]
  {
    FilterAppend(found, [k], (x: Key) => x !in seen);
  }

  lemma ReversedTail(keys: seq<Key>, i: nat)
    requires i < |keys|
    ensures Reversed(keys[i..]) == Reversed(keys[i + 1..]) + [keys[i]]
  {
  }

  /** A rule of the last run is found only after the one behind it. */
  lemma NextIsBefore(ch: Chain, items: seq<Automation>, u: nat, v: nat, s: nat, t: nat, listing: seq<Key>, m: nat,
                     i: nat, c: nat)
    requires Joined(ch, items, u, v, s, t) && Searched(items, listing)
    requires 1 < m <= |listing| && s <= i < |ch.keys| && listing[m - 1] == ch.keys[i] && c <= |ch.keys| - s
    requires EndFound(ch.keys, s, listing[..m - 1], c)
    ensures i == |ch.keys| - c - 1
  {
    hide Scattered, Adjacent, NoneOlder;
    JoinedBounds(ch, items, u, v, s, t);
    assert FoundFrom(items, listing, m - 1);
    var p: nat :| p < m - 1 && Adjacent(items, listing[p], listing[m - 1]);
    AdjacentBothWays(items, listing[p], ch.keys[i]);
    assert Present(ch, items, i);
    var j := AdjacentIsLinked(ch, items, i, listing[p]);
    assert listing[p] in listing[..m - 1];
    assert ch.keys[i] !in listing[..m - 1];
  }

  lemma AdjacentBothWays(items: seq<Automation>, x: Key, y: Key)
    ensures Adjacent(items, x, y) <==> Adjacent(items, y, x)
  {
  }

  /** The order recovered: the run linked back to as written, then the last run backwards. */
  lemma JoinedInsideOrder(ch: Chain, items: seq<Automation>, u: nat, v: nat, s: nat, t: nat, order: seq<Key>)
    requires Joined(ch, items, u, v, s, t) && t > u && ChainOrder(items, order)
    requires forall k :: k in order <==> k in JoinedKeys(ch, v, s, u)
    ensures order == ch.keys[u..v] + Reversed(ch.keys[s..])
  {
    hide Joined, Searched, HasPredecessor, Points, JoinedKeys, IsDraft, Leftover, FirstFree, NoneOlder, ByNonce;
    JoinedBounds(ch, items, u, v, s, t);
    var listing: seq<Key>, w: nat :| OrderOf(items, listing, order, w);
    JoinedInsideStart(ch, items, u, v, s, t, listing);
    FreeFirst(items, listing, order[0]);
    JoinedInsideWalk(ch, items, u, v, s, t, order, w);
    AllFoundBackwards(ch, items, u, v, s, t, listing);
    assert order == order[..w] + order[w..];
  }

  lemma FreeFirst(items: seq<Automation>, listing: seq<Key>, start: Key)
    requires listing != [] && !HasPredecessor(items, listing[0])
    ensures SomeFree(items, listing)
    ensures FirstFree(items, listing, start) ==> start == listing[0]
  {
    hide HasPredecessor;
    assert listing[0] in listing;
  }

  /** At the end of the search all of the last run is found. */
  lemma AllFoundBackwards(ch: Chain, items: seq<Automation>, u: nat, v: nat, s: nat, t: nat, listing: seq<Key>)
    requires Joined(ch, items, u, v, s, t) && Searched(items, listing) && listing != [] && listing[0] == ch.keys[u]
    requires forall k :: k in listing <==> k in JoinedKeys(ch, v, s, u)
    ensures Leftover(listing, ch.keys[u..v]) == Reversed(ch.keys[s..])
  {
    hide Joined, Searched, JoinedKeys, IsDraft, Leftover;
    JoinedBounds(ch, items, u, v, s, t);
    var c := FoundBackwards(ch, items, u, v, s, t, listing, |listing|);
    assert listing[..|listing|] == listing;
    JoinedMembers(ch, items, u, v, s, t, ch.keys[s]);
    assert InEither(ch, u, v, s, s);
    assert ch.keys[s] in listing;
  }

  lemma JoinedBounds(ch: Chain, items: seq<Automation>, u: nat, v: nat, s: nat, t: nat)
    requires Joined(ch, items, u, v, s, t)
    ensures u <= t < v < s < |ch.keys| && IsDraft(ch) && Distinct(ch.keys)
  {
  }

  /** `run` appears in `order` from front to back. */
  ghost predicate KeepsOrder(order: seq<Key>, run: seq<Key>) {
    forall i, j, p, q ::
      0 <= i < j < |run| && 0 <= p < |order| && 0 <= q < |order| && order[p] == run[i] && order[q] == run[j]
      ==> p < q
  }

  /** Exactly when the last run keeps its written order: it has one rule, or
      the back-link leads to the first rule after a gap. */
  lemma LastRunKeepsOrderIff(ch: Chain, items: seq<Automation>, u: nat, v: nat, s: nat, t: nat, order: seq<Key>)
    requires Joined(ch, items, u, v, s, t) && ChainOrder(items, order)
    requires forall k :: k in order <==> k in JoinedKeys(ch, v, s, u)
    ensures KeepsOrder(order, ch.keys[s..]) <==> s == |ch.keys| - 1 || t == u
  {
    hide Joined, ChainOrder, IsDraft;
    JoinedBounds(ch, items, u, v, s, t);
    var run := ch.keys[s..];
    if t == u {
      JoinedAtStartIsLine(ch, items, u, v, s);
      OrderIsLine(items, JoinedKeys(ch, v, s, u), None, order);
      LineDistinct(items, JoinedKeys(ch, v, s, u), None);
      assert order[..|run|] == run;
    } else if s < |ch.keys| - 1 {
      JoinedInsideOrder(ch, items, u, v, s, t, order);
      var last := |run| - 1;
      assert order[v - u] == run[last] && order[v - u + last] == run[0];
    }
  }

  lemma LineDistinct(items: seq<Automation>, keys: seq<Key>, back: Option<nat>)
    requires IsLine(items, keys, back)
    ensures Distinct(keys)
  {
  }

  /** Where rule `i` of the two runs points, as far as listed. */
  function JoinedTarget(ch: Chain, v: nat, t: nat, i: nat): Option<Key>
    requires v <= |ch.keys| && t < |ch.keys| && i < |ch.keys|
  {
    if i == |ch.keys| - 1 then Some(ch.keys[t]) else if i + 1 == v then None else Some(ch.keys[i + 1])
  }

  lemma JoinedTargetIs(ch: Chain, items: seq<Automation>, u: nat, v: nat, s: nat, t: nat, i: nat, y: Key)
    requires Joined(ch, items, u, v, s, t) && InEither(ch, u, v, s, i)
    ensures Points(items, ch.keys[i], y) <==> JoinedTarget(ch, v, t, i) == Some(y)
  {
    hide Points, Scattered;
    if i < v {
      RunPoints(ch, items, u, v, i, y);
    } else {
      RunPoints(ch, items, s, |ch.keys|, i, y);
    }
  }

  lemma JoinedInLayout(ch: Chain, items: seq<Automation>, u: nat, v: nat, s: nat, t: nat, layout: seq<seq<Key>>)
    returns (c: nat)
    requires Joined(ch, items, u, v, s, t) && IsLayout(items, layout)
    ensures c < |layout| && ChainOrder(items, layout[c])
    ensures forall k :: k in layout[c] <==> k in JoinedKeys(ch, v, s, u)
  {
    hide Joined, Adjacent, ChainOrder, IsDraft, Connected, JoinedKeys;
    JoinedBounds(ch, items, u, v, s, t);
    var x, y := ch.keys[t], ch.keys[|ch.keys| - 1];
    JoinedIsComponent(ch, items, u, v, s, t, y);
    assert InEither(ch, u, v, s, |ch.keys| - 1) && InEither(ch, u, v, s, t);
    JoinedMembers(ch, items, u, v, s, t, y);
    PresentInJoined(ch, items, u, v, s, t, t);
    assert Covers(layout, x);
    c :| 0 <= c < |layout| && x in layout[c];
    assert IsChain(items, layout[c]);
    forall k
      ensures k in layout[c] <==> k in JoinedKeys(ch, v, s, u)
    {
      JoinedIsComponent(ch, items, u, v, s, t, k);
    }
  }

  /** Every rule of the two runs is recovered at its place in that order, with its own target. */
  lemma JoinedInsideRecovered(ch: Chain, items: seq<Automation>, u: nat, v: nat, s: nat, t: nat,
                              layout: seq<seq<Key>>, out: seq<Automation>, p: nat, i: nat, n: nat)
    requires Joined(ch, items, u, v, s, t) && t > u && Reconstructed(items, layout, out)
    requires InEither(ch, u, v, s, i) && p == (if i < v then i - u else v - u + (|ch.keys| - 1 - i))
    requires n < |items| && items[n].pubkey == ch.keys[i]
    ensures out[n] == items[n].(link := Some(
              ChainLink(ChainIdOf(ch.keys[u]), p, v - u + |ch.keys| - s, JoinedTarget(ch, v, t, i), p == 0)))
  {
    hide Joined, ChainOrder, Points, IsLayout;
    JoinedBounds(ch, items, u, v, s, t);
    var c := JoinedInLayout(ch, items, u, v, s, t, layout);
    JoinedInsideOrder(ch, items, u, v, s, t, layout[c]);
    assert layout[c][p] == ch.keys[i] && layout[c][0] == ch.keys[u];
    assert RuleDone(items, layout, items[n], out[n]);
    assert Placed(items, layout[c], ch.keys[i], out[n].link);
    assert IsLink(items, layout[c], p, out[n].link.value);
    var link, target := out[n].link.value, JoinedTarget(ch, v, t, i);
    var y := if link.next.Some? then link.next.value else if target.Some? then target.value else ch.keys[0];
    JoinedTargetIs(ch, items, u, v, s, t, i, y);
  }

  /** Five cards, the third closed, the last linked back to the second: 0, 1, 4, 3. */
  lemma FiveCardsOneClosed(ch: Chain, items: seq<Automation>, order: seq<Key>)
    requires Scattered(ch, items) && |ch.keys| == 5 && BackLink(ch.cards) == Some(1)
    requires forall i: nat :: i < 5 ==> (Present(ch, items, i) <==> i != 2)
    requires ChainOrder(items, order) && forall k :: k in order <==> k in ch.keys && k != ch.keys[2]
    ensures order == [ch.keys[0], ch.keys[1], ch.keys[4], ch.keys[3]]
  {
    hide ChainOrder;
    assert forall i: nat :: i < 5 && i != 2 ==> Present(ch, items, i);
    assert IsRun(ch, items, 0, 2) && IsRun(ch, items, 3, 5) && BackLinked(ch, items, 1);
    forall k
      ensures k in order <==> k in JoinedKeys(ch, 2, 3, 0)
    {
      hide IsAccount, Apart, IsRun, BackLinked;
      assert JoinedKeys(ch, 2, 3, 0) == [ch.keys[3], ch.keys[4], ch.keys[0], ch.keys[1]];
      assert ch.keys == [ch.keys[0], ch.keys[1], ch.keys[2], ch.keys[3], ch.keys[4]];
    }
    JoinedInsideOrder(ch, items, 0, 2, 3, 1, order);
    assert ch.keys[0..2] == [ch.keys[0], ch.keys[1]];
    assert Reversed(ch.keys[3..]) == [ch.keys[4], ch.keys[3]];
  }

  lemma RunTrail(ch: Chain, items: seq<Automation>, a: nat, b: nat)
    requires Scattered(ch, items) && IsRun(ch, items, a, b)
    ensures IsTrail(items, ch.keys[a..b]) && Distinct(ch.keys[a..b])
  {
    hide Points;
    var trail := ch.keys[a..b];
    forall p: nat, y | p < |trail| - 1
      ensures Points(items, trail[p], y) <==> trail[p + 1] == y
    {
      RunPoints(ch, items, a, b, a + p, y);
    }
  }

  /** The two runs joined by the back-link are one component. */
  lemma JoinedIsComponent(ch: Chain, items: seq<Automation>, u: nat, v: nat, s: nat, t: nat, y: Key)
    requires Joined(ch, items, u, v, s, t)
    ensures Connected(items, ch.keys[t], y) <==> y in JoinedKeys(ch, v, s, u)
  {
    var all := Elements(JoinedKeys(ch, v, s, u));
    JoinedMembers(ch, items, u, v, s, t, y);
    JoinedMembers(ch, items, u, v, s, t, ch.keys[t]);
    assert InEither(ch, u, v, s, t);
    if Connected(items, ch.keys[t], y) {
      var path: seq<Key> :| IsPath(items, path) && path[0] == ch.keys[t] && path[|path| - 1] == y;
      forall x, z | x in all && Adjacent(items, x, z)
        ensures z in all
      {
        JoinedMembers(ch, items, u, v, s, t, x);
        JoinedMembers(ch, items, u, v, s, t, z);
        var i: nat :| InEither(ch, u, v, s, i) && ch.keys[i] == x;
        JoinedIsClosed(ch, items, u, v, s, t, i, z);
      }
      ClosedContainsPath(items, all, path);
    }
    if i: nat :| InEither(ch, u, v, s, i) && ch.keys[i] == y {
      ReachInRuns(ch, items, u, v, s, t, i);
    }
  }

  lemma RunNeighbours(ch: Chain, items: seq<Automation>, a: nat, b: nat, i: nat)
    requires Scattered(ch, items) && IsRun(ch, items, a, b) && a <= i < b - 1
    ensures Adjacent(items, ch.keys[i], ch.keys[i + 1]) && Adjacent(items, ch.keys[i + 1], ch.keys[i])
  {
    RunPoints(ch, items, a, b, i, ch.keys[i + 1]);
  }

  lemma BackNeighbours(ch: Chain, items: seq<Automation>, t: nat)
    requires Scattered(ch, items) && BackLinked(ch, items, t)
    ensures Adjacent(items, ch.keys[t], ch.keys[|ch.keys| - 1])
  {
    PointersAreLinks(ch, items, |ch.keys| - 1, ch.keys[t]);
    assert Points(items, ch.keys[|ch.keys| - 1], ch.keys[t]);
  }

  lemma {:induction false} ReachInRuns(ch: Chain, items: seq<Automation>, u: nat, v: nat, s: nat, t: nat, i: nat)
    requires Joined(ch, items, u, v, s, t) && InEither(ch, u, v, s, i)
    ensures Connected(items, ch.keys[t], ch.keys[i])
    decreases if i >= s then 0 else 1, if i >= s then |ch.keys| - i else if i > t then i - t else t - i
  {
    hide Adjacent, Connected, Scattered, IsRun, BackLinked;
    if i == t {
      ConnectedSelf(items, ch.keys[t]);
    } else if i == |ch.keys| - 1 {
      BackNeighbours(ch, items, t);
      ConnectedSelf(items, ch.keys[t]);
      ConnectedStep(items, ch.keys[t], ch.keys[t], ch.keys[i]);
    } else if i >= s {
      ReachInRuns(ch, items, u, v, s, t, i + 1);
      RunNeighbours(ch, items, s, |ch.keys|, i);
      ConnectedStep(items, ch.keys[t], ch.keys[i + 1], ch.keys[i]);
    } else if i > t {
      ReachInRuns(ch, items, u, v, s, t, i - 1);
      RunNeighbours(ch, items, u, v, i - 1);
      ConnectedStep(items, ch.keys[t], ch.keys[i - 1], ch.keys[i]);
    } else {
      ReachInRuns(ch, items, u, v, s, t, i + 1);
      RunNeighbours(ch, items, u, v, i);
      ConnectedStep(items, ch.keys[t], ch.keys[i + 1], ch.keys[i]);
    }
  }
}
