/** From draft to status page: chains are created, run, read back from a flat
    list of accounts and shown. The page groups by chain id, and the id is cut
    from the head's address, so the ids have to differ. */
module ReaderPage {
  import opened Common
  import opened Automations
  import opened ChainGraph
  import opened ChainLinks
  import opened ChainRoundTrip
  import opened ChainGaps
  import opened LoopCadences
  import opened TorchRun
  import opened TorchDisplay
  import opened WaitingPage

  /** Decoded accounts carry no link of their own. */
  ghost predicate Unlinked(items: seq<Automation>) {
    forall n :: 0 <= n < |items| ==> items[n].link.None?
  }

  /** No two recovered chains have heads whose first twelve characters agree. */
  ghost predicate DistinctIds(layout: seq<seq<Key>>) {
    forall c, d :: 0 <= c < d < |layout| && layout[c] != [] && layout[d] != [] ==>
      !SameStart(layout[c][0], layout[d][0])
  }

  /** Where the rules `keys` are listed, and that they are in state `st`. */
  ghost predicate ListedAs(keys: seq<Key>, items: seq<Automation>, st: Torch, at: seq<nat>) {
    && |at| == |keys| == |st.rules|
    && forall i: nat :: i < |at| ==> AccountAs(keys, items, st, at, i)
  }

  ghost predicate AccountAs(keys: seq<Key>, items: seq<Automation>, st: Torch, at: seq<nat>, i: nat)
    requires i < |at| == |keys| == |st.rules|
  {
    && at[i] < |items| && items[at[i]].pubkey == keys[i]
    && items[at[i]].runs == st.rules[i].executions && items[at[i]].terminal == st.rules[i].finished
  }

  lemma OutKeepsKeys(items: seq<Automation>, layout: seq<seq<Key>>, out: seq<Automation>)
    requires DistinctKeys(items) && Reconstructed(items, layout, out)
    ensures |out| == |items| && DistinctKeys(out)
    ensures forall n :: 0 <= n < |items| ==> out[n] == items[n].(link := out[n].link)
  {
    forall n | 0 <= n < |items|
      ensures out[n] == items[n].(link := out[n].link)
    {
      assert RuleDone(items, layout, items[n], out[n]);
    }
  }

  /** Every rule of a recovered chain is shown with its place and counters under the chain's id. */
  lemma RuleShown(items: seq<Automation>, layout: seq<seq<Key>>, out: seq<Automation>, c: nat, st: Torch,
                  at: seq<nat>, p: nat)
    requires DistinctKeys(items) && Reconstructed(items, layout, out) && c < |layout| && layout[c] != []
    requires ListedAs(layout[c], items, st, at) && p < |at|
    ensures at[p] < |out| && ShownAt(out, ChainIdOf(layout[c][0]), st, at, p)
  {
    assert AccountAs(layout[c], items, st, at, p);
    var n := at[p];
    assert RuleDone(items, layout, items[n], out[n]);
    assert Placed(items, layout[c], items[n].pubkey, out[n].link);
    assert IsLink(items, layout[c], p, out[n].link.value);
  }

  /** A rule shown under the chain's id is one of its rules. */
  lemma OnlyItsRules(items: seq<Automation>, layout: seq<seq<Key>>, out: seq<Automation>, c: nat, n: nat)
    requires Reconstructed(items, layout, out) && Unlinked(items) && DistinctIds(layout)
    requires c < |layout| && layout[c] != [] && n < |out| && InChain(out[n], ChainIdOf(layout[c][0]))
    ensures items[n].pubkey in layout[c]
  {
    hide IsLayout, Points;
    assert RuleDone(items, layout, items[n], out[n]);
    assert Covers(layout, items[n].pubkey);
    var d: nat :| d < |layout| && items[n].pubkey in layout[d];
    assert Placed(items, layout[d], items[n].pubkey, out[n].link);
    var p :| 0 <= p < |layout[d]| && layout[d][p] == items[n].pubkey;
    assert IsLink(items, layout[d], p, out[n].link.value);
    SameIdIff(layout[c][0], layout[d][0]);
    SameIdIff(layout[d][0], layout[c][0]);
  }

  /** Whatever order a chain is recovered in, what the reader hands to the page
      is that chain, in that order, in its state. */
  lemma ComponentShown(items: seq<Automation>, layout: seq<seq<Key>>, out: seq<Automation>, c: nat, st: Torch,
                       at: seq<nat>)
    requires DistinctKeys(items) && Reconstructed(items, layout, out) && Unlinked(items) && DistinctIds(layout)
    requires c < |layout| && layout[c] != [] && ListedAs(layout[c], items, st, at)
    ensures Shows(out, ChainIdOf(layout[c][0]), st, at)
  {
    hide Reconstructed, DistinctIds, ShownAt;
    OutKeepsKeys(items, layout, out);
    forall p: nat | p < |at|
      ensures at[p] < |out| && ShownAt(out, ChainIdOf(layout[c][0]), st, at, p)
    {
      RuleShown(items, layout, out, c, st, at, p);
    }
    forall n: nat | n < |out| && InChain(out[n], ChainIdOf(layout[c][0]))
      ensures n in at
    {
      OnlyItsRules(items, layout, out, c, n);
      var p: nat :| p < |layout[c]| && layout[c][p] == items[n].pubkey;
      assert AccountAs(layout[c], items, st, at, p);
      assert at[p] == n;
    }
  }

  /** A chain of which all accounts are listed is shown in its written order. */
  lemma ReaderShows(ch: Chain, items: seq<Automation>, layout: seq<seq<Key>>, out: seq<Automation>, st: Torch,
                    at: seq<nat>)
    requires Intact(ch, items) && Reconstructed(items, layout, out) && Unlinked(items) && DistinctIds(layout)
    requires ListedAs(ch.keys, items, st, at)
    ensures Shows(out, ChainIdOf(ch.keys[0]), st, at)
  {
    hide Intact, Reconstructed, DistinctIds, Shows, ListedAs, IsLine;
    IntactFacts(ch, items);
    ReconstructedLayout(items, layout, out);
    ChainIsLine(ch, items);
    var c := LineInLayout(items, ch.keys, BackLink(ch.cards), layout);
    ComponentShown(items, layout, out, c, st, at);
  }

  lemma IntactFacts(ch: Chain, items: seq<Automation>)
    requires Intact(ch, items)
    ensures DistinctKeys(items) && IsDraft(ch)
  {
  }

  /** End to end: a chain created from a draft with any loop mode, after any
      number of fires, read back with anything else in any order: with distinct
      ids the page names its holder exactly when its counters do. */
  lemma ReaderNamesHolder(ch: Chain, mode: Option<LoopMode>, k: nat, items: seq<Automation>, layout: seq<seq<Key>>,
                          out: seq<Automation>, at: seq<nat>, waiting: set<Key>)
    requires Intact(ch, items) && Reconstructed(items, layout, out) && Unlinked(items) && DistinctIds(layout)
    requires ListedAs(ch.keys, items, After(RingOf(ch.cards, mode), k), at) && MarksWaiting(out, waiting)
    ensures NamesHolder(After(RingOf(ch.cards, mode), k), out, at, waiting) <==>
            DisplayRight(After(RingOf(ch.cards, mode), k))
  {
    hide Intact, Shows, NamesHolder, DisplayRight, MarksWaiting;
    IntactFacts(ch, items);
    var st := After(RingOf(ch.cards, mode), k);
    ReaderShows(ch, items, layout, out, st, at);
    NamesHolderIff(out, ChainIdOf(ch.keys[0]), st, at, waiting);
  }

  /** ... so a chain that is reportable is always reported correctly. */
  lemma ReportableIsNamed(ch: Chain, mode: Option<LoopMode>, k: nat, items: seq<Automation>, layout: seq<seq<Key>>,
                          out: seq<Automation>, at: seq<nat>, waiting: set<Key>)
    requires Intact(ch, items) && Reconstructed(items, layout, out) && Unlinked(items) && DistinctIds(layout)
    requires ListedAs(ch.keys, items, After(RingOf(ch.cards, mode), k), at) && MarksWaiting(out, waiting)
    requires IsRing(RingOf(ch.cards, mode)) && Reportable(RingOf(ch.cards, mode))
    ensures NamesHolder(After(RingOf(ch.cards, mode), k), out, at, waiting)
  {
    ReportableIsRight(RingOf(ch.cards, mode), k);
    ReaderNamesHolder(ch, mode, k, items, layout, out, at, waiting);
  }

  // ---- colliding ids ------------------------------------------------------------------

  /** A live rule of a recovered chain has its place in the group shown under the id. */
  lemma LiveInGroup(items: seq<Automation>, layout: seq<seq<Key>>, out: seq<Automation>, c: nat, st: Torch,
                    at: seq<nat>, p: nat)
    returns (i: nat)
    requires DistinctKeys(items) && Reconstructed(items, layout, out) && c < |layout| && layout[c] != []
    requires ListedAs(layout[c], items, st, at) && Live(st, p)
    ensures p < |at| && at[p] < |out| && out[at[p]].pubkey == layout[c][p]
    ensures var live := LiveOrder(out, ChainIdOf(layout[c][0])); i < |live| && live[i].pubkey == layout[c][p]
  {
    var id := ChainIdOf(layout[c][0]);
    RuleShown(items, layout, out, c, st, at, p);
    OutKeepsKeys(items, layout, out);
    assert AccountAs(layout[c], items, st, at, p);
    var a := out[at[p]];
    assert a in out;
    assert a in Group(out, id);
    assert a in LiveOrder(out, id);
    i :| 0 <= i < |LiveOrder(out, id)| && LiveOrder(out, id)[i] == a;
  }

  /** Two chains with one id: of any two live rules, one of each, at least one
      is marked as waiting, so the page cannot name both holders. */
  lemma CollisionHidesHolder(items: seq<Automation>, layout: seq<seq<Key>>, out: seq<Automation>, waiting: set<Key>,
                             c: nat, sc: Torch, atc: seq<nat>, p: nat, d: nat, sd: Torch, atd: seq<nat>, q: nat)
    requires DistinctKeys(items) && Reconstructed(items, layout, out) && MarksWaiting(out, waiting)
    requires c < |layout| && layout[c] != [] && ListedAs(layout[c], items, sc, atc) && Live(sc, p)
    requires d < |layout| && layout[d] != [] && ListedAs(layout[d], items, sd, atd) && Live(sd, q)
    requires c != d && SameStart(layout[c][0], layout[d][0])
    ensures p < |layout[c]| && q < |layout[d]| && (layout[c][p] in waiting || layout[d][q] in waiting)
  {
    hide Reconstructed, LiveOrder, IsTorchIndex, IsLayout;
    SameIdIff(layout[c][0], layout[d][0]);
    var id := ChainIdOf(layout[c][0]);
    var live := LiveOrder(out, id);
    var i := LiveInGroup(items, layout, out, c, sc, atc, p);
    var j := LiveInGroup(items, layout, out, d, sd, atd, q);
    ReconstructedLayout(items, layout, out);
    DisjointRules(items, layout, c, d, p, q);
    if IsTorchIndex(live, i) && IsTorchIndex(live, j) { TorchIndexUnique(live, i, j); }
    if !IsTorchIndex(live, i) {
      assert WaitsIn(out, id, layout[c][p]);
    } else {
      assert WaitsIn(out, id, layout[d][q]);
    }
  }

  lemma DisjointRules(items: seq<Automation>, layout: seq<seq<Key>>, c: nat, d: nat, p: nat, q: nat)
    requires IsLayout(items, layout) && c < |layout| && d < |layout| && c != d && p < |layout[c]| && q < |layout[d]|
    ensures layout[c][p] != layout[d][q]
  {
    assert layout[c][p] in layout[c] && layout[d][q] in layout[d];
  }

  // ---- chains with gaps -----------------------------------------------------------------

  /** A run of listed rules on its own is shown as a chain of its own, in its own state. */
  lemma RunShown(ch: Chain, items: seq<Automation>, a: nat, b: nat, layout: seq<seq<Key>>, out: seq<Automation>,
                 st: Torch, at: seq<nat>)
    requires Scattered(ch, items) && IsRun(ch, items, a, b) && OnItsOwn(ch, items, a, b) && b - a >= 2
    requires Reconstructed(items, layout, out) && Unlinked(items) && DistinctIds(layout)
    requires ListedAs(ch.keys[a..b], items, st, at)
    ensures Shows(out, ChainIdOf(ch.keys[a]), st, at)
  {
    hide Reconstructed, DistinctIds, Shows, ListedAs, IsLine, IsRun, OnItsOwn;
    RunInside(ch, items, a, b);
    ReconstructedLayout(items, layout, out);
    RunIsLine(ch, items, a, b);
    var c := LineInLayout(items, ch.keys[a..b], RunBack(ch, items, a, b), layout);
    ComponentShown(items, layout, out, c, st, at);
  }

  /** A last run recovered backwards is shown backwards. While a lap is under
      way in which the run before it has fired and none of it has, the page
      takes its last rule for the holder and marks the first, which holds the
      funds, as waiting. */
  lemma ReversedRunMisleads(ch: Chain, items: seq<Automation>, u: nat, v: nat, s: nat, t: nat, layout: seq<seq<Key>>,
                            out: seq<Automation>, waiting: set<Key>, st: Torch, at: seq<nat>, laps: nat)
    requires Joined(ch, items, u, v, s, t) && t > u && s < |ch.keys| - 1
    requires Reconstructed(items, layout, out) && Unlinked(items) && DistinctIds(layout) && MarksWaiting(out, waiting)
    requires ListedAs(ch.keys[u..v] + Reversed(ch.keys[s..]), items, st, at)
    requires forall p: nat :: p < v - u && Live(st, p) ==> st.rules[p].executions == laps + 1
    requires forall p: nat :: v - u <= p < |st.rules| ==> Live(st, p) && st.rules[p].executions == laps
    ensures ch.keys[s] in waiting && ch.keys[|ch.keys| - 1] !in waiting
  {
    hide Joined, Reconstructed, DistinctIds, Shows, MarksWaiting, ChainOrder, IsLayout, ShowsTorch;
    JoinedBounds(ch, items, u, v, s, t);
    ReconstructedLayout(items, layout, out);
    var order := ch.keys[u..v] + Reversed(ch.keys[s..]);
    var c := JoinedInLayout(ch, items, u, v, s, t, layout);
    JoinedInsideOrder(ch, items, u, v, s, t, layout[c]);
    JoinedItems(ch, items, u, v, s, t);
    ComponentShown(items, layout, out, c, st, at);
    var first, last := |st.rules| - 1, v - u;
    assert order[first] == ch.keys[s] && order[last] == ch.keys[|ch.keys| - 1];
    TwoLevelsShow(st, last, laps + 1, laps);
    if ShowsTorch(st, first) { ShowsOne(st, first, last); }
    WaitingShows(out, ChainIdOf(order[0]), st, at, waiting, first);
    WaitingShows(out, ChainIdOf(order[0]), st, at, waiting, last);
    assert TwoLive(st);
    assert AccountAs(order, items, st, at, first) && AccountAs(order, items, st, at, last);
    OutKeepsKeys(items, layout, out);
  }

  lemma JoinedItems(ch: Chain, items: seq<Automation>, u: nat, v: nat, s: nat, t: nat)
    requires Joined(ch, items, u, v, s, t)
    ensures DistinctKeys(items)
  {
  }

  // ---- all chains of an owner ------------------------------------------------------------

  /** A rule adjacent to none but itself. */
  ghost predicate Alone(items: seq<Automation>, k: Key) {
    forall y :: Adjacent(items, k, y) ==> y == k
  }

  /** The list holds whole chains and rules that stand alone. */
  ghost predicate OnlyChains(chains: seq<Chain>, items: seq<Automation>) {
    Presents(chains, items) && forall n: nat :: n < |items| ==>
      Member(chains, items[n].pubkey) || Alone(items, items[n].pubkey)
  }

  ghost predicate HeadIdsDistinct(chains: seq<Chain>) {
    forall c, d :: 0 <= c < d < |chains| && chains[c].keys != [] && chains[d].keys != [] ==>
      !SameStart(chains[c].keys[0], chains[d].keys[0])
  }

  lemma AloneMeansAlone(items: seq<Automation>, k: Key, y: Key)
    requires Alone(items, k) && Connected(items, k, y)
    ensures y == k
  {
    var path: seq<Key> :| IsPath(items, path) && path[0] == k && path[|path| - 1] == y;
    ClosedContainsPath(items, {k}, path);
  }

  /** Every chain recovered is one that was written. */
  lemma LayoutIsWritten(chains: seq<Chain>, items: seq<Automation>, layout: seq<seq<Key>>, d: nat) returns (c: nat)
    requires OnlyChains(chains, items) && IsLayout(items, layout) && d < |layout|
    ensures c < |chains| && layout[d] == chains[c].keys
  {
    assert IsChain(items, layout[d]);
    var x, y := layout[d][0], layout[d][1];
    assert x in layout[d] && y in layout[d] && Connected(items, x, y);
    AdjacentToSome(items, x, y);
    var n := ItemOf(items, x);
    if Alone(items, x) { AloneMeansAlone(items, x, y); }
    c :| 0 <= c < |chains| && x in chains[c].keys;
    PresentedIsIntact(chains, items, c);
    ChainIsLine(chains[c], items);
    var e := LineInLayout(items, chains[c].keys, BackLink(chains[c].cards), layout);
    assert e == d;
  }

  lemma AdjacentToSome(items: seq<Automation>, x: Key, y: Key)
    requires Connected(items, x, y) && x != y
    ensures x in Keys(items)
  {
    var path: seq<Key> :| IsPath(items, path) && path[0] == x && path[|path| - 1] == y;
    assert Adjacent(items, path[0], path[0 + 1]);
    AdjacentAreKeys(items, x, path[1]);
  }

  lemma HeadsDecideIds(chains: seq<Chain>, items: seq<Automation>, layout: seq<seq<Key>>)
    requires OnlyChains(chains, items) && IsLayout(items, layout) && HeadIdsDistinct(chains)
    ensures DistinctIds(layout)
  {
    hide OnlyChains, IsLayout;
    forall d, e | 0 <= d < e < |layout| && layout[d] != [] && layout[e] != []
      ensures !SameStart(layout[d][0], layout[e][0])
    {
      var a := LayoutIsWritten(chains, items, layout, d);
      var b := LayoutIsWritten(chains, items, layout, e);
      LayoutDisjoint(items, layout, d, e);
    }
  }

  lemma LayoutDisjoint(items: seq<Automation>, layout: seq<seq<Key>>, d: nat, e: nat)
    requires IsLayout(items, layout) && d < e < |layout|
    ensures layout[d] != [] ==> layout[d] != layout[e]
  {
    if layout[d] != [] { assert layout[d][0] in layout[d]; }
  }

  /** The state of every chain, where its rules are listed, and its live holder. */
  datatype Shown = Shown(mode: Option<LoopMode>, fires: nat, at: seq<nat>)

  ghost predicate AllShown(chains: seq<Chain>, items: seq<Automation>, shown: seq<Shown>) {
    && |shown| == |chains|
    && forall c: nat :: c < |chains| ==> IsDraft(chains[c]) && ShownRight(chains[c], items, shown[c])
  }

  ghost function StateOf(ch: Chain, s: Shown): Torch
    requires IsDraft(ch)
  {
    After(RingOf(ch.cards, s.mode), s.fires)
  }

  /** Two live rules or more, a live holder, and counters that show it. */
  ghost predicate ShownRight(ch: Chain, items: seq<Automation>, s: Shown)
    requires IsDraft(ch)
  {
    var st := StateOf(ch, s);
    ListedAs(ch.keys, items, st, s.at) && DisplayRight(st) && TwoLive(st) && st.holder.Some? &&
      Live(st, st.holder.value)
  }

  /** Exactly when the page names the holder of every chain at once: iff no two
      heads' addresses agree on their first twelve characters. */
  lemma AllNamedIff(chains: seq<Chain>, items: seq<Automation>, shown: seq<Shown>, layout: seq<seq<Key>>,
                    out: seq<Automation>, waiting: set<Key>)
    requires OnlyChains(chains, items) && Unlinked(items) && AllShown(chains, items, shown)
    requires Reconstructed(items, layout, out) && MarksWaiting(out, waiting)
    ensures HeadIdsDistinct(chains) <==> forall c: nat :: c < |chains| ==> HolderNamed(chains[c], shown[c], waiting)
  {
    hide Intact, Reconstructed, MarksWaiting, DisplayRight, DistinctIds, Listed, Loose, ListedAs, Alone, IsLayout;
    assert IsLayout(items, layout) by { ReconstructedLayout(items, layout, out); }
    if HeadIdsDistinct(chains) {
      HeadsDecideIds(chains, items, layout);
      forall c: nat | c < |chains|
        ensures HolderNamed(chains[c], shown[c], waiting)
      {
        PresentedIsIntact(chains, items, c);
        OneNamed(chains[c], items, shown[c], layout, out, waiting);
      }
    } else {
      var c: nat, d: nat :| c < d < |chains| && chains[c].keys != [] && chains[d].keys != [] &&
        SameStart(chains[c].keys[0], chains[d].keys[0]);
      PresentedIsIntact(chains, items, c);
      PresentedIsIntact(chains, items, d);
      assert IsDraft(chains[c]) && ShownRight(chains[c], items, shown[c]);
      assert IsDraft(chains[d]) && ShownRight(chains[d], items, shown[d]);
      var sc, sd := StateOf(chains[c], shown[c]), StateOf(chains[d], shown[d]);
      var x := ChainPlace(chains[c], items, layout);
      var y := ChainPlace(chains[d], items, layout);
      assert chains[c].keys[0] in chains[c].keys;
      CollisionHidesHolder(items, layout, out, waiting, x, sc, shown[c].at, sc.holder.value, y, sd, shown[d].at,
                           sd.holder.value);
    }
  }

  lemma ChainPlace(ch: Chain, items: seq<Automation>, layout: seq<seq<Key>>) returns (c: nat)
    requires Intact(ch, items) && IsLayout(items, layout)
    ensures c < |layout| && layout[c] == ch.keys
  {
    ChainIsLine(ch, items);
    c := LineInLayout(items, ch.keys, BackLink(ch.cards), layout);
  }

  lemma ReconstructedLayout(items: seq<Automation>, layout: seq<seq<Key>>, out: seq<Automation>)
    requires Reconstructed(items, layout, out)
    ensures IsLayout(items, layout)
  {
  }

  /** The holder's rule is not marked as waiting. */
  ghost predicate HolderNamed(ch: Chain, s: Shown, waiting: set<Key>) {
    IsDraft(ch) ==>
      var h := StateOf(ch, s).holder;
      h.Some? && h.value < |ch.keys| && ch.keys[h.value] !in waiting
  }

  lemma OneNamed(ch: Chain, items: seq<Automation>, s: Shown, layout: seq<seq<Key>>, out: seq<Automation>,
                 waiting: set<Key>)
    requires Intact(ch, items) && Reconstructed(items, layout, out) && Unlinked(items) && DistinctIds(layout)
    requires IsDraft(ch) && ShownRight(ch, items, s) && MarksWaiting(out, waiting)
    ensures HolderNamed(ch, s, waiting)
  {
    hide Intact, DistinctIds, MarksWaiting, DisplayRight;
    var st := StateOf(ch, s);
    ReaderNamesHolder(ch, s.mode, s.fires, items, layout, out, s.at, waiting);
    IntactFacts(ch, items);
    ReconstructedLayout(items, layout, out);
    var c := ChainPlace(ch, items, layout);
    var i := LiveInGroup(items, layout, out, c, st, s.at, st.holder.value);
  }
}
