/** Which cadence each rule of a chain is created with (src/lib/linked-chains.ts,
    sendChainCreate): the loop's template on the loop, the picked one elsewhere. */
module LoopCadences {
  import opened Common
  import opened AccountState
  import opened Automations
  import opened CycleFinder
  import opened TorchRun

  function LinksOf(cards: seq<Card>): (links: Links)
    ensures |links| == |cards|
  {
    seq(|cards|, i requires 0 <= i < |cards| => cards[i].next)
  }

  /** The cards the loop mode applies to: those on the loop; a lone card is its own loop. */
  method LoopMembers(cards: seq<Card>, mode: Option<LoopMode>) returns (members: set<int>)
    ensures mode.None? ==> members == {}
    ensures mode.Some? && |cards| == 1 ==> members == {0}
    ensures mode.Some? && |cards| != 1 ==> FindsCycle(LinksOf(cards), members)
  {
    if mode.None? {
      members := {};
    } else if |cards| == 1 {
      members := {0};
    } else {
      members := FindCycleNodes(LinksOf(cards));
    }
  }

  /** The cadence card `i` of a forward chain is created with: the loop's on
      the cards from the back-link's target on, the picked one before. */
  function CreatedCadence(cards: seq<Card>, mode: Option<LoopMode>, i: nat): Cadence
    requires i < |cards|
  {
    if mode.Some? && BackLink(cards).Some? && i >= BackLink(cards).value then LoopModeToCadence(mode.value)
      else cards[i].cadence
  }

  /** The loop's cadence on the members, the picked one elsewhere. */
  ghost predicate Overrides(cards: seq<Card>, mode: LoopMode, members: set<int>, cadences: seq<Cadence>) {
    && |cadences| == |cards|
    && forall i :: 0 <= i < |cards| ==>
         cadences[i] == if i in members then LoopModeToCadence(mode) else cards[i].cadence
  }

  /** The created cadences. For any table of links the loop mode reaches exactly
      one loop, if there is one. On a forward chain of two cards or more the loop
      mode reaches exactly the cards from the back-link's target on. */
  method ResolveCadences(cards: seq<Card>, mode: Option<LoopMode>) returns (cadences: seq<Cadence>)
    ensures |cadences| == |cards|
    ensures mode.None? ==> forall i :: 0 <= i < |cards| ==> cadences[i] == cards[i].cadence
    ensures mode.Some? && |cards| == 1 ==> cadences == [LoopModeToCadence(mode.value)]
    ensures mode.Some? && |cards| != 1 ==>
              exists members :: FindsCycle(LinksOf(cards), members) && Overrides(cards, mode.value, members, cadences)
    ensures |cards| >= 2 && ForwardChain(LinksOf(cards)) ==>
              forall i :: 0 <= i < |cards| ==> cadences[i] == CreatedCadence(cards, mode, i)
  {
    hide FindsCycle, ForwardChain, LinksOf, LoopModeToCadence;
    var members := LoopMembers(cards, mode);
    cadences := [];
    for i := 0 to |cards|
      invariant |cadences| == i
      invariant forall j :: 0 <= j < i ==>
                  cadences[j] == if mode.Some? && j in members then LoopModeToCadence(mode.value) else cards[j].cadence
    {
      cadences := cadences + [if mode.Some? && i in members then LoopModeToCadence(mode.value) else cards[i].cadence];
    }
    if mode.Some? && |cards| != 1 {
      assert FindsCycle(LinksOf(cards), members) && Overrides(cards, mode.value, members, cadences);
    }
    if mode.Some? && |cards| >= 2 && ForwardChain(LinksOf(cards)) {
      MembersFromTarget(cards, members);
    }
  }

  lemma MembersFromTarget(cards: seq<Card>, members: set<int>)
    requires |cards| >= 1 && ForwardChain(LinksOf(cards)) && FindsCycle(LinksOf(cards), members)
    ensures forall i :: 0 <= i < |cards| ==> (i in members <==> BackLink(cards).Some? && i >= BackLink(cards).value)
  {
    hide FindsCycle;
    ForwardChainCycle(LinksOf(cards), members);
  }

  /** The ring a forward chain becomes. */
  function RingOf(cards: seq<Card>, mode: Option<LoopMode>): (ring: Ring)
    requires |cards| >= 2
    requires BackLink(cards).Some? ==> BackLink(cards).value >= 0
    ensures |ring.cadences| == |cards|
  {
    Ring(seq(|cards|, i requires 0 <= i < |cards| => CreatedCadence(cards, mode, i)),
         if BackLink(cards).Some? then Some(BackLink(cards).value) else None)
  }

  lemma ForwardBack(cards: seq<Card>)
    requires |cards| >= 1 && ForwardChain(LinksOf(cards))
    ensures BackLink(cards).Some? ==> 0 <= BackLink(cards).value < |cards|
  {
  }

  /** Whatever forward chain is submitted, with or without a loop mode: the
      created rules are a ring the run and display results speak about, its
      loop shares the mode's cadence, and the picked ones stay elsewhere. */
  method CreatedRing(cards: seq<Card>, mode: Option<LoopMode>) returns (ring: Ring)
    requires |cards| >= 2 && ForwardChain(LinksOf(cards))
    requires forall i :: 0 <= i < |cards| ==> ValidCadence(cards[i].cadence)
    requires mode.Some? ==> ValidCadence(LoopModeToCadence(mode.value))
    ensures IsRing(ring) && ring == RingOf(cards, mode)
    ensures forall p: nat :: p < |cards| && (mode.None? || !InLoop(ring, p)) ==> ring.cadences[p] == cards[p].cadence
    ensures mode.Some? ==> LoopShares(ring, mode.value)
    ensures forall p: nat :: mode.Some? && InLoop(ring, p) ==>
              ring.cadences[p] == (match mode.value
                                   case Frequency(cycles) => Repeat(cycles)
                                   case Infinite => Until(4102444800))
  {
    hide FindsCycle, Overrides, LinksOf, ForwardChain;
    ForwardBack(cards);
    var cadences := ResolveCadences(cards, mode);
    ring := Ring(cadences, if BackLink(cards).Some? then Some(BackLink(cards).value) else None);
    assert ring.cadences == RingOf(cards, mode).cadences;
  }
}
