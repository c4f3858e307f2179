# Sotama: a verified model

Sotama runs user rules of the form "when this price, time or account condition
holds, swap". A front end (TypeScript) writes chains of rules to accounts and
reads them back; a keeper (Rust) indexes the accounts, watches for their
triggers and sends the swaps; an on-chain program checks and executes them.
This project models the parts of that system whose correctness spans several
functions and proves what each is for:

* **Chains** (`CycleFinder`, `LoopCadences`, `Automations`, `ChainGraph`,
  `ChainLinks`, `ChainRoundTrip`, `ChainGaps`): which cards of a draft lie on a
  loop, which cadence each rule gets, and the recovery of chains from a flat, arbitrarily
  ordered list of accounts. What the writer stored for every rule is what the
  reader recovers. When accounts are missing each run of rules between gaps is
  recovered on its own, unless the back-link joins the last run to another: then
  the last run comes back in front, or backwards and behind. For any list
  whatever the groups found are the connected components of the neighbour
  relation, each numbered without gap or repeat.
* **The torch** (`TorchRun`, `TorchDisplay`, `WaitingPage`, `ReaderPage`,
  `MergePage`): a chain of any cadences as a token ring. The closed form of every
  reachable state, the exact number of fires before it stops, exactly which chains
  the strategies page reports correctly from run counters alone, and the whole
  path from draft to page, chains with missing accounts and the merge with records
  saved in the browser included.
* **The keeper's index** (`Indexer`, `IndexRebuild`, `ArmedChain`, `Subscriptions`,
  `Subscriber`): four redundant indexes and a copied cross-rule flag. After any
  sequence of events they are what a rebuild would give; equal fingerprints mean
  equal account and price subscriptions, while the vaults watched for bridging are
  outside the fingerprint; one notification emits each wanted rule exactly once.
  Along a chain the armed flag follows the funds for as long as no rule is finished.
* **The executor** (`Executor`, `ExecutorProtocol`): the deduplication state as
  a class, its window refined to the list of all claims, safety of any
  interleaving of event tasks, and exactly when a claim is granted. The loop of one
  event task is proved to take steps of that protocol and to send exactly the rules
  that are free when their turn comes.
* **Price comparison** (`PriceCompare`, `PriceExactness`, `InvertedFeed`):
  128-bit saturating and wrapping comparisons against exact real arithmetic,
  with the exact exponent ranges in which they are right, and the front end's
  encoding of conditions on an inverse feed.
* **Encodings** (`AccountState`, `AccountLayout`, `SwapInstruction`): the Borsh
  layout of an automation account (Borsh specification, section "Specification"),
  also field by field, and the relayed swap, both against their decoders in both
  directions.
* **Loops over the network** (`History`, `HistoryFate`, `LookupTable`): the
  execution history with its cursor, when it catches up and what it loses for
  good, and the batched lookup-table cache, under arbitrary failures.

Objects that the source updates in place are classes (`Indexer.WatchedSet`,
`Executor.Dedupe`, `LookupTable.LookupTableCache`); their methods are tied to
functions on an abstract value, about which the lemmas speak. `compute_armed`
fills an array in place. The other loops of the source are methods with
invariants. Answers of the network, the outcome of a send, clocks and address
derivation are parameters, so every result holds for all of them.

Some properties one would expect turn out to hold only under a condition. Each
is then proved with the exact condition, in both directions:

* The strategies page names the true holder in every reachable state, with no
  bound on their number, exactly for the chains of `TorchDisplay.Reportable`.
  For a loop created with a loop mode that is: no rule outside the loop outlives
  its first fire, or one does and the loop goes round once, and the loop is not
  an endless one of two rules or more (`TorchDisplay.ModeRightIffSettled`).
  Endless loops fail only once their u32 counters are full, after at least
  2^33 - 1 fires. The source gives such loops a deadline on 1 January 2100,
  which the run results leave out: to fill its counters first, a loop would have
  to fire more than three times a second until then.
* On that page two chains are kept apart by the first twelve characters of their
  heads' addresses; all holders are named at once exactly when these differ
  (`ReaderPage.AllNamedIff`).
* A last run whose back-link joins it to an earlier run keeps its written order
  exactly when it has one rule or the back-link leads to the first rule after a
  gap (`ChainGaps.LastRunKeepsOrderIff`); otherwise it comes back reversed, and
  the page then misplaces the holder (`ReaderPage.ReversedRunMisleads`).
* `ratio_compare` is exact for all mantissas exactly at the exponent shifts of
  `PriceExactness.ShiftSafe` (the shift is cut to u32), and for a negative quote
  answers the opposite comparison. The single-feed comparison is exact for all
  mantissas exactly up to an exponent gap of 19 digits, and for what the front
  end can write exactly from 22 below to 19 above.
* A reconcile gives the rebuild of the scan exactly when the fingerprints differ
  or nothing but flags has changed (`IndexRebuild.ReconcileIsRebuildIff`).
* A comment in the source arms a rule that consumes its upstream's output once an
  upstream has fired. Finished rules are no longer in the set, though, so the rule
  is armed only while an upstream that has fired is not finished
  (`ArmedChain.ArmedIffDelivered`). The rule whose turn it is, is armed in every
  reachable state of a chain without a loop exactly when none that consumes follows
  one that finishes with its first fire; with a loop mode this holds up to the
  loop's first rule, and for a number of cycles no later rule of the loop may
  consume (`ArmedChain.ArmedInTimeIff`, `ArmedChain.ModeArmedInTimeIff`).
* Equal fingerprint rows mean equal subscriptions exactly when both rules use
  the all-zero key or neither does, or the zero mint adds no watch key
  (`Subscriptions.RowDecides`, `Subscriptions.FingerprintSoundIff`).
* Sets with equal fingerprints watch the same vaults exactly when every rule asks
  for the same ones (`Subscriptions.FingerprintHidesVaults`); a changed bridge flag
  is such a change the fingerprint hides (`Subscriptions.BridgeFlagIsMissed`).
* A history refresh keeps completeness up to its cursor exactly when the cursor
  stays or nothing unrecorded was cut off by the page limit. A refresh of a
  terminal automation loses part of its history for good exactly when it misses
  an unrecorded transaction and brings in an execution (`HistoryFate.TickLosesIff`),
  although a comment in the source promises to walk the page again.
* A relayed swap decodes to the original exactly when both lengths fit in u32.

Where comments in the source and its code disagree, the model follows the code:
`findCycleNodes` is documented for forward-linked chains only, but is called and
modelled for any table; the comment on the page's status claims it right for
all loops; `AutomationWorkspace.tsx` takes a loop mode to override every rule's
cadence, while `sendChainCreate` overrides only the rules on the loop; and the
keeper's README describes a revalidation between the matches of one event that
`process_event` does not perform.

`dafny verify dfyconfig.toml` checks the whole project.

## Model

| member | source | states |
|---|---|---|
| `CycleFinder.FindCycleNodes` | src/lib/linked-chains.ts:212-241 | For any table of links, out-of-range targets included: the answer is empty iff no card comes back to itself; otherwise it is one closed orbit, the one the smallest possible start runs into |
| `CycleFinder.Walk` | src/lib/linked-chains.ts:223-230 | One walk ends on every table: the cards listed are the successive hops from the start, and it stops only without a next card or on a card already listed |
| `CycleFinder.TailIsOrbit` | src/lib/linked-chains.ts:230-236 | The cards from the first repeated one on are closed under links and all reach each other |
| `CycleFinder.DeadStartMeetsNoCycle` | src/lib/linked-chains.ts:223-239 | A walk that runs out of links touches no loop at all, so moving on to the next start loses nothing |
| `CycleFinder.OrbitIsReachableSet` | src/lib/linked-chains.ts:207-211 | An orbit is exactly what any of its members reaches, so the loop found is determined by any one member |
| `CycleFinder.ForwardChainCycle` | src/lib/linked-chains.ts:207-241 | For cards linked each to the next with an optional back-link from the last to t, the finder's answer is exactly t..n-1, and empty without a back-link |
| `LoopCadences.LoopMembers` | src/lib/linked-chains.ts:542-551 | Without a loop mode nothing is on the loop; a lone card is its own loop; otherwise the finder decides |
| `LoopCadences.ResolveCadences` | src/lib/linked-chains.ts:755-764 | Without a loop mode every card keeps its picked cadence; with one, for any table of links, the loop's goes to exactly the cards of one loop, if there is one, and to none otherwise; on a forward chain to exactly the cards from the back-link's target on |
| `LoopCadences.CreatedRing` | src/lib/linked-chains.ts:542-551 | Whatever forward chain of two or more is submitted, with or without a loop mode, becomes a ring the run results speak about: picked cadences outside the loop and without a mode; on the loop with one, a repeat of its cycles or the deadline of 1 January 2100 |
| `ChainGraph.BuildGraph` | src/lib/on-chain-automations.ts:448-479 | The next, previous and neighbour maps say exactly who points at whom among the listed rules; the next and previous ones are also stated in the records' fields |
| `ChainGraph.AdjacentMeans` | src/lib/on-chain-automations.ts:448-479 | Two rules are neighbours iff one names the other: as its downstream, or as its reference if nothing listed up to it names it as a downstream |
| `ChainGraph.NbrGrows` | src/lib/on-chain-automations.ts:464-479 | One item adds to the symmetric neighbour relation exactly its own forward link and, under the code's guard, its reference |
| `ChainLinks.Component` | src/lib/on-chain-automations.ts:490-504 | The stack search ends and lists exactly the rules connected to its start, each once, and visits nothing else; the start is listed first and each later rule after one adjacent to it |
| `ChainLinks.PickStart` | src/lib/on-chain-automations.ts:507-513 | The start is the first rule listed without a predecessor, and if every rule of the group has one, a rule of the smallest nonce |
| `ChainLinks.StartsAtOldest` | src/lib/on-chain-automations.ts:484-492 | Since ids are taken in nonce order, each component is searched from its oldest rule, which therefore starts the order whenever it has no predecessor |
| `ChainLinks.WalkOrder` | src/lib/on-chain-automations.ts:515-525 | The order follows the pointers from the start as far as they lead to rules not yet listed, then the rules left over as the search listed them, each rule once |
| `ChainLinks.LinkComponent` | src/lib/on-chain-automations.ts:505-545 | A group of one is left alone; a larger one gets its links and disturbs no group handled before |
| `ChainLinks.ReconstructChainLinks` | src/lib/on-chain-automations.ts:441-547 | For any list of distinct accounts the result is a reconstruction: disjoint chains, each a whole component in chain order (a search listing from its oldest rule, the walk from the first rule listed without a predecessor, then the rest as listed), each rule's link its place and pointer in it, all else unchanged |
| `ChainLinks.GeneralReconstruction` | src/lib/on-chain-automations.ts:441-547 | For every list: length, order and everything but links are kept; a rule connected to no other comes back as it was; every other rule's component carries the positions 0..total-1 each exactly once, one head, one chain id |
| `ChainLinks.SameIdMeans` | src/lib/on-chain-automations.ts:527-528 | Two rules of different chains carry the same chain id iff their heads' addresses agree on their first twelve characters |
| `ChainLinks.ComponentIsClass` | src/lib/on-chain-automations.ts:490-504 | Seen from any of its members, a group is the connected component of that member |
| `ChainRoundTrip.RoundTrip` | src/lib/on-chain-automations.ts:441-547 | Any order, any other rules that do not refer to the chain: each rule of a written chain of two or more gets back the position, total, head flag and target written for it, full loops included |
| `ChainRoundTrip.RecoveredMeans` | src/lib/on-chain-automations.ts:529-543 | What comes back in fields: the rule's place, the chain's length, head flag for the first rule only, target the next rule or the one linked back to |
| `ChainRoundTrip.AccountMeans` | src/lib/linked-chains.ts:583-602 | What is written in fields: consecutive nonces, the next rule or the one linked back to as downstream, the rule before as reference of a relative trigger |
| `ChainRoundTrip.WorldRoundTrip` | src/components/AutomationWorkspace.tsx:224-243 | The same for any number of chains without a common rule at once |
| `ChainRoundTrip.PointersAreLinks` | src/lib/linked-chains.ts:601-602 | The pointers among the accounts listed are exactly the links of the draft whose both ends are listed |
| `ChainRoundTrip.ChainIsLine` | src/lib/linked-chains.ts:583-602 | A written chain of which all accounts are listed is a line: each rule points exactly at the next, the last back or nowhere, none is adjacent to a rule outside, and the head of a full loop is its oldest |
| `ChainRoundTrip.LineIsComponent` | src/lib/on-chain-automations.ts:490-504 | A line is exactly one connected component of the list |
| `ChainRoundTrip.Predecessors` | src/lib/on-chain-automations.ts:507-513 | Only the first rule of a line can lack a predecessor, and it has one iff the last links back to it |
| `ChainRoundTrip.OrderIsLine` | src/lib/on-chain-automations.ts:515-525 | Any chain order of a line's rules is the line itself |
| `ChainRoundTrip.LineRecovered` | src/lib/on-chain-automations.ts:526-545 | Every rule of a line is recovered with its place, length, head flag and target in it, whatever else is listed and in any order |
| `ChainGaps.RunRecovered` | src/lib/on-chain-automations.ts:441-547 | With accounts missing, a run of two or more rules between gaps is recovered as a chain of its own: positions from 0, its own length and head, no target beyond the gap |
| `ChainGaps.LoneRuleUntouched` | src/lib/on-chain-automations.ts:505 | A rule between two gaps comes back as it was |
| `ChainGaps.JoinedAtStartRecovered` | src/lib/on-chain-automations.ts:507-545 | A last run whose back-link leads to the first rule after a gap is recovered as one chain: the last run, then the run linked back to |
| `ChainGaps.JoinedIsComponent` | src/lib/on-chain-automations.ts:490-504 | A last run and the run its back-link leads into are exactly one component |
| `ChainGaps.JoinedInsideOrder` | src/lib/on-chain-automations.ts:507-525 | When the back-link leads further in, the order is the run linked back to as written and then the last run reversed, whatever the list order |
| `ChainGaps.JoinedInsideRecovered` | src/lib/on-chain-automations.ts:526-545 | Every rule of the two runs gets its place in that order, the joint length, the head at the start of the run linked back to, and its own target |
| `ChainGaps.LastRunKeepsOrderIff` | src/lib/on-chain-automations.ts:507-525 | The rules of a joined last run come back in written order iff it has one rule or the back-link leads to the first rule after a gap |
| `ChainGaps.FiveCardsOneClosed` | src/lib/on-chain-automations.ts:507-525 | Witness: of five cards the third is closed and the last links back to the second; the order recovered is first, second, fifth, fourth |
| `TorchRun.AfterWarmUps` | programs/sotama_automations/src/state.rs:516-552 | After k fires of the first pass exactly the first k rules have fired once and rule k holds the torch |
| `TorchRun.AfterCycles` | programs/sotama_automations/src/state.rs:516-552 | For loops of any cadences: as long as every fire was allowed, after t + c*(n-t) + r fires the torch is at t + r, loop rules before it have run c + 1 times and the others c, and every counter and finished flag follows from that |
| `TorchRun.FinishedMeans` | programs/sotama_automations/src/state.rs:532-552 | In every reachable state a rule is finished iff it fires once and has, or repeats and has that many times; never with a deadline |
| `TorchRun.StopsExactly` | programs/sotama_automations/src/state.rs:532-552 | Without a loop a chain can still fire after k fires iff k < n; with one iff k lies before every loop rule's stop time t + cap*(n-t) + (p-t), for any cadences on the loop |
| `TorchRun.AtTheStop` | programs/sotama_automations/src/state.rs:516-518 | At the first stop time the funds rest on the rule whose cap is used up, and the whole state is known |
| `TorchRun.ModeGoes` | src/lib/linked-chains.ts:269-274 | A loop with a loop mode goes on iff k < t + C*(n-t) for C cycles, and for ever without a number of cycles |
| `TorchDisplay.FirstPassRight` | src/components/ActiveStrategiesPage.tsx:291-320 | In the first pass the rule singled out is the holder, whatever the cadences |
| `TorchDisplay.RunningRightIff` | src/components/ActiveStrategiesPage.tsx:302-311 | While the loop runs, state by state: the page is right iff it is the first lap or nothing lingers outside the loop, and, once the u32 counters are full, only at the start of a lap |
| `TorchDisplay.StoppedRightIff` | src/components/ActiveStrategiesPage.tsx:307-311 | Once the loop has stopped the page is right iff at most one rule is still alive |
| `TorchDisplay.DisplayRightIffReportable` | src/components/ActiveStrategiesPage.tsx:291-350 | For every chain of any cadences, over all reachable states without bound: the page is right in each iff (no loop) at most one rule outlives its fire, or (loop) no warm-up outlives its fire unless the loop stops right after its first lap, at most one rule is alive at the stop, and the counters never fill up |
| `TorchDisplay.ModeRightIffSettled` | src/lib/linked-chains.ts:755-764 | For a loop with a loop mode: right in every reachable state iff no warm-up outlives its fire, or one does and the loop runs once; and it is not an endless loop of two rules or more |
| `TorchDisplay.LingeringWarmUp` | src/components/ActiveStrategiesPage.tsx:302-311 | Witness: a rule that may fire ten times before a loop of ten cycles; some reachable state is reported wrongly |
| `TorchDisplay.EndlessPair` | src/components/ActiveStrategiesPage.tsx:302-311 | Witness: two rules that pass the funds back and forth without end |
| `TorchDisplay.DescendIffOrdered` | src/components/ActiveStrategiesPage.tsx:302-305 | Live counters never increase along the chain and differ by at most one in every reachable state iff no warm-up outlives its fire, or there is no loop, or no loop rule fires twice and lives on |
| `TorchDisplay.ReportableDescends` | src/components/ActiveStrategiesPage.tsx:302-305 | So it is, after any number of fires, for every chain the page reports correctly |
| `TorchDisplay.SaturationIsFar` | programs/sotama_automations/src/state.rs:532-534 | A loop whose counters fill up has made at least 2^33 - 1 fires by the first wrong report |
| `WaitingPage.FindTorch` | src/components/ActiveStrategiesPage.tsx:341-344 | The index is 0 when all live rules ran equally often, otherwise the first one behind the maximum |
| `WaitingPage.GroupByChain` | src/components/ActiveStrategiesPage.tsx:322-328 | Each chain id maps to exactly its rules in list order |
| `WaitingPage.WaitingIds` | src/components/ActiveStrategiesPage.tsx:321-350 | A rule is marked iff its chain has two live rules or more, it is one of them and not the presumed holder |
| `WaitingPage.MarkedIff` | src/components/ActiveStrategiesPage.tsx:321-350 | In the records' fields: a rule is marked iff it is live and another live rule of its chain is rather the holder, being behind when it is not, or else coming first |
| `WaitingPage.WaitingShows` | src/components/ActiveStrategiesPage.tsx:329-348 | For a listed chain in any state the marks say exactly what the state's counters say, whatever else is listed and in any order |
| `WaitingPage.NamesHolderIff` | src/components/ActiveStrategiesPage.tsx:321-350 | For any listing of a chain in any state: the one unmarked live rule is the holder iff the counters show it |
| `WaitingPage.PageNamesHolder` | src/components/ActiveStrategiesPage.tsx:285-350 | Over all reachable states and all listings the page names the holder iff the chain is one of the reportable ones |
| `ReaderPage.ReaderShows` | src/lib/on-chain-automations.ts:528-545 | What the reader hands to the page is the chain in its state under its id, and nothing else under that id, if the heads' ids differ |
| `ReaderPage.ComponentShown` | src/lib/on-chain-automations.ts:526-545 | Whatever order a component is recovered in, gaps included, the page is handed that chain in that order in its state |
| `ReaderPage.RunShown` | src/lib/on-chain-automations.ts:526-545 | A run of rules between gaps is shown as a chain of its own |
| `ReaderPage.ReversedRunMisleads` | src/components/ActiveStrategiesPage.tsx:321-350 | A last run recovered backwards: while the run before it has fired one lap more and none of it has, the page takes its last rule for the holder and marks its first as waiting |
| `ReaderPage.ReaderNamesHolder` | src/components/ActiveStrategiesPage.tsx:321-350 | Draft, run, reader and page together: with distinct ids the page names the holder of a created chain after any number of fires iff its counters do |
| `ReaderPage.ReportableIsNamed` | src/components/ActiveStrategiesPage.tsx:285-350 | So with distinct ids the holder of a chain that is reportable is named after any number of fires |
| `ReaderPage.CollisionHidesHolder` | src/lib/on-chain-automations.ts:528 | Two recovered chains, in whatever order, whose heads share the first twelve characters: of any two live rules, one of each, at least one is marked as waiting |
| `ReaderPage.AllNamedIff` | src/lib/on-chain-automations.ts:527-528 | For a list of whole chains and rules that stand alone, with every chain's counters right: the page names all holders at once iff no two heads' addresses agree on their first twelve characters |
| `MergePage.MergeOnChain` | src/lib/on-chain-automations.ts:588-617 | Each address of either list once: the account, the saved record, or both in one, with the account's nonce and end, the saved actions, triggers and link, and the larger counter |
| `MergePage.SavedChainShown` | src/lib/on-chain-automations.ts:604-612 | A chain all of whose rules are saved under one id, counters not ahead of the accounts, is shown in its true state under that id, whatever links and ids were recovered |
| `MergePage.SavedChainNamed` | src/components/ActiveStrategiesPage.tsx:321-350 | So the page names its holder iff its counters do |
| `MergePage.AheadIsNotShown` | src/lib/on-chain-automations.ts:604-612 | A chain of which one saved counter has run ahead of its account is not shown in its true state |
| `MergePage.SplitNeverNamed` | src/lib/on-chain-automations.ts:604-612 | If some live rules of a chain carry the saved id and others the recovered one, two live rules stay unmarked and the page does not name the holder |
| `Indexer.WatchKeys` | keeper/src/indexer.rs:403-419 | The watch keys are the account and, for a named mint, both its token accounts, each once even when they coincide |
| `Indexer.PlacedMeans` | keeper/src/indexer.rs:49-77 | In the triggers' fields: exactly the timers are in the timer list, exactly the rules on a feed under the feed, exactly the rules on an account or on a mint of it under the account and its two token accounts |
| `Indexer.WatchedSet.FromIndex` | keeper/src/indexer.rs:38-48 | Building from a list is inserting its rules one by one |
| `Indexer.WatchedSet.InsertCtx` | keeper/src/indexer.rs:49-77 | The whole new state after an insert: primary map and exactly the buckets of the trigger |
| `Indexer.WatchedSet.RemoveByPubkey` | keeper/src/indexer.rs:78-102 | The whole new state after a removal: gone from every index, emptied buckets dropped; on a set whose slots are right it reports a removal iff the rule was there |
| `Indexer.WatchedSet.ApplyDelta` | keeper/src/indexer.rs:103-128 | An upsert or removal keeps the set coherent: every index right, no empty bucket, every copy's flag right; and when it reports a change |
| `Indexer.WatchedSet.RecomputeArmed` | keeper/src/indexer.rs:129-158 | Every copy in every index gets the flag of its rule and nothing else changes |
| `Indexer.WatchedSet.ReconcileOnce` | keeper/src/indexer.rs:432-474 | The set becomes the index of the scanned accounts iff the fingerprints differ, otherwise it stays |
| `Indexer.FetchActive` | keeper/src/indexer.rs:513-538 | The scan gives the unfinished, parseable automations in order, with flags computed over all of them |
| `Indexer.ScanFindsExactly` | keeper/src/indexer.rs:513-534 | The scan yields a rule exactly for accounts whose bytes are the discriminator and the layout of an unfinished automation, padded or not |
| `Indexer.InsertKeepsPlaced` | keeper/src/indexer.rs:49-77 | Inserting a new rule keeps every slot holding exactly the rules that belong there, each once, with no empty bucket |
| `Indexer.RemoveKeepsPlaced` | keeper/src/indexer.rs:78-102 | So does removing |
| `Indexer.RearmIsCoherent` | keeper/src/indexer.rs:129-158 | Recomputing makes every flag right and the four indexes agree |
| `Indexer.FedTargets` | keeper/src/indexer.rs:563-581 | One pass finds exactly the rules some upstream of which has fired, several upstreams included |
| `Indexer.ComputeArmed` | keeper/src/indexer.rs:559-590 | In place: the slice becomes the one with the flags computed over it; nothing else changes |
| `Indexer.WithArmedMeans` | keeper/src/indexer.rs:559-590 | In the actions' fields: a swap that consumes upstream output is armed iff some swap of the slice with its key as linked downstream has fired, whatever else that one is; every other rule is armed; nothing but the flag changes |
| `Indexer.ArmedMeans` | keeper/src/indexer.rs:129-158 | The same for every rule of a coherent set |
| `Indexer.FingerprintMeans` | keeper/src/indexer.rs:249-287 | Two rule sets have one fingerprint iff they have the same rules and no trigger differs in kind, account, mint and mode, feed, quote mint and oracle, or upstream and direction, the zero key standing for none |
| `ArmedChain.ArmedIffDelivered` | keeper/src/indexer.rs:559-590 | In any state of a chain a listed rule is armed iff it consumes nothing, or the rule before it or the one that links back to it has fired and is not finished |
| `ArmedChain.ArmedUpToTorch` | keeper/src/indexer.rs:542-558 | While no rule is finished: after any number of fires exactly the rules up to the holder, and those that consume nothing, are armed |
| `ArmedChain.ArmedInTimeIff` | keeper/src/indexer.rs:542-558 | Without a loop: the rule whose turn it is, is armed in every reachable state iff none that consumes follows one that finishes with its first fire |
| `ArmedChain.LapArmedIff` | keeper/src/indexer.rs:542-558 | In any later lap of any loop, state by state: iff the rule before it has fires left, or at the start of a lap the last rule or the warm-up before it |
| `ArmedChain.ModeArmedInTimeIff` | keeper/src/indexer.rs:542-558 | With a loop mode, over all reachable states: the same condition up to the loop's first rule, and for a number of cycles no rule further inside the loop consumes |
| `ArmedChain.ScannedChain` | keeper/src/indexer.rs:513-538 | What the scan makes of a deployed chain: exactly its unfinished rules, with their downstreams and counters, and right flags |
| `ArmedChain.TwoOnceCards` | keeper/src/indexer.rs:520-537 | Witness: two rules that fire once each; once the first has fired it is gone and the second, if it consumes, is never armed |
| `IndexRebuild.CoherentIsDetermined` | keeper/src/indexer.rs:29-58 | Two coherent sets over the same rules agree in every bucket up to order |
| `IndexRebuild.RebuildIsCoherent` | keeper/src/indexer.rs:38-48 | A rebuild from any list of distinct rules, flags computed, is coherent |
| `IndexRebuild.HandleKeeps` | keeper/src/indexer.rs:103-128 | Any one event keeps the set coherent and over exactly the surviving rules |
| `IndexRebuild.RunKeeps` | keeper/src/indexer.rs:103-158 | So does any sequence of upserts, removals and reconciles |
| `IndexRebuild.IncrementalIsRebuild` | keeper/src/indexer.rs:37-158 | After any sequence of events from a coherent set, all four indexes equal, up to order in a bucket, a rebuild from the surviving rules listed in any order |
| `IndexRebuild.ReconcileIsRebuildIff` | keeper/src/indexer.rs:437-466 | After a reconcile the set is the rebuild of the scan iff the fingerprints differ or the rules, flags aside, are the same as before |
| `IndexRebuild.FiredUpstreamIsMissed` | keeper/src/indexer.rs:249-287 | An upstream that fired since the last scan leaves the fingerprint alone: the set is kept and the downstream rule stays unarmed, unlike in the rebuild |
| `Subscriptions.ViewsFromRules` | keeper/src/indexer.rs:160-400 | Each subscription view of a coherent set contains exactly what some rule's trigger asks for |
| `Subscriptions.ViewsMean` | keeper/src/indexer.rs:160-400 | The same in the triggers' fields: account and token accounts, feeds by oracle byte (0 Pyth, 1 Jupiter), quote mints in the catalog or not |
| `Subscriptions.RowDecides` | keeper/src/indexer.rs:249-287 | Two triggers with one fingerprint row subscribe to the same things iff both use the all-zero key or neither does, or its token accounts are the account itself |
| `Subscriptions.FingerprintSound` | keeper/src/indexer.rs:249-287 | Coherent sets with equal fingerprints whose rules use the all-zero key alike have equal account and price subscriptions: watch keys, feeds per source, quote mints, stream feeds and probed mints |
| `Subscriptions.FingerprintSoundIff` | keeper/src/indexer.rs:432-466 | A change of one trigger within its fingerprint row leaves the account and price subscriptions of every set that holds the rule unchanged iff the zero keys agree |
| `Subscriptions.ZeroMintIsMissed` | keeper/src/indexer.rs:249-287 | For instance a change from no mint to the all-zero mint keeps the fingerprint and changes the watch keys |
| `Subscriptions.VaultTargetsIff` | keeper/src/indexer.rs:293-309 | Two sets over the same rules have the same vault targets iff each rule asks for the same vaults in both: a target names its rule, so no other rule can make up for it |
| `Subscriptions.VaultsMean` | keeper/src/types.rs:80-98 | A vault is watched iff its owner is a listed bridge-enabled swap and its mint one of that rule's two |
| `Subscriptions.FingerprintHidesVaults` | keeper/src/types.rs:80-98 | Equal fingerprints mean the same rules, and then the same vault targets iff no rule changed what it asks for: exactly the vault changes a reconcile misses |
| `Subscriptions.BridgeFlagIsMissed` | keeper/src/indexer.rs:249-287 | Witness: setting the bridge flag of a swap rule keeps the fingerprint and all account and price subscriptions and changes the vault targets |
| `Subscriber.FilterMatches` | keeper/src/subscriber.rs:209-216 | Of one key's rules exactly the armed, matching ones not emitted before pass, each once; armed ones count as emitted even when they do not match |
| `Subscriber.FanOut` | keeper/src/subscriber.rs:202-231 | A rule is in exactly one emitted event, once, iff it is armed, an exchange program is touched if it asks for swaps, and its account is named, or with a mint one of its token accounts is, or its account is and a balance of the mint is owned by or lies in the account or its token accounts; no event is empty |
| `Subscriber.WantedIsCalled` | keeper/src/subscriber.rs:248-294 | Filter and lookup together ask for exactly that |
| `Subscriber.TouchedMeansNamed` | keeper/src/subscriber.rs:205-206 | The rules found under a transaction's keys are exactly the set's rules with a named watch key |
| `Executor.Dedupe.constructor` | keeper/src/executor.rs:92-101 | Starts empty |
| `Executor.Dedupe.TryClaim` | keeper/src/executor.rs:118-142 | Refused as terminal, as a duplicate or as in flight, tested in this order: iff the rule is marked terminal, the trigger is among the last 4096 claims, a send is in flight; otherwise granted, with the whole new state |
| `Executor.Dedupe.Remember` | keeper/src/executor.rs:131-138 | Adding with eviction keeps the last 4096 and the set in step |
| `Executor.Dedupe.ReleaseSuccess` | keeper/src/executor.rs:144-149 | Frees the rule and changes nothing else |
| `Executor.Dedupe.ReleaseFailure` | keeper/src/executor.rs:151-156 | Frees the rule and marks it terminal iff told so |
| `Executor.ClaimKeepsWindow` | keeper/src/executor.rs:118-142 | A claim keeps the bounded window equal to the end of the list of all claims |
| `Executor.ClaimKeepsFarApart` | keeper/src/executor.rs:40 | Two successful claims of one rule and correlation have at least 4096 other claims between them |
| `ExecutorProtocol.QueueOrder` | keeper/src/executor.rs:920-922 | The queue is a permutation of the event's matches, oldest creation first, nonce breaking ties |
| `ExecutorProtocol.ProcessEvent` | keeper/src/executor.rs:212-399 | A stale event changes nothing. Of a fresh one, in queue order, exactly those rules are claimed that are neither terminal nor in flight nor claimed for this event among the last 4096 claims when their turn comes; the claims, the terminal rules and the in-flight set afterwards follow; and all of it is steps of the protocol taken by the event's own task |
| `ExecutorProtocol.Turn` | keeper/src/executor.rs:253-399 | One rule's turn from claim to release: taken iff free, what is added to the claims, marked terminal iff the send failed so |
| `ExecutorProtocol.TasksStep` | keeper/src/executor.rs:253-399 | Every step keeps one holder per rule and the in-flight set equal to the rules held, disjoint from the terminal ones |
| `ExecutorProtocol.LogStep` | keeper/src/executor.rs:118-156 | Every step keeps the claim history safe: window right, terminal rules final, claims of a rule separated by releases |
| `ExecutorProtocol.RunIsSafe` | keeper/src/executor.rs:172-208 | Both invariants hold after any interleaving of any number of event tasks |
| `ExecutorProtocol.ProtocolSafety` | keeper/src/executor.rs:118-156 | After any interleaving: at most one holder per rule, in-flight is exactly the rules held and disjoint from terminal, a terminal rule is never claimed again, repeats are a window apart, and nothing is in flight when all event tasks are done |
| `ExecutorProtocol.ClaimGrantedIff` | keeper/src/executor.rs:118-142 | In every reachable state of any interleaving a claim is granted iff the rule was never released as terminal, nobody holds it, and the trigger is not among the last 4096 claims |
| `PriceCompare.RatioIsCross` | keeper/src/price_watcher.rs:715-718 | The real comparison of base/quote with the threshold is the cross-multiplied integer one for a positive quote and the opposite one for a negative quote |
| `PriceCompare.ClearScales` | keeper/src/price_watcher.rs:894-903 | Comparing two scaled decimals is comparing integers brought to one exponent |
| `PriceCompare.Int128` | keeper/src/price_watcher.rs:731-735 | Saturation and wrapping of a signed 128-bit integer: unchanged inside the range, the nearer end, the same remainder modulo 2^128 |
| `PriceExactness.SaturationHarmless` | keeper/src/price_watcher.rs:731-735 | Saturation of the power or the product never changes a comparison with a value inside the range |
| `PriceExactness.RatioCompareIsCross` | keeper/src/price_watcher.rs:719-751 | For all mantissas the code decides the exact integer comparison at the u32-cut exponent |
| `PriceExactness.NoAnswerIff` | keeper/src/price_watcher.rs:719-751 | There is no answer iff the quote is zero or the comparator unknown |
| `PriceExactness.RatioCompareExact` | keeper/src/price_watcher.rs:719-751 | At every safe shift, all shifts below 2^32 among them, the code's answer is the truth about base/quote against the threshold: at most for comparator 0, at least for 1 |
| `PriceExactness.ExactIffShiftSafe` | keeper/src/price_watcher.rs:730-732 | No mantissas are ever decided wrongly iff the shift is safe |
| `PriceExactness.SmallGapExact` | keeper/src/price_watcher.rs:884-903 | Up to a gap of 19 digits the single-feed decision is exact for all i64 mantissas |
| `PriceExactness.SmallGapMeans` | keeper/src/price_watcher.rs:884-903 | Both comparisons are then those of the values the decimals stand for |
| `PriceExactness.LargeGapWraps` | keeper/src/price_watcher.rs:894-903 | From a gap of 20 some i64 mantissa overflows i128 and wraps negative |
| `PriceExactness.SingleFeedExactIffGap` | keeper/src/price_watcher.rs:884-903 | The single-feed decision is exact for all mantissas iff the gap is at most 19 |
| `PriceExactness.UnitQuoteAgrees` | keeper/src/price_watcher.rs:719-751 | Up to that gap the ratio comparison against a quote of one gives the single-feed decision |
| `PriceExactness.StoredExactIffGap` | keeper/src/price_watcher.rs:884-903 | For positive feed values against thresholds the front end can write, every decision is exact iff the feed's exponent lies between 22 below and 19 above the threshold's |
| `InvertedFeed.ThresholdNear` | src/lib/linked-chains.ts:383-384 | The stored threshold is within half a tick of the reciprocal |
| `InvertedFeed.DisagreeIffBetween` | src/lib/linked-chains.ts:343-348 | Keeper and user disagree iff the feed lies between the reciprocal and the stored threshold |
| `InvertedFeed.IntentPreserved` | src/lib/linked-chains.ts:382-394 | More than half a tick from the reciprocal the decisions agree |
| `InvertedFeed.BuiltRuleKeepsIntent` | src/lib/linked-chains.ts:343-394 | For both branches: a rule is refused iff it inverts nothing positive, and a stored one decides as asked outside half a tick |
| `InvertedFeed.StoredIffInRange` | src/lib/linked-chains.ts:383-392 | A rule is stored iff its threshold rounds to a number of ticks below 2^53, the limit of the big-integer conversion |
| `InvertedFeed.OneRawValueAtMost` | src/lib/linked-chains.ts:382-394 | For a feed at the threshold's exponent at most one raw value is decided differently |
| `InvertedFeed.StoredRuleKeepsIntent` | keeper/src/price_watcher.rs:884-903 | End to end for both branches, at the exponents of `StoredExactIffGap`: the keeper's integer comparison of a stored rule gives the user's decision outside half a tick |
| `AccountState.DecodesExactly` | keeper/src/state.rs:127-141 | Account data decodes to an automation iff it is the discriminator, that automation's encoding and any padding |
| `AccountState.ErrorsMean` | keeper/src/state.rs:127-141 | Too short iff under eight bytes, mismatch iff the first eight differ, a decoding error iff no automation's encoding follows |
| `AccountLayout.OwnerAtByte8` | src/lib/on-chain-automations.ts:568-572 | The filter at byte 8 finds exactly the owner's automations |
| `AccountLayout.AutomationLayout` | src/lib/idl/sotama_automations.ts:2633-2750 | Owner, nonce, trigger, action, cadence and the fixed-size rest, in this order |
| `AccountLayout.TriggerLayout` | src/lib/idl/sotama_automations.ts:3128-3255 | The bytes of each trigger variant, its index first |
| `AccountLayout.ActionLayout` | src/lib/idl/sotama_automations.ts:2540-2632 | The bytes of each action variant |
| `AccountLayout.CadenceLayout` | src/lib/idl/sotama_automations.ts:2979-3022 | The bytes of each cadence variant |
| `AccountLayout.TailLayout` | src/lib/idl/sotama_automations.ts:2672-2750 | The bytes of what follows the three enums |
| `AccountLayout.DigitAt` | keeper/src/state.rs:103-124 | Byte i of an integer is its digit of weight 256^i |
| `AccountState.AutomationReadsBack` | keeper/src/state.rs:103-124 | Every automation, over all trigger, action and cadence variants, reads back from its encoding and leaves exactly what follows it |
| `AccountState.AutomationAcceptsOnly` | keeper/src/state.rs:103-124 | Whatever decodes is the encoding of the result followed by the rest: no second encoding is accepted |
| `AccountState.TriggerReadsBack` | keeper/src/state.rs:23-64 | Each of the four trigger encodings is self-delimiting |
| `AccountState.ActionReadsBack` | keeper/src/state.rs:67-90 | Each of the three action encodings is self-delimiting |
| `AccountState.CadenceReadsBack` | keeper/src/state.rs:93-98 | Each of the three cadence encodings is self-delimiting |
| `SwapInstruction.Position` | keeper/src/jupiter.rs:337-340 | The first account with the key, or none has it |
| `SwapInstruction.LocatedIff` | keeper/src/jupiter.rs:361-373 | An account is located iff it first stands at one of the first 256 places, and there; which error otherwise |
| `SwapInstruction.AtasLocatedIff` | keeper/src/jupiter.rs:332-352 | Both token accounts are located iff each is; a missing input account is reported first |
| `SwapInstruction.BuildExecuteSwapIx` | keeper/src/program.rs:201-305 | The whole instruction: data, six fixed accounts, inner accounts without signer flags, optional downstream; the keeper is the only signer; writable are only the automation, the treasury's account, the downstream and what the inner call writes |
| `SwapInstruction.DataBytes` | keeper/src/program.rs:236-259 | The data in order: discriminator, length and bytes of the inner data, number and flags of the inner accounts, the three places |
| `SwapInstruction.PairsReadBack` | programs/sotama_automations/src/instructions/execute_swap.rs:279-290 | The flag pairs read back as the inner accounts' flags |
| `SwapInstruction.RelayedIffLengthsFit` | programs/sotama_automations/src/instructions/execute_swap.rs:195-290 | With the located indices the program takes every named account for what the keeper meant and rebuilds the inner call unchanged, both token accounts and the downstream rule included, iff both lengths fit in u32 |
| `SwapInstruction.RelaysOnly` | programs/sotama_automations/src/instructions/execute_swap.rs:195-290 | Of any instruction whatever the program relays only one with as many accounts as flags, the recorded mint and downstream at their places and the permissions it needs, keys from the accounts and flags from the data |
| `History.Refresh` | src/hooks/useAutomationFills.ts:135-296 | One refresh: which records are added, in which order, and when the cursor moves; skipped iff the automation is terminal with an execution recorded |
| `History.RefreshedRecords` | src/hooks/useAutomationFills.ts:273-291 | What is recorded for a signature afterwards: what was, or its events if it is on the page, succeeded and was fetched |
| `History.RefreshRecordsEvents` | src/hooks/useAutomationFills.ts:211-268 | Of a transaction on the page that succeeded and was fetched, the records afterwards are its executions and its fills, event by event in log order |
| `History.RefreshKeepsOnce` | src/hooks/useAutomationFills.ts:277-291 | Whichever fetches fail and however the page is cut, no signature's events are recorded twice or in part |
| `History.RefreshCompleteIff` | src/hooks/useAutomationFills.ts:283-286 | Everything up to the new cursor is recorded iff the cursor stayed or nothing unrecorded was cut off the page |
| `History.NeverTwice` | src/hooks/useAutomationFills.ts:109-300 | Over any run, of each transaction and kind either nothing is recorded or its events, each once, in log order |
| `History.ExactlyOnce` | src/hooks/useAutomationFills.ts:109-300 | Over any run whose pages are never cut, of every successful transaction up to the cursor the records are its executions and its fills, event by event in log order |
| `History.NewestFirst` | src/hooks/useAutomationFills.ts:279-291 | Over any run without failed fetches and cut pages both record lists are the whole history up to the cursor |
| `History.HistoryUnfolds` | src/hooks/useAutomationFills.ts:279-291 | That history, one transaction at a time: the next newer one's events go in front, in log order; a failed one adds none |
| `HistoryFate.CatchesUp` | src/hooks/useAutomationFills.ts:273-291 | After any run whose pages are never cut, one refresh that is not skipped, not cut and misses nothing brings the cursor to the newest transaction with everything recorded once |
| `HistoryFate.CatchesUpInOrder` | src/hooks/useAutomationFills.ts:279-291 | If no refresh failed before either, the records are then the whole history, newest first |
| `HistoryFate.FateBehindCursor` | src/hooks/useAutomationFills.ts:161-166 | A transaction behind the cursor is recorded for ever or lost for ever, whatever happens next |
| `HistoryFate.SkippedForGood` | src/hooks/useAutomationFills.ts:153-159 | The history of a terminal automation that is skipped stays as it is under any further refreshes and any further transactions |
| `HistoryFate.TickLosesIff` | src/hooks/useAutomationFills.ts:153-159 | A refresh of a terminal automation loses part of its history for good, whatever refreshes and transactions follow, iff it misses a transaction with unrecorded events and brings in an execution |
| `HistoryFate.TickCompletesIff` | src/hooks/useAutomationFills.ts:193-197 | The history so far stays complete under whatever follows iff it misses none |
| `HistoryFate.TerminalHistoryLost` | src/hooks/useAutomationFills.ts:153-159 | Witness: two executions, the older one's fetch fails once; the automation is skipped and never complete |
| `HistoryFate.CutPageLoses` | src/hooks/useAutomationFills.ts:162-165 | What a cut page passes over unrecorded is never recorded in any continuation |
| `HistoryFate.CutPageWitness` | src/hooks/useAutomationFills.ts:162-165 | Witness: one transaction more than fit a page, no fetch failing, and the oldest is lost |
| `LookupTable.FetchLookupTables` | keeper/src/caches/lookup_table.rs:155-185 | Which error, and iff the batch fails or a returned account does not decode; otherwise exactly the delivered tables by key |
| `LookupTable.LookupTableCache.Probe` | keeper/src/caches/lookup_table.rs:76-97 | Fresh hits in input order, and exactly the distinct keys that are missing or stale |
| `LookupTable.LookupTableCache.Store` | keeper/src/caches/lookup_table.rs:107-127 | The whole new cache: the old keys and the fetched ones, fetched tables stamped with the second clock reading, the rest as before; and the filled result |
| `LookupTable.Fill` | keeper/src/caches/lookup_table.rs:120-130 | Fails, naming the first one, iff a key without a fresh entry was not returned; otherwise one table per key in input order |
| `LookupTable.LookupTableCache.ResolveMany` | keeper/src/caches/lookup_table.rs:67-130 | Whatever other callers write between the two locks: when it succeeds and when not; one table per key in input order, fresh cached or newly delivered; one batch at most, for exactly the distinct missing or stale keys; and the whole cache afterwards |
| `LookupTable.SecondCallAsks` | keeper/src/caches/lookup_table.rs:76-97 | A second call for the same keys asks the node again iff for one of them 300 seconds have passed since it entered the cache, in the first call or before |

## Left out

- The network and runtime: RPC, WebSockets, HTTP, signing, wallet prompts, tokio, React and browser storage. Their answers are parameters or steps.
- Floating-point decisions (`decide_ratio_cross`, `decide_fill_relative_cross`, the evaluator tick built on them, fill pricing, volumes).
- InvertedFeed.BuiltRuleKeepsIntent: the front end's division, power and rounding are exact rationals here; double rounding and quote mints are not modelled.
- InvertedFeed.StoredRuleKeepsIntent: beyond the exponents of `StoredExactIffGap`, where some stored rule is decided wrongly.
- PriceExactness.SingleFeedExactIffGap: the keeper's release profile, where an overflow wraps; a debug build stops instead.
- ChainRoundTrip.RoundTrip: chains of one card, for which no downstream is written, and chains referred to from outside; missing accounts are the subject of `ChainGaps`.
- ChainRoundTrip.WorldRoundTrip: the chain id is not recovered, because the reader derives a new one from the head's address.
- ChainLinks.ReconstructChainLinks: which of several neighbours waiting on the stack is searched first, and which of several rules of equal nonce comes first, are left open; records without a public key are not modelled.
- TorchRun.StopsExactly: token balances, minimum intervals and a deadline that passes; a deadline is taken as never reached.
- LoopCadences.CreatedRing: bridge flags, seed amounts and fees of the created rules; cadences the program's own checks would not accept.
- Indexer.WatchedSet.ReconcileOnce: the contract says which set is kept; when that differs from the rebuild of the scan is said by `IndexRebuild.ReconcileIsRebuildIff`.
- Indexer.WatchedSet.RecomputeArmed: hash map iteration order, and the tail of event processing that fetches an account before an upsert.
- MergePage.MergeOnChain: records without a public key, and the order of the merged list by creation time (the page results hold for any order). A saved record without a link is taken to have no link field.
- Subscriber.FanOut: parsing of notifications; the known-exchange test is a parameter.
- Address derivation of token accounts, and discriminators, are parameters; no collision freedom is assumed.
- ExecutorProtocol.ProcessEvent: the method runs without interference, interleaving is the protocol's; the age test of a snapshot is a flag, error texts are outcomes, and the throttle of skip messages is not modelled.
- Executor.Dedupe.TryClaim: the log throttle map kept beside the sets.
- SwapInstruction.RelayedIffLengthsFit: which accounts may sign the inner call, the program's checks of token account contents, fees, slippage and the swap itself; the instructions for bridging, fee top-ups and plain transfers.
- AccountState.DecodesExactly: the account monitor and event layouts built on the same encoding.
- History.ExactlyOnce: one account at a time; the outer loop and the stored cache are maps of these, logs that fail to parse count as no events, and the content of a record beyond signature and event is opaque.
- LookupTable.LookupTableCache.ResolveMany: the fetch is a function of the batch; no entry ever leaves the cache, as in the source.
- Sharding, fee and slippage arithmetic, route classification, formatting and catalogue lookups, which would only add easy members.
