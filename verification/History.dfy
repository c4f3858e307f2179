/** Execution history of one automation: a cursor over its signatures, records
    deduplicated by signature (src/hooks/useAutomationFills.ts). */
module History {
  import opened Common

  const SIG_PAGE_LIMIT: nat := 1000

  /** A transaction of the automation: whether it succeeded, and the events its
      logs hold for this automation, which never change. */
  datatype Tx = Tx(sig: string, ok: bool, executions: seq<int>, fills: seq<int>)

  datatype Record = Record(sig: string, event: int)

  datatype Entry = Entry(lastSigSeen: Option<string>, executions: seq<Record>, fills: seq<Record>)

  datatype Kind = Executions | Fills

  function Events(tx: Tx, kind: Kind): seq<int> {
    if kind == Executions then tx.executions else tx.fills
  }

  function Records(e: Entry, kind: Kind): seq<Record> {
    if kind == Executions then e.executions else e.fills
  }

  function RecordsOf(tx: Tx, kind: Kind): seq<Record> {
    seq(|Events(tx, kind)|, i requires 0 <= i < |Events(tx, kind)| => Record(tx.sig, Events(tx, kind)[i]))
  }

  /** The records kept for one signature. */
  function Of(records: seq<Record>, sig: string): seq<Record> {
    Filter(records, (r: Record) => r.sig == sig)
  }

  // ---- one refresh ---------------------------------------------------------------

  /** Records decoded from the successful transactions that could be fetched. */
  function Decoded(page: seq<Tx>, fetched: string -> bool, kind: Kind): seq<Record> {
    if page == [] then []
    else
      var tx := page[|page| - 1];
      Decoded(page[..|page| - 1], fetched, kind) + if tx.ok && fetched(tx.sig) then RecordsOf(tx, kind) else []
  }

  function Sigs(records: seq<Record>): set<string> {
    set r | r in records :: r.sig
  }

  /** New records in front, minus those of signatures already recorded. */
  function Merge(news: seq<Record>, olds: seq<Record>): seq<Record> {
    Filter(news, (r: Record) => r.sig !in Sigs(olds)) + olds
  }

  predicate AllFetched(page: seq<Tx>, fetched: string -> bool) {
    forall i :: 0 <= i < |page| && page[i].ok ==> fetched(page[i].sig)
  }

  /** `page` lists newest first what the node returned past the cursor. */
  function Refreshed(e: Entry, page: seq<Tx>, fetched: string -> bool): Entry {
    if page == [] then e
    else Entry(if AllFetched(page, fetched) then Some(page[0].sig) else e.lastSigSeen,
               Merge(Decoded(page, fetched, Executions), e.executions),
               Merge(Decoded(page, fetched, Fills), e.fills))
  }

  /** A terminal automation with a recorded execution is not looked at again. */
  predicate Skipped(e: Entry, terminal: bool) {
    terminal && |e.executions| > 0
  }

  method Refresh(e: Entry, terminal: bool, page: seq<Tx>, fetched: string -> bool) returns (e': Entry)
    ensures e' == if Skipped(e, terminal) then e else Refreshed(e, page, fetched)
    ensures (terminal && e.executions != []) || page == [] ==> e' == e
    ensures !(terminal && e.executions != []) && page != [] ==>
              e'.lastSigSeen == if forall i :: 0 <= i < |page| && page[i].ok ==> fetched(page[i].sig)
                                then Some(page[0].sig) else e.lastSigSeen
  {
    if terminal && |e.executions| > 0 {
      return e;
    }
    if |page| == 0 {
      return e;
    }
    var newExecutions: seq<Record> := [];
    var newFills: seq<Record> := [];
    var anyFailed := false;
    for i := 0 to |page|
      invariant newExecutions == Decoded(page[..i], fetched, Executions)
      invariant newFills == Decoded(page[..i], fetched, Fills)
      invariant anyFailed <==> !AllFetched(page[..i], fetched)
    {
      var tx := page[i];
      assert page[..i + 1][..i] == page[..i];
      assert AllFetched(page[..i + 1], fetched) <==> AllFetched(page[..i], fetched) && (tx.ok ==> fetched(tx.sig)) by {
        assert page[..i + 1] == page[..i] + [tx];
      }
      if tx.ok {
        if fetched(tx.sig) {
          newExecutions := newExecutions + RecordsOf(tx, Executions);
          newFills := newFills + RecordsOf(tx, Fills);
        } else {
          anyFailed := true;
        }
      }
    }
    assert page[..|page|] == page;
    e' := Entry(if anyFailed then e.lastSigSeen
                else Some(page[0].sig), Merge(newExecutions, e.executions), Merge(newFills, e.fills));
  }

  // ---- the ledger ------------------------------------------------------------------

  /** Signatures are unique; the ledger is oldest first and only grows at its end. */
  ghost predicate IsLedger(ledger: seq<Tx>) {
    forall i, j :: 0 <= i < j < |ledger| ==> ledger[i].sig != ledger[j].sig
  }

  /** How many transactions lie at or before the cursor. */
  ghost predicate CursorAt(ledger: seq<Tx>, cursor: Option<string>, n: nat) {
    && n <= |ledger|
    && (cursor.None? <==> n == 0)
    && (cursor.Some? ==> n > 0 && ledger[n - 1].sig == cursor.value)
  }

  /** What the node answers: the newest transactions past the cursor, newest
      first, cut at the page limit. */
  function Page(ledger: seq<Tx>, n: nat): (page: seq<Tx>)
    requires n <= |ledger|
    ensures |page| == PageSize(ledger, n)
    ensures forall i :: 0 <= i < |page| ==> page[i] == ledger[|ledger| - 1 - i]
  {
    seq(PageSize(ledger, n), i requires 0 <= i < PageSize(ledger, n) => ledger[|ledger| - 1 - i])
  }

  function PageSize(ledger: seq<Tx>, n: nat): nat
    requires n <= |ledger|
  {
    if |ledger| - n <= SIG_PAGE_LIMIT then |ledger| - n else SIG_PAGE_LIMIT
  }

  /** Each signature's events are recorded all together, once, in order, or not at all. */
  ghost predicate OnceOnly(ledger: seq<Tx>, e: Entry) {
    && (forall i, kind :: 0 <= i < |ledger| ==>
          Of(Records(e, kind), ledger[i].sig) == [] ||
            (ledger[i].ok && Of(Records(e, kind), ledger[i].sig) == RecordsOf(ledger[i], kind)))
    && (forall r, kind :: r in Records(e, kind) ==> Known(ledger, r.sig))
  }

  /** One record for each event, in log order. */
  ghost predicate Lists(records: seq<Record>, sig: string, events: seq<int>) {
    |records| == |events| && forall i :: 0 <= i < |events| ==> records[i].sig == sig && records[i].event == events[i]
  }

  /** Of the transaction everything is recorded, in log order, and nothing else. */
  ghost predicate HasEvents(e: Entry, tx: Tx) {
    && Lists(Filter(e.executions, (r: Record) => r.sig == tx.sig), tx.sig, tx.executions)
    && Lists(Filter(e.fills, (r: Record) => r.sig == tx.sig), tx.sig, tx.fills)
  }

  /** Of either kind, all of its events or none. */
  ghost predicate AllOrNone(e: Entry, tx: Tx) {
    var executions := Filter(e.executions, (r: Record) => r.sig == tx.sig);
    var fills := Filter(e.fills, (r: Record) => r.sig == tx.sig);
    && (executions == [] || (tx.ok && Lists(executions, tx.sig, tx.executions)))
    && (fills == [] || (tx.ok && Lists(fills, tx.sig, tx.fills)))
  }

  /** Recorded means that the records are the transaction's events. */
  lemma RecordedMeans(e: Entry, tx: Tx)
    ensures tx.ok ==> (IsRecorded(e, tx) <==> HasEvents(e, tx))
  {
    var executions, fills := Of(e.executions, tx.sig), Of(e.fills, tx.sig);
    if Lists(executions, tx.sig, tx.executions) { assert executions == RecordsOf(tx, Executions); }
    if Lists(fills, tx.sig, tx.fills) { assert fills == RecordsOf(tx, Fills); }
  }

  lemma OnceMeans(ledger: seq<Tx>, e: Entry)
    requires OnceOnly(ledger, e)
    ensures forall i :: 0 <= i < |ledger| ==> AllOrNone(e, ledger[i])
  {
    forall i | 0 <= i < |ledger|
      ensures AllOrNone(e, ledger[i])
    {
      OnceAt(ledger, e, i, Executions);
      OnceAt(ledger, e, i, Fills);
    }
  }

  lemma OnceAt(ledger: seq<Tx>, e: Entry, i: nat, kind: Kind)
    requires OnceOnly(ledger, e) && i < |ledger|
    ensures var tx, kept := ledger[i], Of(if kind == Executions then e.executions else e.fills, ledger[i].sig);
            kept == [] || (tx.ok && Lists(kept, tx.sig, if kind == Executions then tx.executions else tx.fills))
  {
    var kept := Of(Records(e, kind), ledger[i].sig);
    assert kept == [] || (ledger[i].ok && kept == RecordsOf(ledger[i], kind));
  }

  ghost predicate Known(ledger: seq<Tx>, sig: string) {
    exists i :: 0 <= i < |ledger| && ledger[i].sig == sig
  }

  ghost predicate IsRecorded(e: Entry, tx: Tx) {
    tx.ok ==> Of(e.executions, tx.sig) == RecordsOf(tx, Executions) && Of(e.fills, tx.sig) == RecordsOf(tx, Fills)
  }

  /** Every successful transaction at or before the cursor is recorded. */
  ghost predicate Complete(ledger: seq<Tx>, e: Entry, n: nat)
    requires n <= |ledger|
  {
    forall i :: 0 <= i < n ==> IsRecorded(e, ledger[i])
  }

  ghost predicate Sound(ledger: seq<Tx>, e: Entry, n: nat) {
    IsLedger(ledger) && CursorAt(ledger, e.lastSigSeen, n) && OnceOnly(ledger, e) && Complete(ledger, e, n)
  }

  lemma {:induction false} OfRecordsOf(records: seq<Record>, own: string, sig: string)
    requires forall i :: 0 <= i < |records| ==> records[i].sig == own
    ensures Of(records, sig) == if sig == own then records else []
  {
    if records == [] {
    } else {
      OfRecordsOf(records[1..], own, sig);
    }
  }

  lemma OfAppend(a: seq<Record>, b: seq<Record>, sig: string)
    ensures Of(a + b, sig) == Of(a, sig) + Of(b, sig)
  {
    FilterAppend(a, b, (r: Record) => r.sig == sig);
  }

  lemma DecodedStep(page: seq<Tx>, fetched: string -> bool, kind: Kind, sig: string)
    requires page != []
    ensures var tx := page[|page| - 1];
            Of(Decoded(page, fetched, kind), sig) ==
            Of(Decoded(page[..|page| - 1], fetched, kind), sig) +
            if tx.sig == sig && tx.ok && fetched(sig) then RecordsOf(tx, kind) else []
  {
    hide Of;
    var tx := page[|page| - 1];
    var added := if tx.ok && fetched(tx.sig) then RecordsOf(tx, kind) else [];
    OfAppend(Decoded(page[..|page| - 1], fetched, kind), added, sig);
    OfRecordsOf(added, tx.sig, sig);
  }

  /** The decoded records of one signature are its transaction's events. */
  lemma {:induction false} OfDecoded(page: seq<Tx>, fetched: string -> bool, kind: Kind, sig: string)
    requires IsLedger(page)
    ensures forall i :: 0 <= i < |page| && page[i].sig == sig ==>
              Of(Decoded(page, fetched, kind), sig) == if page[i].ok && fetched(sig) then RecordsOf(page[i], kind)
                else []
    ensures (forall i :: 0 <= i < |page| ==> page[i].sig != sig) ==> Of(Decoded(page, fetched, kind), sig) == []
  {
    if page == [] {
      assert Of([], sig) == [];
    } else {
      var init := page[..|page| - 1];
      DecodedStep(page, fetched, kind, sig);
      OfDecoded(init, fetched, kind, sig);
      hide Of, RecordsOf, Decoded;
      assert forall i :: 0 <= i < |init| ==> page[i] == init[i];
    }
  }

  lemma {:induction false} OfFresh(news: seq<Record>, olds: seq<Record>, sig: string)
    ensures Of(Filter(news, (r: Record) => r.sig !in Sigs(olds)), sig) == if sig in Sigs(olds) then []
            else Of(news, sig)
  {
    if news == [] {
    } else {
      OfFresh(news[1..], olds, sig);
    }
  }

  lemma OfNone(records: seq<Record>, sig: string)
    ensures sig in Sigs(records) <==> Of(records, sig) != []
  {
    if r :| r in records && r.sig == sig {
      assert r in Of(records, sig);
    }
    if Of(records, sig) != [] {
      assert Of(records, sig)[0] in Of(records, sig);
    }
  }

  lemma OfMerge(news: seq<Record>, olds: seq<Record>, sig: string)
    ensures Of(Merge(news, olds), sig) == if Of(olds, sig) != [] then Of(olds, sig) else Of(news, sig)
  {
    OfFresh(news, olds, sig);
    OfAppend(Filter(news, (r: Record) => r.sig !in Sigs(olds)), olds, sig);
    OfNone(olds, sig);
  }

  lemma PageIsLedger(ledger: seq<Tx>, n: nat)
    requires IsLedger(ledger) && n <= |ledger|
    ensures IsLedger(Page(ledger, n))
  {
  }

  /** What one refresh leaves recorded for transaction `i`. */
  lemma RefreshedRecords(ledger: seq<Tx>, e: Entry, n: nat, fetched: string -> bool, i: nat, kind: Kind)
    requires IsLedger(ledger) && n <= |ledger| && i < |ledger|
    ensures var was := Of(Records(e, kind), ledger[i].sig);
            var paged := i >= |ledger| - PageSize(ledger, n) && ledger[i].ok && fetched(ledger[i].sig);
            Of(Records(Refreshed(e, Page(ledger, n), fetched), kind), ledger[i].sig)
              == if was != [] then was else if paged then RecordsOf(ledger[i], kind) else []
  {
    var page := Page(ledger, n);
    PageIsLedger(ledger, n);
    OfDecoded(page, fetched, kind, ledger[i].sig);
    OfMerge(Decoded(page, fetched, kind), Records(e, kind), ledger[i].sig);
    if i >= |ledger| - |page| {
      assert page[|ledger| - 1 - i] == ledger[i];
    } else {
      assert forall j :: 0 <= j < |page| ==> page[j] == ledger[|ledger| - 1 - j];
    }
  }

  lemma {:induction false} DecodedSigs(page: seq<Tx>, fetched: string -> bool, kind: Kind, r: Record)
    requires r in Decoded(page, fetched, kind)
    ensures Known(page, r.sig)
  {
    var init, tx := page[..|page| - 1], page[|page| - 1];
    if r in Decoded(init, fetched, kind) {
      DecodedSigs(init, fetched, kind, r);
      var i :| 0 <= i < |init| && init[i].sig == r.sig;
      assert page[i].sig == r.sig;
    } else {
      assert page[|page| - 1].sig == r.sig;
    }
  }

  lemma RefreshedSigs(ledger: seq<Tx>, e: Entry, n: nat, fetched: string -> bool, kind: Kind, r: Record)
    requires n <= |ledger| && OnceOnly(ledger, e)
    requires r in Records(Refreshed(e, Page(ledger, n), fetched), kind)
    ensures Known(ledger, r.sig)
  {
    var page := Page(ledger, n);
    if r !in Records(e, kind) {
      assert r in Decoded(page, fetched, kind);
      DecodedSigs(page, fetched, kind, r);
      var i :| 0 <= i < |page| && page[i].sig == r.sig;
      assert ledger[|ledger| - 1 - i].sig == r.sig;
    }
  }

  /** What one refresh makes of a transaction on its page: its events, in log order. */
  lemma RefreshRecordsEvents(ledger: seq<Tx>, e: Entry, n: nat, fetched: string -> bool, i: nat)
    requires IsLedger(ledger) && n <= i < |ledger| && i >= |ledger| - 1000 && ledger[i].ok && fetched(ledger[i].sig)
    requires forall r :: r in e.executions || r in e.fills ==> r.sig != ledger[i].sig
    ensures HasEvents(Refreshed(e, Page(ledger, n), fetched), ledger[i])
  {
    hide Refreshed, Page;
    OfNone(e.executions, ledger[i].sig);
    OfNone(e.fills, ledger[i].sig);
    RefreshedRecords(ledger, e, n, fetched, i, Executions);
    RefreshedRecords(ledger, e, n, fetched, i, Fills);
    RecordedMeans(Refreshed(e, Page(ledger, n), fetched), ledger[i]);
  }

  /** Nothing is ever recorded twice, whichever fetches fail and however the
      page is cut. */
  lemma RefreshKeepsOnce(ledger: seq<Tx>, e: Entry, n: nat, fetched: string -> bool)
    requires IsLedger(ledger) && n <= |ledger| && OnceOnly(ledger, e)
    ensures OnceOnly(ledger, Refreshed(e, Page(ledger, n), fetched))
  {
    var e' := Refreshed(e, Page(ledger, n), fetched);
    forall i, kind | 0 <= i < |ledger|
      ensures Of(Records(e', kind), ledger[i].sig) == [] ||
              (ledger[i].ok && Of(Records(e', kind), ledger[i].sig) == RecordsOf(ledger[i], kind))
    {
      RefreshedRecords(ledger, e, n, fetched, i, kind);
    }
    forall r, kind | r in Records(e', kind)
      ensures Known(ledger, r.sig)
    {
      RefreshedSigs(ledger, e, n, fetched, kind, r);
    }
  }

  /** Position of the cursor after a refresh. */
  function NewCursor(ledger: seq<Tx>, n: nat, fetched: string -> bool): nat
    requires n <= |ledger|
  {
    if Page(ledger, n) != [] && AllFetched(Page(ledger, n), fetched) then |ledger| else n
  }

  /** What the page limit cut off: newer than the cursor, older than the page. */
  ghost predicate CutOffRecorded(ledger: seq<Tx>, e: Entry, n: nat)
    requires n <= |ledger|
  {
    forall i :: n <= i < |ledger| - PageSize(ledger, n) ==> IsRecorded(e, ledger[i])
  }

  lemma RefreshedIsRecorded(ledger: seq<Tx>, e: Entry, n: nat, fetched: string -> bool, i: nat)
    requires Sound(ledger, e, n) && i < |ledger|
    ensures var e' := Refreshed(e, Page(ledger, n), fetched);
            && (IsRecorded(e, ledger[i]) ==> IsRecorded(e', ledger[i]))
            && (i < |ledger| - PageSize(ledger, n) ==> (IsRecorded(e', ledger[i]) <==> IsRecorded(e, ledger[i])))
            && (i >= |ledger| - PageSize(ledger, n) && (ledger[i].ok ==> fetched(ledger[i].sig)) ==>
                IsRecorded(e', ledger[i]))
  {
    RefreshedRecords(ledger, e, n, fetched, i, Executions);
    RefreshedRecords(ledger, e, n, fetched, i, Fills);
    assert Of(Records(e, Executions), ledger[i].sig) == [] ||
      Of(Records(e, Executions), ledger[i].sig) == RecordsOf(ledger[i], Executions);
    assert Of(Records(e, Fills), ledger[i].sig) == [] ||
      Of(Records(e, Fills), ledger[i].sig) == RecordsOf(ledger[i], Fills);
  }

  lemma CursorAfterRefresh(ledger: seq<Tx>, e: Entry, n: nat, fetched: string -> bool)
    requires CursorAt(ledger, e.lastSigSeen, n)
    ensures CursorAt(ledger, Refreshed(e, Page(ledger, n), fetched).lastSigSeen, NewCursor(ledger, n, fetched))
  {
    hide Merge, Decoded;
    var page := Page(ledger, n);
    if page != [] {
      assert page[0] == ledger[|ledger| - 1];
    }
  }

  /** Completeness up to the new cursor survives a refresh exactly when the
      cursor stays or nothing unrecorded was cut off the page. */
  lemma RefreshCompleteIff(ledger: seq<Tx>, e: Entry, n: nat, fetched: string -> bool)
    requires Sound(ledger, e, n)
    ensures var n' := NewCursor(ledger, n, fetched);
            Complete(ledger, Refreshed(e, Page(ledger, n), fetched), n') <==> n' == n || CutOffRecorded(ledger, e, n)
  {
    hide IsRecorded, OnceOnly, Refreshed, IsLedger;
    var page := Page(ledger, n);
    var e' := Refreshed(e, page, fetched);
    var n' := NewCursor(ledger, n, fetched);
    forall i: nat | i < |ledger|
      ensures IsRecorded(e, ledger[i]) ==> IsRecorded(e', ledger[i])
      ensures i < |ledger| - |page| ==> (IsRecorded(e', ledger[i]) <==> IsRecorded(e, ledger[i]))
      ensures i >= |ledger| - |page| && n' != n ==> IsRecorded(e', ledger[i])
    {
      RefreshedIsRecorded(ledger, e, n, fetched, i);
      if i >= |ledger| - |page| && n' != n {
        assert page[|ledger| - 1 - i] == ledger[i];
      }
    }
  }

  // ---- every run --------------------------------------------------------------------

  datatype Act = Grow(txs: seq<Tx>) | Tick(terminal: bool, fetched: string -> bool)

  datatype World = World(ledger: seq<Tx>, entry: Entry)

  /** Where the node finds the cursor. */
  function CursorIndex(ledger: seq<Tx>, cursor: Option<string>): (n: nat)
    ensures n <= |ledger|
  {
    if cursor.None? || ledger == [] then 0
    else if ledger[|ledger| - 1].sig == cursor.value then |ledger|
    else CursorIndex(ledger[..|ledger| - 1], cursor)
  }

  function Do(w: World, act: Act): World {
    match act
    case Grow(txs) => w.(ledger := w.ledger + txs)
    case Tick(terminal, fetched) =>
      if Skipped(w.entry, terminal) then w
      else w.(entry := Refreshed(w.entry, Page(w.ledger, CursorIndex(w.ledger, w.entry.lastSigSeen)), fetched))
  }

  function RunFrom(w: World, acts: seq<Act>): World {
    if acts == [] then w
    else Do(RunFrom(w, acts[..|acts| - 1]), acts[|acts| - 1])
  }

  function Run(acts: seq<Act>): World {
    RunFrom(World([], Entry(None, [], [])), acts)
  }

  /** No refresh finds more new signatures than fit a page. */
  ghost predicate NeverCut(acts: seq<Act>) {
    forall i :: 0 <= i < |acts| && acts[i].Tick? ==>
      var w := Run(acts[..i]);
      |w.ledger| - CursorIndex(w.ledger, w.entry.lastSigSeen) <= 1000
  }

  lemma {:induction false} CursorIndexFinds(ledger: seq<Tx>, cursor: Option<string>, n: nat)
    requires IsLedger(ledger) && CursorAt(ledger, cursor, n)
    ensures CursorIndex(ledger, cursor) == n
  {
    if cursor.None? || n == |ledger| {
    } else {
      assert ledger[n - 1].sig != ledger[|ledger| - 1].sig;
      CursorIndexFinds(ledger[..|ledger| - 1], cursor, n);
    }
  }

  lemma UnknownHasNone(ledger: seq<Tx>, e: Entry, kind: Kind, sig: string)
    requires OnceOnly(ledger, e) && !Known(ledger, sig)
    ensures Of(Records(e, kind), sig) == []
  {
    OfNone(Records(e, kind), sig);
  }

  lemma GrowKeepsOnce(ledger: seq<Tx>, txs: seq<Tx>, e: Entry)
    requires IsLedger(ledger + txs) && OnceOnly(ledger, e)
    ensures OnceOnly(ledger + txs, e)
  {
    var all := ledger + txs;
    forall i, kind | 0 <= i < |all|
      ensures Of(Records(e, kind), all[i].sig) == [] ||
              (all[i].ok && Of(Records(e, kind), all[i].sig) == RecordsOf(all[i], kind))
    {
      if i >= |ledger| {
        assert forall j :: 0 <= j < |ledger| ==> ledger[j].sig == all[j].sig;
        UnknownHasNone(ledger, e, kind, all[i].sig);
      } else {
        assert all[i] == ledger[i];
      }
    }
    forall r, kind | r in Records(e, kind)
      ensures Known(all, r.sig)
    {
      assert Known(ledger, r.sig);
      var j :| 0 <= j < |ledger| && ledger[j].sig == r.sig;
      assert all[j].sig == r.sig;
    }
  }

  lemma PrefixIsLedger(ledger: seq<Tx>, txs: seq<Tx>)
    requires IsLedger(ledger + txs)
    ensures IsLedger(ledger)
  {
    assert forall i :: 0 <= i < |ledger| ==> (ledger + txs)[i] == ledger[i];
  }

  lemma GrowKeepsSound(ledger: seq<Tx>, txs: seq<Tx>, e: Entry, n: nat)
    requires IsLedger(ledger + txs) && Sound(ledger, e, n)
    ensures Sound(ledger + txs, e, n)
  {
    GrowKeepsOnce(ledger, txs, e);
    assert forall i :: 0 <= i < |ledger| ==> (ledger + txs)[i] == ledger[i];
  }

  lemma TickKeepsSound(w: World, terminal: bool, fetched: string -> bool, n: nat) returns (n': nat)
    requires Sound(w.ledger, w.entry, n) && |w.ledger| - n <= SIG_PAGE_LIMIT
    ensures Sound(w.ledger, Do(w, Tick(terminal, fetched)).entry, n')
  {
    CursorIndexFinds(w.ledger, w.entry.lastSigSeen, n);
    if Skipped(w.entry, terminal) {
      n' := n;
    } else {
      n' := NewCursor(w.ledger, n, fetched);
      RefreshKeepsOnce(w.ledger, w.entry, n, fetched);
      RefreshCompleteIff(w.ledger, w.entry, n, fetched);
      CursorAfterRefresh(w.ledger, w.entry, n, fetched);
    }
  }

  lemma NothingRecorded()
    ensures Sound([], Entry(None, [], []), 0)
  {
  }

  /** No run ever records a signature's events twice. */
  lemma {:induction false} NeverTwice(acts: seq<Act>)
    requires IsLedger(Run(acts).ledger)
    ensures OnceOnly(Run(acts).ledger, Run(acts).entry)
    ensures forall i :: 0 <= i < |Run(acts).ledger| ==> AllOrNone(Run(acts).entry, Run(acts).ledger[i])
  {
    hide AllOrNone;
    if acts == [] {
      NothingRecorded();
    } else {
      var w, act := Run(acts[..|acts| - 1]), acts[|acts| - 1];
      match act
      case Grow(txs) =>
        PrefixIsLedger(w.ledger, txs);
        NeverTwice(acts[..|acts| - 1]);
        GrowKeepsOnce(w.ledger, txs, w.entry);
      case Tick(terminal, fetched) =>
        NeverTwice(acts[..|acts| - 1]);
        if !Skipped(w.entry, terminal) {
          RefreshKeepsOnce(w.ledger, w.entry, CursorIndex(w.ledger, w.entry.lastSigSeen), fetched);
        }
    }
    OnceMeans(Run(acts).ledger, Run(acts).entry);
  }

  /** With pages never cut, every successful signature at or before the cursor
      has all its events recorded, exactly once. */
  lemma {:induction false} ExactlyOnce(acts: seq<Act>) returns (n: nat)
    requires IsLedger(Run(acts).ledger) && NeverCut(acts)
    ensures Sound(Run(acts).ledger, Run(acts).entry, n)
    ensures forall i :: 0 <= i < n && Run(acts).ledger[i].ok ==> HasEvents(Run(acts).entry, Run(acts).ledger[i])
  {
    hide HasEvents;
    if acts == [] {
      NothingRecorded();
      n := 0;
    } else {
      var init := acts[..|acts| - 1];
      var w, act := Run(init), acts[|acts| - 1];
      if act.Grow? { PrefixIsLedger(w.ledger, act.txs); }
      assert forall i :: 0 <= i < |init| ==> init[..i] == acts[..i] && init[i] == acts[i];
      n := ExactlyOnce(init);
      match act
      case Grow(txs) => GrowKeepsSound(w.ledger, txs, w.entry, n);
      case Tick(terminal, fetched) =>
        CursorIndexFinds(w.ledger, w.entry.lastSigSeen, n);
        n := TickKeepsSound(w, terminal, fetched, n);
    }
    forall i | 0 <= i < n && Run(acts).ledger[i].ok
      ensures HasEvents(Run(acts).entry, Run(acts).ledger[i])
    {
      RecordedMeans(Run(acts).entry, Run(acts).ledger[i]);
    }
  }

  // ---- the order of the records ---------------------------------------------------

  /** The first `n` transactions, newest first. */
  function Newest(ledger: seq<Tx>, n: nat): (r: seq<Tx>)
    requires n <= |ledger|
    ensures |r| == n && forall i :: 0 <= i < n ==> r[i] == ledger[n - 1 - i]
  {
    seq(n, i requires 0 <= i < n => ledger[n - 1 - i])
  }

  predicate Always(sig: string) { true }

  /** The whole history up to the cursor, newest transaction first. */
  function FullHistory(ledger: seq<Tx>, n: nat, kind: Kind): seq<Record>
    requires n <= |ledger|
  {
    Decoded(Newest(ledger, n), Always, kind)
  }

  lemma DecodedNothing(kind: Kind)
    ensures Decoded([], Always, kind) == []
  {
  }

  lemma DecodedLast(page: seq<Tx>, kind: Kind)
    requires page != []
    ensures var tx := page[|page| - 1];
            Decoded(page, Always, kind) ==
              Decoded(page[..|page| - 1], Always, kind) + if tx.ok then RecordsOf(tx, kind) else []
  {
  }

  lemma {:induction false} DecodedAppend(a: seq<Tx>, b: seq<Tx>, kind: Kind)
    ensures Decoded(a + b, Always, kind) == Decoded(a, Always, kind) + Decoded(b, Always, kind)
  {
    hide Decoded, RecordsOf;
    if b == [] {
      assert a + b == a;
      DecodedNothing(kind);
    } else {
      var init := b[..|b| - 1];
      assert (a + b)[..|a + b| - 1] == a + init && (a + b)[|a + b| - 1] == b[|b| - 1];
      DecodedAppend(a, init, kind);
      DecodedLast(a + b, kind);
      DecodedLast(b, kind);
    }
  }

  lemma {:induction false} DecodedAllFetched(page: seq<Tx>, fetched: string -> bool, kind: Kind)
    requires AllFetched(page, fetched)
    ensures Decoded(page, fetched, kind) == Decoded(page, Always, kind)
  {
    if page == [] {
    } else {
      var init := page[..|page| - 1];
      assert forall i :: 0 <= i < |init| ==> init[i] == page[i];
      DecodedAllFetched(init, fetched, kind);
    }
  }

  lemma {:induction false} FilterAll(s: seq<Record>, p: Record -> bool)
    requires forall r :: r in s ==> p(r)
    ensures Filter(s, p) == s
  {
    if s == [] {
    } else {
      FilterAll(s[1..], p);
    }
  }

  /** Records of transactions past the cursor belong to no signature recorded. */
  lemma MergePutsInFront(ledger: seq<Tx>, n: nat, page: seq<Tx>, kind: Kind)
    requires IsLedger(ledger) && n <= |ledger|
    requires forall i :: 0 <= i < |page| ==> exists j :: n <= j < |ledger| && page[i] == ledger[j]
    ensures var news, olds := Decoded(page, Always, kind), FullHistory(ledger, n, kind);
            Merge(news, olds) == news + olds
  {
    var news, olds := Decoded(page, Always, kind), FullHistory(ledger, n, kind);
    forall r | r in news
      ensures r.sig !in Sigs(olds)
    {
      DecodedSigs(page, Always, kind, r);
      var i :| 0 <= i < |page| && page[i].sig == r.sig;
      if o :| o in olds && o.sig == r.sig {
        DecodedSigs(Newest(ledger, n), Always, kind, o);
      }
    }
    FilterAll(news, (r: Record) => r.sig !in Sigs(olds));
  }

  /** The history, one transaction at a time: what the next newer one holds, in log order, goes in front. */
  lemma HistoryUnfolds(ledger: seq<Tx>, n: nat, kind: Kind) returns (own: seq<Record>)
    requires n < |ledger|
    ensures FullHistory(ledger, 0, kind) == [] && FullHistory(ledger, n + 1, kind) == own + FullHistory(ledger, n, kind)
    ensures var tx := ledger[n];
            if tx.ok then Lists(own, tx.sig, if kind == Executions then tx.executions else tx.fills) else own == []
  {
    own := Decoded([ledger[n]], Always, kind);
    assert Newest(ledger, n + 1) == [ledger[n]] + Newest(ledger, n);
    DecodedAppend([ledger[n]], Newest(ledger, n), kind);
    DecodedNothing(kind);
    DecodedLast([ledger[n]], kind);
  }

  ghost predicate InOrder(ledger: seq<Tx>, e: Entry, n: nat) {
    CursorAt(ledger, e.lastSigSeen, n) && forall kind :: Records(e, kind) == FullHistory(ledger, n, kind)
  }

  lemma KindsInOrder(ledger: seq<Tx>, e: Entry, n: nat)
    requires InOrder(ledger, e, n)
    ensures n <= |ledger| && e.executions == FullHistory(ledger, n, Executions)
    ensures e.fills == FullHistory(ledger, n, Fills)
  {
    assert Records(e, Executions) == FullHistory(ledger, n, Executions);
    assert Records(e, Fills) == FullHistory(ledger, n, Fills);
  }

  lemma TickKeepsOrder(ledger: seq<Tx>, e: Entry, n: nat, fetched: string -> bool)
    requires IsLedger(ledger) && InOrder(ledger, e, n) && |ledger| - n <= SIG_PAGE_LIMIT
    requires AllFetched(Page(ledger, n), fetched)
    ensures InOrder(ledger, Refreshed(e, Page(ledger, n), fetched), NewCursor(ledger, n, fetched))
  {
    hide IsLedger, Merge, Decoded;
    var page := Page(ledger, n);
    CursorAfterRefresh(ledger, e, n, fetched);
    forall kind | page != []
      ensures Records(Refreshed(e, page, fetched), kind) == FullHistory(ledger, |ledger|, kind)
    {
      DecodedAllFetched(page, fetched, kind);
      MergePutsInFront(ledger, n, page, kind);
      DecodedAppend(page, Newest(ledger, n), kind);
      assert page + Newest(ledger, n) == Newest(ledger, |ledger|);
    }
  }

  lemma GrowKeepsOrder(ledger: seq<Tx>, txs: seq<Tx>, e: Entry, n: nat)
    requires InOrder(ledger, e, n)
    ensures InOrder(ledger + txs, e, n)
  {
    assert Newest(ledger + txs, n) == Newest(ledger, n);
  }

  /** No refresh misses a transaction it asked for. */
  ghost predicate NeverFails(acts: seq<Act>) {
    forall i :: 0 <= i < |acts| && acts[i].Tick? ==>
      var w := Run(acts[..i]);
      AllFetched(Page(w.ledger, CursorIndex(w.ledger, w.entry.lastSigSeen)), acts[i].fetched)
  }

  /** Without failures and cuts the records are the whole history up to the
      cursor, newest transaction first, each one's events in log order. */
  lemma {:induction false} NewestFirst(acts: seq<Act>) returns (n: nat)
    requires IsLedger(Run(acts).ledger) && NeverCut(acts) && NeverFails(acts)
    ensures InOrder(Run(acts).ledger, Run(acts).entry, n)
    ensures n <= |Run(acts).ledger| && Run(acts).entry.executions == FullHistory(Run(acts).ledger, n, Executions)
    ensures Run(acts).entry.fills == FullHistory(Run(acts).ledger, n, Fills)
  {
    if acts == [] {
      n := 0;
      assert forall kind :: Records(Entry(None, [], []), kind) == [];
    } else {
      var init := acts[..|acts| - 1];
      var w, act := Run(init), acts[|acts| - 1];
      if act.Grow? { PrefixIsLedger(w.ledger, act.txs); }
      assert forall i :: 0 <= i < |init| ==> init[..i] == acts[..i] && init[i] == acts[i];
      n := NewestFirst(init);
      match act
      case Grow(txs) => GrowKeepsOrder(w.ledger, txs, w.entry, n);
      case Tick(terminal, fetched) =>
        CursorIndexFinds(w.ledger, w.entry.lastSigSeen, n);
        if !Skipped(w.entry, terminal) {
          TickKeepsOrder(w.ledger, w.entry, n, fetched);
          n := NewCursor(w.ledger, n, fetched);
        }
    }
    KindsInOrder(Run(acts).ledger, Run(acts).entry, n);
  }
}
