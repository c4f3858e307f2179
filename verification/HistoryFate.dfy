/** What becomes of the history in the long run: when it catches up, and when a
    transaction is lost for good (src/hooks/useAutomationFills.ts). */
module HistoryFate {
  import opened Common
  import opened History

  // ---- catching up ----------------------------------------------------------------

  /** A refresh that is not skipped, not cut and misses nothing. */
  ghost predicate Succeeds(w: World, terminal: bool, fetched: string -> bool) {
    var n := CursorIndex(w.ledger, w.entry.lastSigSeen);
    !Skipped(w.entry, terminal) && |w.ledger| - n <= SIG_PAGE_LIMIT && AllFetched(Page(w.ledger, n), fetched)
  }

  lemma SuccessIsSound(w: World, n: nat, terminal: bool, fetched: string -> bool)
    requires Sound(w.ledger, w.entry, n) && Succeeds(w, terminal, fetched)
    ensures Sound(w.ledger, Do(w, Tick(terminal, fetched)).entry, |w.ledger|)
  {
    hide IsRecorded, Refreshed, OnceOnly, IsLedger, Page;
    assert IsLedger(w.ledger);
    CursorIndexFinds(w.ledger, w.entry.lastSigSeen, n);
    RefreshKeepsOnce(w.ledger, w.entry, n, fetched);
    RefreshCompleteIff(w.ledger, w.entry, n, fetched);
    CursorAfterRefresh(w.ledger, w.entry, n, fetched);
    PageAtEnd(w.ledger, n);
  }

  lemma PageAtEnd(ledger: seq<Tx>, n: nat)
    requires n <= |ledger|
    ensures Page(ledger, n) == [] <==> n == |ledger|
  {
  }

  /** After any run whose pages are never cut, one successful refresh brings the
      cursor to the newest transaction, with everything recorded once. */
  lemma CatchesUp(acts: seq<Act>, terminal: bool, fetched: string -> bool)
    requires IsLedger(Run(acts).ledger) && NeverCut(acts) && Succeeds(Run(acts), terminal, fetched)
    ensures var w := Run(acts + [Tick(terminal, fetched)]);
            w.ledger == Run(acts).ledger && Sound(w.ledger, w.entry, |w.ledger|)
  {
    var n := ExactlyOnce(acts);
    SuccessIsSound(Run(acts), n, terminal, fetched);
    assert (acts + [Tick(terminal, fetched)])[..|acts|] == acts;
  }

  /** If no refresh ever failed, the records are then the whole history, newest first. */
  lemma CatchesUpInOrder(acts: seq<Act>, terminal: bool, fetched: string -> bool)
    requires IsLedger(Run(acts).ledger) && NeverCut(acts) && NeverFails(acts) && Succeeds(Run(acts), terminal, fetched)
    ensures var w := Run(acts + [Tick(terminal, fetched)]);
            w.ledger == Run(acts).ledger && InOrder(w.ledger, w.entry, |w.ledger|)
  {
    hide IsLedger, InOrder, Refreshed;
    var n := NewestFirst(acts);
    var w := Run(acts);
    InOrderCursor(w.ledger, w.entry, n);
    CursorIndexFinds(w.ledger, w.entry.lastSigSeen, n);
    TickKeepsOrder(w.ledger, w.entry, n, fetched);
    PageAtEnd(w.ledger, n);
    assert (acts + [Tick(terminal, fetched)])[..|acts|] == acts;
  }

  lemma InOrderCursor(ledger: seq<Tx>, e: Entry, n: nat)
    requires InOrder(ledger, e, n)
    ensures CursorAt(ledger, e.lastSigSeen, n)
  {
  }

  // ---- what never changes ------------------------------------------------------------

  lemma {:induction false} LedgerGrows(w: World, more: seq<Act>)
    ensures w.ledger <= RunFrom(w, more).ledger
  {
    if more == [] {
    } else {
      LedgerGrows(w, more[..|more| - 1]);
    }
  }

  /** One step keeps what is recorded once recorded once, and cannot record a
      transaction behind the cursor. */
  lemma StepBehindCursor(w: World, act: Act, n: nat, i: nat) returns (n': nat)
    requires IsLedger(Do(w, act).ledger) && OnceOnly(w.ledger, w.entry)
    requires CursorAt(w.ledger, w.entry.lastSigSeen, n) && i < n
    ensures OnceOnly(Do(w, act).ledger, Do(w, act).entry)
    ensures CursorAt(Do(w, act).ledger, Do(w, act).entry.lastSigSeen, n') && i < n'
    ensures IsRecorded(Do(w, act).entry, w.ledger[i]) <==> IsRecorded(w.entry, w.ledger[i])
  {
    hide IsLedger, OnceOnly, Refreshed;
    n' := n;
    match act
    case Grow(txs) =>
      PrefixIsLedger(w.ledger, txs);
      GrowKeepsOnce(w.ledger, txs, w.entry);
    case Tick(terminal, fetched) =>
      CursorIndexFinds(w.ledger, w.entry.lastSigSeen, n);
      if !Skipped(w.entry, terminal) {
        RefreshKeepsOnce(w.ledger, w.entry, n, fetched);
        CursorAfterRefresh(w.ledger, w.entry, n, fetched);
        n' := NewCursor(w.ledger, n, fetched);
        RefreshedRecords(w.ledger, w.entry, n, fetched, i, Executions);
        RefreshedRecords(w.ledger, w.entry, n, fetched, i, Fills);
      }
  }

  /** A transaction behind the cursor is recorded for ever or lost for ever. */
  lemma {:induction false} FateBehindCursor(w: World, more: seq<Act>, n: nat, i: nat) returns (n': nat)
    requires IsLedger(RunFrom(w, more).ledger) && OnceOnly(w.ledger, w.entry)
    requires CursorAt(w.ledger, w.entry.lastSigSeen, n) && i < n
    ensures var w' := RunFrom(w, more);
            && OnceOnly(w'.ledger, w'.entry) && CursorAt(w'.ledger, w'.entry.lastSigSeen, n') && i < n'
            && w'.ledger[i] == w.ledger[i]
            && (IsRecorded(w'.entry, w.ledger[i]) <==> IsRecorded(w.entry, w.ledger[i]))
  {
    if more == [] {
      n' := n;
    } else {
      var init, act := more[..|more| - 1], more[|more| - 1];
      var before := RunFrom(w, init);
      if act.Grow? { PrefixIsLedger(before.ledger, act.txs); }
      var m := FateBehindCursor(w, init, n, i);
      n' := StepBehindCursor(before, act, m, i);
    }
  }

  /** The automation is terminal at every refresh; transactions may still arrive. */
  ghost predicate TerminalTicks(more: seq<Act>) {
    forall i :: 0 <= i < |more| && more[i].Tick? ==> more[i].terminal
  }

  /** Once a terminal automation is skipped its history does not change any more. */
  lemma {:induction false} SkippedForGood(w: World, more: seq<Act>)
    requires Skipped(w.entry, true) && TerminalTicks(more)
    ensures RunFrom(w, more).entry == w.entry
  {
    if more == [] {
    } else {
      SkippedForGood(w, more[..|more| - 1]);
    }
  }

  // ---- a terminal automation's history ----------------------------------------------

  ghost predicate FullyRecorded(w: World) {
    Complete(w.ledger, w.entry, |w.ledger|)
  }

  /** A possible continuation of a terminal automation. */
  ghost predicate Continues(w: World, more: seq<Act>) {
    TerminalTicks(more) && IsLedger(RunFrom(w, more).ledger)
  }

  /** Some of the transactions there are stay unrecorded whatever comes. */
  ghost predicate LostForGood(w: World) {
    forall more :: Continues(w, more) ==> !Complete(w.ledger, RunFrom(w, more).entry, |w.ledger|)
  }

  /** All the transactions there are stay recorded whatever comes. */
  ghost predicate SafeForGood(w: World) {
    forall more :: Continues(w, more) ==> Complete(w.ledger, RunFrom(w, more).entry, |w.ledger|)
  }

  /** Incomplete for ever exactly when incomplete and skipped. */
  lemma LostIffSkipped(w: World, n: nat)
    requires Sound(w.ledger, w.entry, n) && |w.ledger| - n <= SIG_PAGE_LIMIT
    ensures LostForGood(w) <==> !FullyRecorded(w) && Skipped(w.entry, true)
  {
    hide IsRecorded, Refreshed;
    assert Continues(w, []) && RunFrom(w, []) == w;
    if Skipped(w.entry, true) {
      forall more | Continues(w, more)
        ensures RunFrom(w, more).entry == w.entry
      {
        SkippedForGood(w, more);
      }
    } else {
      CursorIndexFinds(w.ledger, w.entry.lastSigSeen, n);
      var good := [Tick(true, Always)];
      SuccessIsSound(w, n, true, Always);
      assert good[..0] == [] && RunFrom(w, good) == Do(w, good[0]);
      assert Continues(w, good);
    }
  }

  /** The refresh fails to fetch a transaction with events not yet recorded. */
  ghost predicate Misses(w: World, n: nat, fetched: string -> bool) {
    exists i :: n <= i < |w.ledger| && w.ledger[i].ok && !fetched(w.ledger[i].sig) && !IsRecorded(w.entry, w.ledger[i])
  }

  /** The refresh brings in an execution. */
  ghost predicate BringsExecution(w: World, n: nat, fetched: string -> bool) {
    exists i :: n <= i < |w.ledger| && w.ledger[i].ok && fetched(w.ledger[i].sig) && w.ledger[i].executions != []
  }

  /** A refresh of a terminal automation loses part of its history for good
      exactly when it misses something and brings in an execution. */
  lemma TickLosesIff(w: World, n: nat, fetched: string -> bool)
    requires Sound(w.ledger, w.entry, n) && |w.ledger| - n <= SIG_PAGE_LIMIT && !Skipped(w.entry, true)
    ensures LostForGood(Do(w, Tick(true, fetched))) <==> Misses(w, n, fetched) && BringsExecution(w, n, fetched)
  {
    hide Sound, LostForGood, FullyRecorded, Misses, BringsExecution;
    SoundCursor(w.ledger, w.entry, n);
    CursorIndexFinds(w.ledger, w.entry.lastSigSeen, n);
    var w' := Do(w, Tick(true, fetched));
    RecordedAfter(w, n, fetched);
    SkippedAfter(w, n, fetched);
    var n' := SoundAfter(w, n, fetched);
    LostIffSkipped(w', n');
  }

  lemma SoundCursor(ledger: seq<Tx>, e: Entry, n: nat)
    requires Sound(ledger, e, n)
    ensures IsLedger(ledger) && CursorAt(ledger, e.lastSigSeen, n)
  {
  }

  lemma SoundAfter(w: World, n: nat, fetched: string -> bool) returns (n': nat)
    requires Sound(w.ledger, w.entry, n) && |w.ledger| - n <= SIG_PAGE_LIMIT && !Skipped(w.entry, true)
    ensures n <= n' && Sound(w.ledger, Do(w, Tick(true, fetched)).entry, n')
  {
    hide IsRecorded, Refreshed, OnceOnly, IsLedger, Page;
    assert IsLedger(w.ledger);
    CursorIndexFinds(w.ledger, w.entry.lastSigSeen, n);
    n' := NewCursor(w.ledger, n, fetched);
    RefreshKeepsOnce(w.ledger, w.entry, n, fetched);
    RefreshCompleteIff(w.ledger, w.entry, n, fetched);
    CursorAfterRefresh(w.ledger, w.entry, n, fetched);
  }

  lemma RecordedAfter(w: World, n: nat, fetched: string -> bool)
    requires Sound(w.ledger, w.entry, n) && |w.ledger| - n <= SIG_PAGE_LIMIT && !Skipped(w.entry, true)
    requires CursorIndex(w.ledger, w.entry.lastSigSeen) == n
    ensures FullyRecorded(Do(w, Tick(true, fetched))) <==> !Misses(w, n, fetched)
  {
    hide Refreshed;
    var w' := Do(w, Tick(true, fetched));
    forall i: nat | i < |w.ledger|
      ensures IsRecorded(w'.entry, w.ledger[i]) <==>
              i < n || !w.ledger[i].ok || fetched(w.ledger[i].sig) || IsRecorded(w.entry, w.ledger[i])
    {
      RefreshedIsRecorded(w.ledger, w.entry, n, fetched, i);
      RefreshedRecords(w.ledger, w.entry, n, fetched, i, Executions);
      RefreshedRecords(w.ledger, w.entry, n, fetched, i, Fills);
    }
  }

  lemma SkippedAfter(w: World, n: nat, fetched: string -> bool)
    requires Sound(w.ledger, w.entry, n) && |w.ledger| - n <= SIG_PAGE_LIMIT && !Skipped(w.entry, true)
    requires CursorIndex(w.ledger, w.entry.lastSigSeen) == n
    ensures Skipped(Do(w, Tick(true, fetched)).entry, true) <==> BringsExecution(w, n, fetched)
  {
    hide Refreshed;
    var e' := Refreshed(w.entry, Page(w.ledger, n), fetched);
    assert Do(w, Tick(true, fetched)).entry == e';
    assert w.entry.executions == [];
    if i :| n <= i < |w.ledger| && w.ledger[i].ok && fetched(w.ledger[i].sig) && w.ledger[i].executions != [] {
      RefreshedRecords(w.ledger, w.entry, n, fetched, i, Executions);
      assert |Of(e'.executions, w.ledger[i].sig)| > 0;
    }
    if e'.executions != [] {
      var r := e'.executions[0];
      RefreshKeepsOnce(w.ledger, w.entry, n, fetched);
      assert r in Records(e', Executions);
      var i :| 0 <= i < |w.ledger| && w.ledger[i].sig == r.sig;
      RefreshedRecords(w.ledger, w.entry, n, fetched, i, Executions);
      OfNone(e'.executions, r.sig);
      OfNone(w.entry.executions, r.sig);
    }
  }

  /** What is recorded stays recorded. */
  lemma {:induction false} RecordedForGood(w: World, more: seq<Act>, i: nat)
    requires IsLedger(RunFrom(w, more).ledger) && i < |w.ledger| && IsRecorded(w.entry, w.ledger[i])
    ensures i < |RunFrom(w, more).ledger| && RunFrom(w, more).ledger[i] == w.ledger[i]
    ensures IsRecorded(RunFrom(w, more).entry, w.ledger[i])
  {
    hide Refreshed;
    if more == [] {
    } else {
      var init, act := more[..|more| - 1], more[|more| - 1];
      var before := RunFrom(w, init);
      if act.Grow? { PrefixIsLedger(before.ledger, act.txs); }
      RecordedForGood(w, init, i);
      if act.Tick? && !Skipped(before.entry, act.terminal) {
        var n := CursorIndex(before.ledger, before.entry.lastSigSeen);
        RefreshedRecords(before.ledger, before.entry, n, act.fetched, i, Executions);
        RefreshedRecords(before.ledger, before.entry, n, act.fetched, i, Fills);
      }
    }
  }

  lemma CompleteForGood(w: World, more: seq<Act>)
    requires FullyRecorded(w) && Continues(w, more)
    ensures Complete(w.ledger, RunFrom(w, more).entry, |w.ledger|)
  {
    hide IsRecorded;
    forall i: nat | i < |w.ledger|
      ensures IsRecorded(RunFrom(w, more).entry, w.ledger[i])
    {
      RecordedForGood(w, more, i);
    }
  }

  /** A refresh of a terminal automation leaves its history complete for ever
      exactly when it misses nothing. */
  lemma TickCompletesIff(w: World, n: nat, fetched: string -> bool)
    requires Sound(w.ledger, w.entry, n) && |w.ledger| - n <= SIG_PAGE_LIMIT && !Skipped(w.entry, true)
    ensures SafeForGood(Do(w, Tick(true, fetched))) <==> !Misses(w, n, fetched)
  {
    hide Misses, Refreshed, Do, IsRecorded, OnceOnly;
    SoundCursor(w.ledger, w.entry, n);
    CursorIndexFinds(w.ledger, w.entry.lastSigSeen, n);
    RecordedAfter(w, n, fetched);
    TickLedger(w, true, fetched);
    var w' := Do(w, Tick(true, fetched));
    assert Continues(w', []) && RunFrom(w', []) == w';
    if FullyRecorded(w') {
      forall more | Continues(w', more)
        ensures Complete(w'.ledger, RunFrom(w', more).entry, |w'.ledger|)
      {
        CompleteForGood(w', more);
      }
    }
  }

  // ---- witnesses ----------------------------------------------------------------------

  /** Two executions, the older one's fetch fails once: it is never recorded. */
  lemma TerminalHistoryLost() returns (acts: seq<Act>)
    ensures IsLedger(Run(acts).ledger) && NeverCut(acts)
    ensures Skipped(Run(acts).entry, true) && LostForGood(Run(acts))
  {
    hide IsRecorded, Refreshed, RunFrom, Do, LostForGood, Sound;
    var txs := [Tx("a", true, [1], []), Tx("b", true, [2], [])];
    var fetched := (sig: string) => sig == "b";
    acts := [Grow(txs), Tick(true, fetched)];
    var w0 := World(txs, Entry(None, [], []));
    FirstRefresh(txs, true, fetched);
    FirstCursor(txs);
    NothingYet(txs);
    NotYetRecorded(txs[0]);
    assert txs[0].sig != txs[1].sig;
    assert Misses(w0, 0, fetched) && BringsExecution(w0, 0, fetched);
    TickLosesIff(w0, 0, fetched);
    SkippedAfter(w0, 0, fetched);
    TickLedger(w0, true, fetched);
  }

  lemma TickLedger(w: World, terminal: bool, fetched: string -> bool)
    ensures Do(w, Tick(terminal, fetched)).ledger == w.ledger
  {
  }

  lemma NotYetRecorded(tx: Tx)
    requires tx.ok && tx.executions != []
    ensures !IsRecorded(Entry(None, [], []), tx)
  {
    assert |RecordsOf(tx, Executions)| == |tx.executions|;
  }

  /** What the node and the cache hold after one batch of transactions and one refresh. */
  lemma FirstRefresh(txs: seq<Tx>, terminal: bool, fetched: string -> bool)
    ensures var acts := [Grow(txs), Tick(terminal, fetched)];
            && Run(acts[..1]) == World(txs, Entry(None, [], []))
            && Run(acts) == Do(World(txs, Entry(None, [], [])), acts[1])
  {
    var acts, start := [Grow(txs), Tick(terminal, fetched)], World([], Entry(None, [], []));
    var first := acts[..1];
    assert first == [Grow(txs)] && first[..|first| - 1] == [];
    assert RunFrom(start, []) == start;
    assert RunFrom(start, first) == Do(start, Grow(txs));
    assert Do(start, Grow(txs)) == World(txs, Entry(None, [], [])) by { assert [] + txs == txs; }
    assert acts[..|acts| - 1] == first;
  }

  lemma FirstCursor(ledger: seq<Tx>)
    ensures CursorIndex(ledger, None) == 0
  {
  }

  lemma NothingYet(ledger: seq<Tx>)
    requires IsLedger(ledger)
    ensures Sound(ledger, Entry(None, [], []), 0)
  {
    assert forall kind :: Records(Entry(None, [], []), kind) == [];
  }

  /** A cut page: what lies between the cursor and the page is passed over, and
      whatever of it was not recorded never will be. */
  lemma CutPageLoses(w: World, n: nat, terminal: bool, fetched: string -> bool, i: nat, more: seq<Act>)
    requires Sound(w.ledger, w.entry, n) && !Skipped(w.entry, terminal) && AllFetched(Page(w.ledger, n), fetched)
    requires n <= i < |w.ledger| - SIG_PAGE_LIMIT && !IsRecorded(w.entry, w.ledger[i])
    requires IsLedger(RunFrom(Do(w, Tick(terminal, fetched)), more).ledger)
    ensures !IsRecorded(RunFrom(Do(w, Tick(terminal, fetched)), more).entry, w.ledger[i])
  {
    hide Refreshed;
    CursorIndexFinds(w.ledger, w.entry.lastSigSeen, n);
    RefreshedIsRecorded(w.ledger, w.entry, n, fetched, i);
    RefreshKeepsOnce(w.ledger, w.entry, n, fetched);
    CursorAfterRefresh(w.ledger, w.entry, n, fetched);
    PageAtEnd(w.ledger, n);
    var m := FateBehindCursor(Do(w, Tick(terminal, fetched)), more, |w.ledger|, i);
  }

  /** One transaction more than fit a page, fetched without a failure: the
      oldest is behind the cursor and lost in every continuation. */
  lemma CutPageWitness() returns (acts: seq<Act>, tx: Tx)
    ensures IsLedger(Run(acts).ledger) && |Run(acts).ledger| == 1001
    ensures tx in Run(acts).ledger && tx.ok && tx.executions != []
    ensures CursorAt(Run(acts).ledger, Run(acts).entry.lastSigSeen, |Run(acts).ledger|)
    ensures forall more :: IsLedger(RunFrom(Run(acts), more).ledger) ==> !IsRecorded(RunFrom(Run(acts), more).entry, tx)
  {
    hide IsRecorded, Refreshed, RunFrom, Do, Sound;
    var ledger := LongLedger();
    tx := ledger[0];
    acts := [Grow(ledger), Tick(false, Always)];
    var w0 := World(ledger, Entry(None, [], []));
    FirstRefresh(ledger, false, Always);
    FirstCursor(ledger);
    NothingYet(ledger);
    NotYetRecorded(tx);
    TickLedger(w0, false, Always);
    CutCursor(w0);
    forall more | IsLedger(RunFrom(Run(acts), more).ledger)
      ensures !IsRecorded(RunFrom(Run(acts), more).entry, tx)
    {
      CutPageLoses(w0, 0, false, Always, 0, more);
    }
  }

  lemma LongLedger() returns (ledger: seq<Tx>)
    ensures |ledger| == 1001 && IsLedger(ledger)
    ensures forall i :: 0 <= i < |ledger| ==> ledger[i].ok && ledger[i].executions != []
  {
    ledger := seq(1001, i requires 0 <= i => Tx(seq(i, _ => 'a'), true, [i], []));
    forall i, j | 0 <= i < j < |ledger|
      ensures ledger[i].sig != ledger[j].sig
    {
      assert |ledger[i].sig| == i && |ledger[j].sig| == j;
    }
  }

  lemma CutCursor(w: World)
    requires IsLedger(w.ledger) && w.ledger != [] && w.entry == Entry(None, [], [])
    ensures CursorAt(w.ledger, Do(w, Tick(false, Always)).entry.lastSigSeen, |w.ledger|)
  {
    hide Refreshed;
    FirstCursor(w.ledger);
    CursorAfterRefresh(w.ledger, w.entry, 0, Always);
    PageAtEnd(w.ledger, 0);
  }
}
