/** Many event tasks share one deduplication state; each takes the lock for one
    claim or release at a time (keeper/src/executor.rs). */
module ExecutorProtocol {
  import opened Common
  import opened AccountState
  import opened Executor
  import Indexer

  /** One event task: the rules it goes through in order, how far it got, and
      whether it is between claim and release of the current one. */
  datatype Task = Task(correlation: string, queue: seq<Pubkey>, pos: nat, holding: bool)

  datatype LogEntry = ClaimOf(key: Trigger) | ReleaseOf(rule: Pubkey, terminal: bool)

  datatype System = System(state: State, tasks: seq<Task>, log: seq<LogEntry>)

  const START: System := System(EMPTY, [], [])

  datatype Step =
    | Spawn(correlation: string, queue: seq<Pubkey>)
    | DropStale(task: nat)
    | Claim(task: nat)
    | Release(task: nat, failed: bool, terminal: bool)

  predicate Enabled(sys: System, step: Step) {
    match step
    case Spawn(_, _) => true
    case DropStale(i) => i < |sys.tasks| && sys.tasks[i].pos == 0 && !sys.tasks[i].holding
    case Claim(i) => i < |sys.tasks| && sys.tasks[i].pos < |sys.tasks[i].queue| && !sys.tasks[i].holding
    case Release(i, failed, terminal) =>
      && i < |sys.tasks| && sys.tasks[i].holding
      && sys.tasks[i].pos < |sys.tasks[i].queue| && (terminal ==> failed)
  }

  /** A spawned task starts at its first rule; a task whose price snapshot is
      stale gives up before its first rule; a refused claim moves on to the next
      rule; a release frees the rule, marking it terminal after a terminal error. */
  function Apply(sys: System, step: Step): System
    requires Enabled(sys, step)
  {
    match step
    case Spawn(correlation, queue) => sys.(tasks := sys.tasks + [Task(correlation, queue, 0, false)])
    case DropStale(i) => sys.(tasks := sys.tasks[i := sys.tasks[i].(pos := |sys.tasks[i].queue|)])
    case Claim(i) =>
      var t := sys.tasks[i];
      var key := Trigger(t.queue[t.pos], t.correlation);
      if Refuses(sys.state, key).Some? then sys.(tasks := sys.tasks[i := t.(pos := t.pos + 1)])
      else System(Claimed(sys.state, key), sys.tasks[i := t.(holding := true)], sys.log + [ClaimOf(key)])
    case Release(i, _, terminal) =>
      var t := sys.tasks[i];
      System(Released(sys.state, t.queue[t.pos], terminal), sys.tasks[i := t.(holding := false, pos := t.pos + 1)],
             sys.log + [ReleaseOf(t.queue[t.pos], terminal)])
  }

  /** The system after the steps; a step that is not enabled does nothing. */
  function RunFrom(sys: System, steps: seq<Step>): System {
    if steps == [] then sys
    else
      var before := RunFrom(sys, steps[..|steps| - 1]);
      if Enabled(before, steps[|steps| - 1]) then Apply(before, steps[|steps| - 1]) else before
  }

  function Run(steps: seq<Step>): System {
    RunFrom(START, steps)
  }

  ghost predicate Holds(sys: System, i: nat, rule: Pubkey) {
    i < |sys.tasks| && sys.tasks[i].holding && sys.tasks[i].pos < |sys.tasks[i].queue| &&
      sys.tasks[i].queue[sys.tasks[i].pos] == rule
  }

  function Claims(log: seq<LogEntry>): seq<Trigger> {
    if log == [] then []
    else Claims(log[..|log| - 1]) + match log[|log| - 1]
      case ClaimOf(key) => [key]
      case ReleaseOf(_, _) => []
  }

  /** Once a rule is released as terminal it is never claimed again. */
  ghost predicate TerminalIsFinal(log: seq<LogEntry>) {
    forall i, j :: 0 <= i < j < |log| && log[i].ReleaseOf? && log[i].terminal && log[j].ClaimOf? ==>
      log[j].key.rule != log[i].rule
  }

  /** Between two claims of a rule it is released. */
  ghost predicate Exclusive(log: seq<LogEntry>) {
    forall i, j :: 0 <= i < j < |log| && log[i].ClaimOf? && log[j].ClaimOf? && log[i].key.rule == log[j].key.rule ==>
      ReleasedBetween(log, i, j)
  }

  /** The rule has been released as terminal. */
  ghost predicate EndedIn(log: seq<LogEntry>, rule: Pubkey) {
    exists i :: 0 <= i < |log| && log[i] == ReleaseOf(rule, true)
  }

  ghost predicate ReleasedBetween(log: seq<LogEntry>, i: nat, j: nat) {
    exists k :: i < k < j <= |log| && log[k].ReleaseOf? && log[i].ClaimOf? && log[k].rule == log[i].key.rule
  }

  /** Tasks and state agree. */
  ghost predicate TasksInv(sys: System) {
    && (forall i :: 0 <= i < |sys.tasks| ==>
        sys.tasks[i].pos <= |sys.tasks[i].queue| && (sys.tasks[i].holding ==> sys.tasks[i].pos < |sys.tasks[i].queue|))
    && (forall rule :: rule in sys.state.inFlight <==> exists i: nat :: Holds(sys, i, rule))
    && (forall i: nat, j: nat, rule :: Holds(sys, i, rule) && Holds(sys, j, rule) ==> i == j)
    && sys.state.inFlight !! sys.state.terminal
  }

  /** State and log agree. */
  ghost predicate LogInv(sys: System) {
    && Window(sys.state, Claims(sys.log)) && FarApart(Claims(sys.log))
    && (forall rule :: rule in sys.state.terminal <==> EndedIn(sys.log, rule))
    && (forall i: nat :: i < |sys.log| && sys.log[i].ClaimOf? ==>
        sys.log[i].key.rule in sys.state.inFlight || ReleasedBetween(sys.log, i, |sys.log|))
    && TerminalIsFinal(sys.log) && Exclusive(sys.log)
  }

  lemma EndedGrows(log: seq<LogEntry>, entry: LogEntry, rule: Pubkey)
    ensures EndedIn(log + [entry], rule) <==> EndedIn(log, rule) || entry == ReleaseOf(rule, true)
  {
    if i :| 0 <= i < |log| && log[i] == ReleaseOf(rule, true) {
      assert (log + [entry])[i] == ReleaseOf(rule, true);
    }
    if entry == ReleaseOf(rule, true) {
      assert (log + [entry])[|log|] == ReleaseOf(rule, true);
    }
  }

  lemma OthersKeepHolding(sys: System, i: nat, t: Task, sys': System, j: nat, rule: Pubkey)
    requires i < |sys.tasks| && sys'.tasks == sys.tasks[i := t]
    ensures j != i ==> (Holds(sys', j, rule) <==> Holds(sys, j, rule))
  {
  }

  lemma TasksStep(sys: System, step: Step)
    requires TasksInv(sys) && Enabled(sys, step)
    ensures TasksInv(Apply(sys, step))
  {
    var sys' := Apply(sys, step);
    match step
    case Spawn(_, _) =>
      assert forall j: nat, rule :: Holds(sys', j, rule) <==> Holds(sys, j, rule);
    case DropStale(i) =>
      assert forall j: nat, rule :: Holds(sys', j, rule) <==> Holds(sys, j, rule);
    case Claim(i) => ClaimKeepsTasks(sys, i);
    case Release(i, failed, terminal) => ReleaseKeepsTasks(sys, i, failed, terminal);
  }

  lemma ClaimKeepsTasks(sys: System, i: nat)
    requires TasksInv(sys) && Enabled(sys, Claim(i))
    ensures TasksInv(Apply(sys, Claim(i)))
  {
    var sys', t := Apply(sys, Claim(i)), sys.tasks[i];
    forall j: nat, rule
      ensures Holds(sys', j, rule) <==>
              if j == i then sys' != sys && sys'.tasks[i].holding && rule == t.queue[t.pos] else Holds(sys, j, rule)
    {
      OthersKeepHolding(sys, i, sys'.tasks[i], sys', j, rule);
    }
    if sys'.tasks[i].holding {
      assert Holds(sys', i, t.queue[t.pos]);
    } else {
      assert forall rule :: !Holds(sys, i, rule);
    }
    forall rule
      ensures rule in sys'.state.inFlight <==> exists j: nat :: Holds(sys', j, rule)
    {
      if rule in sys.state.inFlight {
        var j: nat :| Holds(sys, j, rule);
        assert Holds(sys', j, rule);
      }
    }
  }

  lemma ReleaseKeepsTasks(sys: System, i: nat, failed: bool, terminal: bool)
    requires TasksInv(sys) && Enabled(sys, Release(i, failed, terminal))
    ensures TasksInv(Apply(sys, Release(i, failed, terminal)))
  {
    var sys', t := Apply(sys, Release(i, failed, terminal)), sys.tasks[i];
    assert Holds(sys, i, t.queue[t.pos]);
    forall j: nat, rule
      ensures Holds(sys', j, rule) <==> j != i && Holds(sys, j, rule)
    {
      OthersKeepHolding(sys, i, sys'.tasks[i], sys', j, rule);
    }
    forall rule
      ensures rule in sys'.state.inFlight <==> exists j: nat :: Holds(sys', j, rule)
    {
      if rule in sys'.state.inFlight {
        var j: nat :| Holds(sys, j, rule);
        assert Holds(sys', j, rule);
      }
    }
  }

  lemma LogStep(sys: System, step: Step)
    requires TasksInv(sys) && LogInv(sys) && Enabled(sys, step)
    ensures LogInv(Apply(sys, step))
  {
    match step
    case Spawn(_, _) =>
    case DropStale(_) =>
    case Claim(i) =>
      var t := sys.tasks[i];
      var key := Trigger(t.queue[t.pos], t.correlation);
      if Refuses(sys.state, key).None? { ClaimKeepsLog(sys, key, Apply(sys, step)); }
    case Release(i, _, terminal) =>
      ReleaseKeepsLog(sys, sys.tasks[i].queue[sys.tasks[i].pos], terminal, Apply(sys, step));
  }

  lemma ClaimKeepsLog(sys: System, key: Trigger, sys': System)
    requires LogInv(sys) && Refuses(sys.state, key).None?
    requires sys'.state == Claimed(sys.state, key) && sys'.log == sys.log + [ClaimOf(key)]
    ensures LogInv(sys')
  {
    var n := |sys.log|;
    assert sys'.log[..n] == sys.log;
    ClaimKeepsWindow(sys.state, Claims(sys.log), key);
    ClaimKeepsFarApart(sys.state, Claims(sys.log), key);
    ClaimEndsNothing(sys, key, sys');
    hide Window, FarApart, EndedIn;
    forall i: nat, j: nat | i < n && ReleasedBetween(sys.log, i, j)
      ensures ReleasedBetween(sys'.log, i, j) && ReleasedBetween(sys'.log, i, n + 1)
    {
      var k :| i < k < j && sys.log[k].ReleaseOf? && sys.log[k].rule == sys.log[i].key.rule;
      assert sys'.log[k] == sys.log[k] && sys'.log[i] == sys.log[i];
    }
    assert forall i :: 0 <= i < n ==> sys'.log[i] == sys.log[i];
    forall i | 0 <= i < n && sys.log[i].ClaimOf? && sys.log[i].key.rule == key.rule
      ensures ReleasedBetween(sys'.log, i, n)
    {
      assert ReleasedBetween(sys.log, i, n);
    }
  }

  /** The rule claimed has not been released as terminal, and no rule is by a claim. */
  lemma ClaimEndsNothing(sys: System, key: Trigger, sys': System)
    requires LogInv(sys) && Refuses(sys.state, key).None? && sys'.log == sys.log + [ClaimOf(key)]
    ensures forall rule :: EndedIn(sys'.log, rule) <==> EndedIn(sys.log, rule)
    ensures forall i :: 0 <= i < |sys.log| && sys.log[i].ReleaseOf? && sys.log[i].terminal ==>
              sys.log[i].rule != key.rule
  {
    forall rule
      ensures EndedIn(sys'.log, rule) <==> EndedIn(sys.log, rule)
    {
      EndedGrows(sys.log, ClaimOf(key), rule);
    }
    assert forall i :: 0 <= i < |sys.log| && sys.log[i].ReleaseOf? && sys.log[i].terminal ==>
      EndedIn(sys.log, sys.log[i].rule);
  }

  lemma ReleaseKeepsLog(sys: System, rule: Pubkey, terminal: bool, sys': System)
    requires LogInv(sys)
    requires sys'.state == Released(sys.state, rule, terminal) && sys'.log == sys.log + [ReleaseOf(rule, terminal)]
    ensures LogInv(sys')
  {
    var n := |sys.log|;
    assert sys'.log[..n] == sys.log;
    assert Claims(sys'.log) == Claims(sys.log);
    forall r
      ensures EndedIn(sys'.log, r) <==> EndedIn(sys.log, r) || (terminal && r == rule)
    {
      EndedGrows(sys.log, ReleaseOf(rule, terminal), r);
    }
    assert forall i :: 0 <= i < n ==> sys'.log[i] == sys.log[i];
    forall i: nat, j: nat | i < n && ReleasedBetween(sys.log, i, j)
      ensures ReleasedBetween(sys'.log, i, j) && ReleasedBetween(sys'.log, i, n + 1)
    {
      var k :| i < k < j && sys.log[k].ReleaseOf? && sys.log[k].rule == sys.log[i].key.rule;
      assert sys'.log[k] == sys.log[k] && sys'.log[i] == sys.log[i];
    }
    forall i: nat | i < n && sys.log[i].ClaimOf? && sys.log[i].key.rule == rule
      ensures ReleasedBetween(sys'.log, i, n + 1)
    {
      assert sys'.log[n].ReleaseOf? && sys'.log[n].rule == rule;
    }
  }

  /** Whatever the interleaving. */
  lemma {:induction false} RunIsSafe(steps: seq<Step>)
    ensures TasksInv(Run(steps)) && LogInv(Run(steps))
  {
    if steps == [] {
      assert Last<Trigger>([], RECENT_TRIGGER_CACHE_SIZE) == [];
    } else {
      RunIsSafe(steps[..|steps| - 1]);
      var before := Run(steps[..|steps| - 1]);
      if Enabled(before, steps[|steps| - 1]) {
        TasksStep(before, steps[|steps| - 1]);
        LogStep(before, steps[|steps| - 1]);
      }
    }
  }

  /** The headline: one holder per rule, the in-flight set is the rules held,
      none of them terminal, terminal rules stay unclaimed, claims of a rule are
      separated by releases, repeated triggers by a full window, and nothing is
      in flight when every task is done. */
  lemma ProtocolSafety(steps: seq<Step>)
    ensures var sys := Run(steps);
            && (forall i: nat, j: nat, rule :: Holds(sys, i, rule) && Holds(sys, j, rule) ==> i == j)
            && (forall rule :: rule in sys.state.inFlight <==> exists i: nat :: Holds(sys, i, rule))
            && sys.state.inFlight !! sys.state.terminal
            && TerminalIsFinal(sys.log) && Exclusive(sys.log) && FarApart(Claims(sys.log))
            && ((forall i :: 0 <= i < |sys.tasks| ==> sys.tasks[i].pos == |sys.tasks[i].queue|) ==>
                sys.state.inFlight == {})
  {
    RunIsSafe(steps);
  }

  /** In every reachable state a claim is granted exactly if the rule was never
      released as terminal, nobody holds it, and the trigger is not among the
      last 4096 claims. */
  lemma ClaimGrantedIff(steps: seq<Step>, i: nat)
    requires Enabled(Run(steps), Claim(i))
    ensures var sys, t := Run(steps), Run(steps).tasks[i];
            var rule := t.queue[t.pos];
            Holds(Apply(sys, Claim(i)), i, rule) <==>
              && !EndedIn(sys.log, rule) && (forall j: nat :: !Holds(sys, j, rule))
              && !Recent(Claims(sys.log), Trigger(rule, t.correlation))
  {
    RunIsSafe(steps);
    var sys, t := Run(steps), Run(steps).tasks[i];
    RecentIsWindow(sys.state, Claims(sys.log), Trigger(t.queue[t.pos], t.correlation));
  }

  // ---- the loop of one task ------------------------------------------------------

  /** Oldest rule first, the global counter breaking ties. */
  function QueueOrder(matches: seq<Indexer.AutomationCtx>): (queue: seq<Indexer.AutomationCtx>)
    ensures multiset(queue) == multiset(matches) && |queue| == |matches|
    ensures forall i, j :: 0 <= i < j < |queue| ==>
              queue[i].createdAt < queue[j].createdAt ||
              (queue[i].createdAt == queue[j].createdAt && queue[i].nonce <= queue[j].nonce)
  {
    SortBy(matches, (c: Indexer.AutomationCtx) => c.createdAt * 0x1_0000_0000_0000_0000 + c.nonce)
  }

  function Rules(queue: seq<Indexer.AutomationCtx>): seq<Pubkey> {
    seq(|queue|, i requires 0 <= i < |queue| => queue[i].pubkey)
  }

  /** How a send ends: sent, or failed with an error that is or is not terminal. */
  datatype Outcome = Sent | Failed(terminal: bool)

  /** Only event task `task` takes these steps. */
  ghost predicate StepsOf(steps: seq<Step>, task: nat) {
    forall i :: 0 <= i < |steps| ==>
      match steps[i]
      case Spawn(_, _) => false
      case DropStale(j) => j == task
      case Claim(j) => j == task
      case Release(j, _, _) => j == task
  }

  /** After `steps` of its own, a task spawned beside those of `before` stands at
      position `pos` of its queue, and the shared state is `s`. */
  ghost predicate Mirrors(before: System, steps: seq<Step>, s: State, correlation: string, rules: seq<Pubkey>,
                          pos: nat, holding: bool) {
    var now := RunFrom(Apply(before, Spawn(correlation, rules)), steps);
    && StepsOf(steps, |before.tasks|)
    && now.state == s && now.tasks == before.tasks + [Task(correlation, rules, pos, holding)]
  }

  lemma NoStep(start: System)
    ensures RunFrom(start, []) == start
  {
  }

  lemma RunStep(start: System, steps: seq<Step>, step: Step)
    ensures var now := RunFrom(start, steps);
            RunFrom(start, steps + [step]) == if Enabled(now, step) then Apply(now, step) else now
  {
    hide Enabled, Apply;
    assert (steps + [step])[..|steps|] == steps;
  }

  lemma MirrorClaim(before: System, steps: seq<Step>, s: State, correlation: string, rules: seq<Pubkey>, pos: nat)
    requires Mirrors(before, steps, s, correlation, rules, pos, false) && pos < |rules|
    ensures var key, steps' := Trigger(rules[pos], correlation), steps + [Claim(|before.tasks|)];
            if Refuses(s, key).Some? then Mirrors(before, steps', s, correlation, rules, pos + 1, false)
            else Mirrors(before, steps', Claimed(s, key), correlation, rules, pos, true)
  {
    hide Refuses, Claimed, RunFrom;
    RunStep(Apply(before, Spawn(correlation, rules)), steps, Claim(|before.tasks|));
  }

  lemma MirrorRelease(before: System, steps: seq<Step>, s: State, correlation: string, rules: seq<Pubkey>, pos: nat,
                      failed: bool, terminal: bool)
    requires Mirrors(before, steps, s, correlation, rules, pos, true) && pos < |rules| && (terminal ==> failed)
    ensures Mirrors(before, steps + [Release(|before.tasks|, failed, terminal)], Released(s, rules[pos], terminal),
                    correlation, rules, pos + 1, false)
  {
    hide Released, RunFrom;
    RunStep(Apply(before, Spawn(correlation, rules)), steps, Release(|before.tasks|, failed, terminal));
  }

  lemma MirrorDrop(before: System, s: State, correlation: string, rules: seq<Pubkey>)
    requires before.state == s
    ensures Mirrors(before, [], s, correlation, rules, 0, false)
    ensures Mirrors(before, [DropStale(|before.tasks|)], s, correlation, rules, |rules|, false)
  {
    hide RunFrom;
    var start := Apply(before, Spawn(correlation, rules));
    NoStep(start);
    assert [DropStale(|before.tasks|)] == [] + [DropStale(|before.tasks|)];
    RunStep(start, [], DropStale(|before.tasks|));
  }

  /** The claims made at the positions taken, in queue order. */
  function TakenKeys(rules: seq<Pubkey>, correlation: string, took: seq<bool>): (keys: seq<Trigger>)
    requires |took| <= |rules|
    ensures |keys| <= |took|
  {
    if took == [] then []
    else
      var n := |took| - 1;
      TakenKeys(rules, correlation, took[..n]) + if took[n] then [Trigger(rules[n], correlation)] else []
  }

  lemma TakenGrows(rules: seq<Pubkey>, correlation: string, took: seq<bool>, b: bool)
    requires |took| < |rules|
    ensures TakenKeys(rules, correlation, took + [b]) ==
            TakenKeys(rules, correlation, took) + if b then [Trigger(rules[|took|], correlation)] else []
  {
    assert (took + [b])[..|took|] == took;
  }

  /** Position `i` is taken exactly if its rule is neither in flight nor terminal,
      be it from the start or by a send of this event, and the claim is not
      among the last 4096. */
  ghost predicate TakenRightly(was: State, claims: seq<Trigger>, rules: seq<Pubkey>, correlation: string,
                               outcome: nat -> Outcome, took: seq<bool>, i: nat)
    requires i < |took| <= |rules|
  {
    took[i] <==>
      && rules[i] !in was.terminal && rules[i] !in was.inFlight
      && (forall j: nat :: j < i && took[j] && rules[j] == rules[i] ==> outcome(j) != Failed(true))
      && !Recent(claims + TakenKeys(rules, correlation, took[..i]), Trigger(rules[i], correlation))
  }

  /** What the positions taken have left behind. */
  ghost predicate LeftBehind(was: State, now: State, rules: seq<Pubkey>, outcome: nat -> Outcome, took: seq<bool>)
    requires |took| <= |rules|
  {
    && now.inFlight == was.inFlight
    && forall rule :: rule in now.terminal <==>
         rule in was.terminal ||
         exists i: nat :: i < |took| && took[i] && rules[i] == rule && outcome(i) == Failed(true)
  }

  /** The claims made and what they left behind, position by position. */
  ghost predicate Took(was: State, claims0: seq<Trigger>, now: State, claims: seq<Trigger>, rules: seq<Pubkey>,
                       correlation: string, outcome: nat -> Outcome, took: seq<bool>)
  {
    && |took| <= |rules| && claims == claims0 + TakenKeys(rules, correlation, took)
    && LeftBehind(was, now, rules, outcome, took)
    && forall i: nat :: i < |took| ==> TakenRightly(was, claims0, rules, correlation, outcome, took, i)
  }

  lemma TookNothing(was: State, claims: seq<Trigger>, rules: seq<Pubkey>, correlation: string, outcome: nat -> Outcome)
    ensures Took(was, claims, was, claims, rules, correlation, outcome, [])
  {
  }

  /** One more turn, taken exactly if the rule is free. */
  lemma TookOne(was: State, claims0: seq<Trigger>, now: State, claims: seq<Trigger>, rules: seq<Pubkey>,
                correlation: string, outcome: nat -> Outcome, took: seq<bool>, b: bool, now': State,
                claims': seq<Trigger>)
    requires Took(was, claims0, now, claims, rules, correlation, outcome, took) && |took| < |rules|
    requires var key := Trigger(rules[|took|], correlation);
             && b == (key.rule !in now.terminal && key.rule !in now.inFlight && !Recent(claims, key))
             && now'.inFlight == now.inFlight && claims' == claims + (if b then [key] else [])
             && now'.terminal ==
                if b && outcome(|took|) == Failed(true) then now.terminal + {key.rule} else now.terminal
    ensures Took(was, claims0, now', claims', rules, correlation, outcome, took + [b])
  {
    hide Recent, TakenKeys;
    var took' := took + [b];
    TakenGrows(rules, correlation, took, b);
    assert forall i: nat :: i < |took| ==> took'[i] == took[i] && took'[..i] == took[..i];
    assert took'[..|took|] == took;
    forall i: nat | i < |took|
      ensures TakenRightly(was, claims0, rules, correlation, outcome, took', i)
    {
      assert TakenRightly(was, claims0, rules, correlation, outcome, took, i);
    }
  }

  /** One turn, from the claim to the release. */
  method Turn(d: Dedupe, rule: Pubkey, correlation: string, outcome: Outcome) returns (taken: bool)
    requires d.Valid()
    modifies d
    ensures d.Valid()
    ensures taken <==> Refuses(old(d.View()), Trigger(rule, correlation)).None?
    ensures d.View() == if taken then Released(Claimed(old(d.View()), Trigger(rule, correlation)), rule,
                                               outcome == Failed(true)) else old(d.View())
    ensures taken <==> rule !in old(d.terminalFired) && rule !in old(d.inFlight) &&
                       !Recent(old(d.claims), Trigger(rule, correlation))
    ensures d.claims == old(d.claims) + if taken then [Trigger(rule, correlation)] else []
    ensures d.inFlight == old(d.inFlight)
    ensures d.terminalFired == if taken && outcome == Failed(true) then old(d.terminalFired) + {rule}
                               else old(d.terminalFired)
  {
    hide Claimed, Released, Refuses, Recent, Window, FarApart;
    var refusal := d.TryClaim(rule, correlation);
    taken := refusal.None?;
    if !taken {
      return;
    }
    match outcome {
      case Sent => d.ReleaseSuccess(rule);
      case Failed(terminal) => d.ReleaseFailure(rule, terminal);
    }
  }

  lemma MirrorTurn(before: System, steps: seq<Step>, s: State, correlation: string, rules: seq<Pubkey>, pos: nat,
                   outcome: Outcome) returns (steps': seq<Step>)
    requires Mirrors(before, steps, s, correlation, rules, pos, false) && pos < |rules|
    ensures var key := Trigger(rules[pos], correlation);
            var s' := if Refuses(s, key).Some? then s
                      else Released(Claimed(s, key), rules[pos], outcome == Failed(true));
            Mirrors(before, steps', s', correlation, rules, pos + 1, false)
  {
    hide Mirrors, Claimed, Released, Refuses;
    var me, key := |before.tasks|, Trigger(rules[pos], correlation);
    MirrorClaim(before, steps, s, correlation, rules, pos);
    steps' := steps + [Claim(me)];
    if Refuses(s, key).None? {
      MirrorRelease(before, steps', Claimed(s, key), correlation, rules, pos, outcome.Failed?, outcome == Failed(true));
      steps' := steps' + [Release(me, outcome.Failed?, outcome == Failed(true))];
    }
  }

  /** A task that runs undisturbed takes the deduplication state through steps
      of the protocol, and ends at the end of its queue. `outcome` says how the
      send of the rule at each position would end. A stale event changes nothing;
      of a fresh one every rule is sent that is free when its turn comes. */
  method ProcessEvent(d: Dedupe, correlation: string, matches: seq<Indexer.AutomationCtx>, stale: bool,
                      outcome: nat -> Outcome, ghost sys: System)
    returns (ghost steps: seq<Step>, ghost took: seq<bool>)
    requires d.Valid() && sys.state == d.View()
    modifies d
    ensures d.Valid()
    ensures Mirrors(sys, steps, d.View(), correlation, Rules(QueueOrder(matches)), |matches|, false)
    ensures stale ==> d.View() == old(d.View()) && d.claims == old(d.claims)
    ensures !stale ==>
              |took| == |matches| && Took(old(d.View()), old(d.claims), d.View(), d.claims, Rules(QueueOrder(matches)),
                                          correlation, outcome, took)
  {
    hide Mirrors, Claimed, Released, Refuses, Recent, Took, Window, FarApart;
    var queue := QueueOrder(matches);
    ghost var rules := Rules(queue);
    steps, took := [], [];
    MirrorDrop(sys, d.View(), correlation, rules);
    if stale {
      steps := [DropStale(|sys.tasks|)];
      return;
    }
    ghost var was, claims := d.View(), d.claims;
    TookNothing(was, claims, rules, correlation, outcome);
    for i := 0 to |queue|
      invariant d.Valid()
      invariant Mirrors(sys, steps, d.View(), correlation, rules, i, false)
      invariant |took| == i && Took(was, claims, d.View(), d.claims, rules, correlation, outcome, took)
    {
      ghost var now, before := d.View(), d.claims;
      steps := MirrorTurn(sys, steps, now, correlation, rules, i, outcome(i));
      var taken := Turn(d, queue[i].pubkey, correlation, outcome(i));
      TookOne(was, claims, now, before, rules, correlation, outcome, took, taken, d.View(), d.claims);
      took := took + [taken];
    }
  }
}
