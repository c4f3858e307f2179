/** The executor's deduplication state: terminal rules, a bounded window of
    recent triggers, and rules with a send in flight (keeper/src/executor.rs). */
module Executor {
  import opened Common
  import opened AccountState

  const RECENT_TRIGGER_CACHE_SIZE: nat := 4096

  /** A rule and the correlation token of the event that wants to fire it. */
  datatype Trigger = Trigger(rule: Pubkey, correlation: string)

  datatype Refusal = RuleIsTerminal | DuplicateTrigger | SendInFlight

  datatype State = State(terminal: set<Pubkey>, recent: set<Trigger>, order: seq<Trigger>, inFlight: set<Pubkey>)

  const EMPTY: State := State({}, {}, [], {})

  function Refuses(s: State, key: Trigger): Option<Refusal> {
    if key.rule in s.terminal then Some(RuleIsTerminal)
    else if key in s.recent then Some(DuplicateTrigger)
    else if key.rule in s.inFlight then Some(SendInFlight)
    else None
  }

  /** The last `n` elements. */
  function Last<T>(s: seq<T>, n: nat): (r: seq<T>)
    ensures |r| <= n
  {
    if |s| <= n then s else s[|s| - n..]
  }

  /** Window and set after one more claim. */
  function Claimed(s: State, key: Trigger): State {
    var order := Last(s.order + [key], RECENT_TRIGGER_CACHE_SIZE);
    s.(recent := Elements(order), order := order, inFlight := s.inFlight + {key.rule})
  }

  function Released(s: State, rule: Pubkey, terminal: bool): State {
    s.(inFlight := s.inFlight - {rule}, terminal := if terminal then s.terminal + {rule} else s.terminal)
  }

  /** The window is the last successful claims, without repeats, and the set has
      the same members. */
  ghost predicate Window(s: State, claims: seq<Trigger>) {
    && s.order == Last(claims, RECENT_TRIGGER_CACHE_SIZE)
    && s.recent == Elements(s.order)
    && Distinct(s.order)
  }

  /** Two claims of one trigger have at least a full window of others between them. */
  ghost predicate FarApart(claims: seq<Trigger>) {
    forall i, j :: 0 <= i < j < |claims| && claims[i] == claims[j] ==> j - i - 1 >= 4096
  }

  /** Among the last 4096 claims. */
  ghost predicate Recent(claims: seq<Trigger>, key: Trigger) {
    exists c :: 0 <= c < |claims| && |claims| - 4096 <= c && claims[c] == key
  }

  /** The set of recent triggers holds exactly those. */
  lemma RecentIsWindow(s: State, claims: seq<Trigger>, key: Trigger)
    requires Window(s, claims)
    ensures key in s.recent <==> Recent(claims, key)
  {
    if c :| 0 <= c < |claims| && |claims| - 4096 <= c && claims[c] == key {
      assert s.order[c - (|claims| - |s.order|)] == key;
    }
  }

  lemma ClaimKeepsWindow(s: State, claims: seq<Trigger>, key: Trigger)
    requires Window(s, claims) && key !in s.recent
    ensures Window(Claimed(s, key), claims + [key])
  {
  }

  lemma ClaimKeepsFarApart(s: State, claims: seq<Trigger>, key: Trigger)
    requires Window(s, claims) && FarApart(claims) && key !in s.recent
    ensures FarApart(claims + [key])
  {
  }

  lemma PushNewest(order: seq<Trigger>, key: Trigger)
    requires Distinct(order) && key !in order
    ensures Distinct(order + [key]) && Elements(order + [key]) == Elements(order) + {key}
  {
  }

  lemma EvictOldest(order: seq<Trigger>)
    requires Distinct(order) && |order| > 0
    ensures Distinct(order[1..]) && Elements(order[1..]) == Elements(order) - {order[0]}
  {
  }

  class Dedupe {
    var terminalFired: set<Pubkey>
    var recentTriggers: set<Trigger>
    var recentOrder: seq<Trigger>
    var inFlight: set<Pubkey>
    /** Every successful claim, oldest first. */
    ghost var claims: seq<Trigger>

    ghost function View(): State
      reads this
    {
      State(terminalFired, recentTriggers, recentOrder, inFlight)
    }

    ghost predicate Valid()
      reads this
    {
      Window(View(), claims) && FarApart(claims)
    }

    constructor ()
      ensures Valid() && View() == EMPTY && claims == []
    {
      terminalFired, recentTriggers, recentOrder, inFlight := {}, {}, [], {};
      claims := [];
    }

    method TryClaim(rule: Pubkey, correlation: string) returns (refusal: Option<Refusal>)
      requires Valid()
      modifies this
      ensures Valid()
      ensures refusal == Refuses(old(View()), Trigger(rule, correlation))
      ensures refusal.None? <==>
              rule !in old(terminalFired) && !Recent(old(claims), Trigger(rule, correlation)) && rule !in old(inFlight)
      ensures refusal == Some(RuleIsTerminal) <==> rule in old(terminalFired)
      ensures refusal == Some(DuplicateTrigger) <==>
              rule !in old(terminalFired) && Recent(old(claims), Trigger(rule, correlation))
      ensures refusal == Some(SendInFlight) <==>
              rule !in old(terminalFired) && !Recent(old(claims), Trigger(rule, correlation)) && rule in old(inFlight)
      ensures terminalFired == old(terminalFired)
      ensures inFlight == if refusal.None? then old(inFlight) + {rule} else old(inFlight)
      ensures refusal.Some? ==> View() == old(View()) && claims == old(claims)
      ensures refusal.None? ==>
              View() == Claimed(old(View()), Trigger(rule, correlation)) &&
                claims == old(claims) + [Trigger(rule, correlation)]
    {
      RecentIsWindow(View(), claims, Trigger(rule, correlation));
      if rule in terminalFired {
        return Some(RuleIsTerminal);
      }
      var key := Trigger(rule, correlation);
      if key in recentTriggers {
        return Some(DuplicateTrigger);
      }
      if rule in inFlight {
        return Some(SendInFlight);
      }
      ClaimKeepsWindow(View(), claims, key);
      ClaimKeepsFarApart(View(), claims, key);
      Remember(key);
      inFlight := inFlight + {rule};
      claims := claims + [key];
      return None;
    }

    /** Adds a trigger to the window and evicts from its old end. */
    method Remember(key: Trigger)
      requires |recentOrder| <= RECENT_TRIGGER_CACHE_SIZE && Distinct(recentOrder) &&
               recentTriggers == Elements(recentOrder)
      requires key !in recentOrder
      modifies this`recentTriggers, this`recentOrder
      ensures recentOrder == Last(old(recentOrder) + [key], RECENT_TRIGGER_CACHE_SIZE)
      ensures recentTriggers == Elements(recentOrder)
    {
      hide Distinct, Elements;
      recentTriggers := recentTriggers + {key};
      recentOrder := recentOrder + [key];
      ghost var full := recentOrder;
      PushNewest(old(recentOrder), key);
      while |recentOrder| > RECENT_TRIGGER_CACHE_SIZE
        invariant RECENT_TRIGGER_CACHE_SIZE <= |recentOrder| || recentOrder == full
        invariant |recentOrder| <= |full| && recentOrder == full[|full| - |recentOrder|..]
        invariant recentTriggers == Elements(recentOrder) && Distinct(recentOrder)
      {
        var oldest := recentOrder[0];
        EvictOldest(recentOrder);
        recentOrder := recentOrder[1..];
        recentTriggers := recentTriggers - {oldest};
      }
    }

    method ReleaseSuccess(rule: Pubkey)
      requires Valid()
      modifies this
      ensures Valid() && View() == Released(old(View()), rule, false) && claims == old(claims)
      ensures inFlight == old(inFlight) - {rule} && terminalFired == old(terminalFired)
    {
      inFlight := inFlight - {rule};
    }

    method ReleaseFailure(rule: Pubkey, treatAsDone: bool)
      requires Valid()
      modifies this
      ensures Valid() && View() == Released(old(View()), rule, treatAsDone) && claims == old(claims)
      ensures inFlight == old(inFlight) - {rule}
      ensures terminalFired == if treatAsDone then old(terminalFired) + {rule} else old(terminalFired)
    {
      inFlight := inFlight - {rule};
      if treatAsDone {
        terminalFired := terminalFired + {rule};
      }
    }
  }
}
