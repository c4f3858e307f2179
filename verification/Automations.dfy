/** The front end's automation records and the chain metadata attached to them
    (src/lib/types.ts). A record's id is "onchain_" followed by its public key,
    so records are identified here by the key itself. */
module Automations {
  import opened Common
  import AccountState

  /** A base58 account address. */
  datatype Key = Key(text: string)

  datatype ChainLink = ChainLink(chainId: string, position: nat, total: nat, next: Option<Key>, isHead: bool)

  /** `downstream` is the swap action's linkedDownstream, `upstream` the key a
      price-relative-to-fill trigger refers to; both are raw keys that may
      name an account that is not in the list. */
  datatype Automation = Automation(
    pubkey: Key,
    nonce: nat,
    downstream: Option<Key>,
    upstream: Option<Key>,
    runs: nat,
    terminal: bool,
    link: Option<ChainLink>
  )

  /** One card of a draft: the card it links to, if any, whether its trigger is
      relative to the fill of the card before it, and the cadence picked for it. */
  datatype Card = Card(next: Option<int>, relative: bool, cadence: AccountState.Cadence)

  /** Where the last card links back to. */
  function BackLink(cards: seq<Card>): Option<int>
    requires |cards| > 0
  {
    cards[|cards| - 1].next
  }

  function Keys(items: seq<Automation>): set<Key> {
    set a | a in items :: a.pubkey
  }

  /** Accounts come from the chain, one per address. */
  ghost predicate DistinctKeys(items: seq<Automation>) {
    forall i, j :: 0 <= i < j < |items| ==> items[i].pubkey != items[j].pubkey
  }

  /** `chain_` and the first twelve characters of the head's key. */
  function ChainIdOf(head: Key): string {
    "chain_" + if |head.text| <= 12 then head.text else head.text[..12]
  }

  /** The two addresses agree on their first twelve characters, or altogether if they are shorter. */
  ghost predicate SameStart(a: Key, b: Key) {
    (if |a.text| < 12 then a.text else a.text[..12]) == if |b.text| < 12 then b.text else b.text[..12]
  }

  /** Two ids are equal exactly if the heads' addresses start alike. */
  lemma SameIdIff(a: Key, b: Key)
    ensures ChainIdOf(a) == ChainIdOf(b) <==> SameStart(a, b)
  {
    assert a.text[..|a.text|] == a.text && b.text[..|b.text|] == b.text;
    assert ChainIdOf(a)[6..] == if |a.text| < 12 then a.text else a.text[..12];
    assert ChainIdOf(b)[6..] == if |b.text| < 12 then b.text else b.text[..12];
  }
}
