/** Where the fields of an automation account lie, for readers that do not decode
    it: the owner filter of the front end (src/lib/on-chain-automations.ts), and
    the interface description it ships (src/lib/idl/sotama_automations.ts). Enum
    variants carry their index as one byte, options a 0 or 1, integers are little-endian
    two's complement, and nothing is aligned. */
module AccountLayout {
  import opened Common
  import opened AccountState

  /** Byte `i` of a little-endian integer is its digit of weight 256^i. */
  lemma {:induction false} DigitAt(n: nat, width: nat, i: nat)
    requires i < width
    ensures LE(n, width)[i] == n / Pow256(i) % 0x100
  {
    if i == 0 {
      assert n / 1 == n;
    } else {
      DigitAt(n / 0x100, width - 1, i - 1);
      DivideTwice(n, Pow256(i - 1));
    }
  }

  lemma DivideTwice(n: nat, p: nat)
    requires p >= 1
    ensures n / 0x100 / p == n / (0x100 * p)
  {
    var m, d := n / 0x100, 0x100 * p;
    var q, r, k := m / p, m % p, n / d;
    var rest, left := r * 0x100 + n % 0x100, n % d;
    assert m == q * p + r && n == m * 0x100 + n % 0x100;
    assert q * p * 0x100 == q * d;
    assert n == q * d + rest && n == k * d + left;
    SameMultiple(q, k, d, rest, left);
  }

  lemma SameMultiple(q: int, k: int, d: nat, r: nat, m: nat)
    requires q * d + r == k * d + m && r < d && m < d
    ensures q == k
  {
    var e := q - k;
    assert e * d == q * d - k * d;
    if e >= 1 {
      TimesOne(e, d);
    } else if e <= -1 {
      TimesOne(-e, d);
    }
  }

  lemma TimesOne(e: int, d: nat)
    requires e >= 1
    ensures e * d >= d
  {
  }

  /** The bytes of an option. */
  ghost function Opt(k: Option<Pubkey>): Bytes {
    if k.None? then [0] else [1] + k.value.bytes
  }

  ghost function Signed64(x: I64): Bytes {
    LE(x % 0x1_0000_0000_0000_0000, 8)
  }

  ghost function Signed32(x: I32): Bytes {
    LE(x % 0x1_0000_0000, 4)
  }

  lemma SignedBytes(x: I64, y: I32, tail: Bytes)
    ensures PutI64(x, tail) == Signed64(x) + tail && PutI32(y, tail) == Signed32(y) + tail
  {
    hide LE;
    assert x < 0 ==> x % 0x1_0000_0000_0000_0000 == x + 0x1_0000_0000_0000_0000;
    assert y < 0 ==> y % 0x1_0000_0000 == y + 0x1_0000_0000;
  }

  lemma TriggerLayout(t: TriggerSpec, tail: Bytes)
    ensures PutTrigger(t, tail) ==
            (match t
             case AccountActivity(account, mint, kind) => [0] + (account.bytes + (Opt(mint) + ([kind] + tail)))
             case AssetPrice(feed, quoteMint, comparator, threshold, expo, source) =>
               [1] + (feed.bytes + (Opt(quoteMint)
               + ([comparator] + (Signed64(threshold) + (Signed32(expo) + ([source] + tail))))))
             case TimeElapsed(durationSecs) => [2] + (LE(durationSecs, 4) + tail)
             case PriceRelativeToFill(upstream, direction, pctBps) =>
               [3] + (upstream.bytes + ([direction] + (LE(pctBps, 4) + tail))))
  {
    hide LE;
    match t
    case AccountActivity(account, mint, kind) => OptBytes(mint, [kind] + tail);
    case AssetPrice(feed, quoteMint, comparator, threshold, expo, source) =>
      var last := [source] + tail;
      SignedBytes(threshold, expo, Signed32(expo) + last);
      SignedBytes(threshold, expo, last);
      OptBytes(quoteMint, [comparator] + (Signed64(threshold) + (Signed32(expo) + last)));
    case TimeElapsed(_) =>
    case PriceRelativeToFill(_, _, _) =>
  }

  lemma OptBytes(k: Option<Pubkey>, tail: Bytes)
    ensures PutOptKey(k, tail) == Opt(k) + tail
  {
    if k.Some? { assert [1] + (k.value.bytes + tail) == [1] + k.value.bytes + tail; }
  }

  lemma ActionLayout(a: ActionSpec, tail: Bytes)
    ensures PutAction(a, tail) ==
            (match a
             case TransferSol(destination, amount) => [0] + (destination.bytes + (LE(amount, 8) + tail))
             case TransferSpl(destination, mint, amount) =>
               [1] + (destination.bytes + (mint.bytes + (LE(amount, 8) + tail)))
             case Swap(input, output, destination, amountIn, minAmountOut, downstream, deposit, consume) =>
               [2] + (input.bytes + (output.bytes + (destination.bytes + (LE(amountIn, 8) + (LE(minAmountOut, 8)
               + (Opt(downstream) + (LE(deposit, 8) + ([if consume then 1 else 0] + tail)))))))))
  {
    hide LE;
    if a.Swap? {
      OptBytes(a.linkedDownstream, LE(a.linkFeeDeposit, 8) + ([if a.consumeUpstreamOutput then 1 else 0] + tail));
    }
  }

  lemma CadenceLayout(c: Cadence, tail: Bytes)
    ensures PutCadence(c, tail) ==
            (match c
             case Once => [0] + tail
             case Repeat(total) => [1] + (LE(total, 4) + tail)
             case Until(unixDeadline) => [2] + (Signed64(unixDeadline) + tail))
  {
    hide LE;
    if c.Until? { SignedBytes(c.unixDeadline, 0, tail); }
  }

  /** What follows the three enums has a fixed size. */
  lemma TailLayout(a: Automation, tail: Bytes)
    ensures PutTail(a, tail) ==
            LE(a.executions, 4) + (LE(a.minIntervalSecs, 4) + ([if a.finished then 1 else 0]
            + (Signed64(a.createdAt) + (Signed64(a.executedAt) + ([a.bump]
            + ([if a.feeTopupEnabled then 1 else 0] + ([if a.bridgeEnabled then 1 else 0] + (a.reserved + tail))))))))
  {
    hide LE;
    var flags := PutByte(a.bump, PutBool(a.feeTopupEnabled, PutBool(a.bridgeEnabled, a.reserved + tail)));
    SignedBytes(a.createdAt, 0, PutI64(a.executedAt, flags));
    SignedBytes(a.executedAt, 0, flags);
  }

  /** The owner's bytes, the nonce and the rest. */
  lemma AutomationLayout(a: Automation, tail: Bytes)
    ensures PutAutomation(a, tail) ==
            a.owner.bytes + (LE(a.nonce, 8)
            + PutTrigger(a.trigger, PutAction(a.action, PutCadence(a.cadence, PutTail(a, tail)))))
  {
  }

  /** The front end asks the node for accounts with the owner's address at byte
      8: those are exactly the owner's automations. */
  lemma OwnerAtByte8(discriminator: Bytes, data: Bytes, a: Automation, owner: Pubkey)
    requires |discriminator| == 8 && FromAccountData(discriminator, data) == Ok(a)
    ensures |data| >= 48 && (data[8..40] == owner.bytes <==> a.owner == owner) && data[40..48] == LE(a.nonce, 8)
  {
    hide FromAccountData, PutAutomation, LE;
    DecodesExactly(discriminator, data, a);
    var padding: Bytes :| data == discriminator + PutAutomation(a, padding);
    StartsWith(discriminator, a, padding);
    SameKey(a.owner, owner);
  }

  lemma StartsWith(discriminator: Bytes, a: Automation, padding: Bytes)
    requires |discriminator| == 8
    ensures var data := discriminator + PutAutomation(a, padding);
            |data| >= 48 && data[8..40] == a.owner.bytes && data[40..48] == LE(a.nonce, 8)
  {
    hide PutAutomation, PutTrigger, LE;
    AutomationLayout(a, padding);
    var rest := PutTrigger(a.trigger, PutAction(a.action, PutCadence(a.cadence, PutTail(a, padding))));
    FourParts(discriminator, a.owner.bytes, LE(a.nonce, 8), rest);
  }

  lemma SameKey(a: Pubkey, b: Pubkey)
    ensures a == b <==> a.bytes == b.bytes
  {
    assert a == Pubkey(a.bytes) && b == Pubkey(b.bytes);
  }

  lemma FourParts(a: Bytes, b: Bytes, c: Bytes, d: Bytes)
    ensures var s := a + (b + (c + d));
            |s| >= |a| + |b| + |c| && s[|a|..|a| + |b|] == b && s[|a| + |b|..|a| + |b| + |c|] == c
  {
  }
}
