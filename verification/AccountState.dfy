/** The automation account and its byte layout (keeper/src/state.rs, Borsh). */
module AccountState {
  import opened Common

  type Byte = x: int | 0 <= x < 0x100
  type Bytes = seq<Byte>
  type Bytes32 = b: seq<Byte> | |b| == 32 witness seq(32, _ => 0)
  type Bytes30 = b: seq<Byte> | |b| == 30 witness seq(30, _ => 0)
  type U32 = x: int | 0 <= x < 0x1_0000_0000
  type U64 = x: int | 0 <= x < 0x1_0000_0000_0000_0000
  type I32 = x: int | -0x8000_0000 <= x < 0x8000_0000
  type I64 = x: int | -0x8000_0000_0000_0000 <= x < 0x8000_0000_0000_0000

  datatype Pubkey = Pubkey(bytes: Bytes32)

  datatype TriggerSpec =
    | AccountActivity(account: Pubkey, mint: Option<Pubkey>, kind: Byte)
    | AssetPrice(feed: Pubkey, quoteMint: Option<Pubkey>, comparator: Byte, threshold: I64, expo: I32, source: Byte)
    | TimeElapsed(durationSecs: U32)
    | PriceRelativeToFill(upstream: Pubkey, direction: Byte, pctBps: U32)

  datatype ActionSpec =
    | TransferSol(solDestination: Pubkey, solAmount: U64)
    | TransferSpl(splDestination: Pubkey, splMint: Pubkey, splAmount: U64)
    | Swap(inputMint: Pubkey, outputMint: Pubkey, destination: Pubkey, amountIn: U64, minAmountOut: U64,
           linkedDownstream: Option<Pubkey>, linkFeeDeposit: U64, consumeUpstreamOutput: bool)

  datatype Cadence = Once | Repeat(total: U32) | Until(unixDeadline: I64)

  datatype Automation = Automation(
    owner: Pubkey, nonce: U64, trigger: TriggerSpec, action: ActionSpec, cadence: Cadence,
    executions: U32, minIntervalSecs: U32, finished: bool, createdAt: I64, executedAt: I64,
    bump: Byte, feeTopupEnabled: bool, bridgeEnabled: bool, reserved: Bytes30)

  // ---- fixed-width little-endian integers ------------------------------------

  function LE(n: nat, width: nat): (r: Bytes)
    ensures |r| == width
  {
    if width == 0 then [] else [n % 0x100] + LE(n / 0x100, width - 1)
  }

  function FromLE(bs: Bytes): nat {
    if bs == [] then 0 else bs[0] + 0x100 * FromLE(bs[1..])
  }

  function Pow256(width: nat): (p: nat)
    ensures p >= 1
  {
    if width == 0 then 1 else 0x100 * Pow256(width - 1)
  }

  lemma {:induction false} FromLEInverts(n: nat, width: nat)
    requires n < Pow256(width)
    ensures FromLE(LE(n, width)) == n
  {
    if width == 0 {
    } else {
      FromLEInverts(n / 0x100, width - 1);
      assert LE(n, width)[1..] == LE(n / 0x100, width - 1);
    }
  }

  lemma {:induction false} LEInverts(bs: Bytes)
    ensures FromLE(bs) < Pow256(|bs|)
    ensures LE(FromLE(bs), |bs|) == bs
  {
    if bs == [] {
    } else {
      LEInverts(bs[1..]);
      assert FromLE(bs) / 0x100 == FromLE(bs[1..]) && FromLE(bs) % 0x100 == bs[0];
    }
  }

  lemma Widths()
    ensures Pow256(4) == 0x1_0000_0000 && Pow256(8) == 0x1_0000_0000_0000_0000
  {
  }

  /** Reader: a value and the bytes left over, or a decode error. */
  type Read<T> = Option<(T, Bytes)>

  function Take(bs: Bytes, n: nat): (r: Read<Bytes>)
    ensures r.Some? <==> n <= |bs|
    ensures r.Some? ==> bs == r.value.0 + r.value.1 && |r.value.0| == n
  {
    if n <= |bs| then Some((bs[..n], bs[n..])) else None
  }

  lemma TakeAppend(xs: Bytes, rest: Bytes)
    ensures Take(xs + rest, |xs|) == Some((xs, rest))
  {
    assert (xs + rest)[..|xs|] == xs && (xs + rest)[|xs|..] == rest;
  }

  // ---- writers and readers -------------------------------------------------------

  // A writer puts a value in front of whatever follows it; a reader takes it off again.

  function PutU32(x: U32, tail: Bytes): Bytes { LE(x, 4) + tail }

  function GetU32(bs: Bytes): Read<U32> {
    var (b, rest) :- Take(bs, 4);
    Widths(); LEInverts(b);
    Some((FromLE(b), rest))
  }

  function PutU64(x: U64, tail: Bytes): Bytes { LE(x, 8) + tail }

  function GetU64(bs: Bytes): Read<U64> {
    var (b, rest) :- Take(bs, 8);
    Widths(); LEInverts(b);
    Some((FromLE(b), rest))
  }

  /** Two's complement. */
  function PutI64(x: I64, tail: Bytes): Bytes { LE(if x < 0 then x + 0x1_0000_0000_0000_0000 else x, 8) + tail }

  function GetI64(bs: Bytes): Read<I64> {
    var (b, rest) :- Take(bs, 8);
    Widths(); LEInverts(b);
    var n := FromLE(b);
    Some((if n >= 0x8000_0000_0000_0000 then n - 0x1_0000_0000_0000_0000 else n, rest))
  }

  function PutI32(x: I32, tail: Bytes): Bytes { LE(if x < 0 then x + 0x1_0000_0000 else x, 4) + tail }

  function GetI32(bs: Bytes): Read<I32> {
    var (b, rest) :- Take(bs, 4);
    Widths(); LEInverts(b);
    var n := FromLE(b);
    Some((if n >= 0x8000_0000 then n - 0x1_0000_0000 else n, rest))
  }

  function PutByte(x: Byte, tail: Bytes): Bytes { [x] + tail }

  function GetByte(bs: Bytes): Read<Byte> {
    if bs == [] then None else Some((bs[0], bs[1..]))
  }

  function PutBool(b: bool, tail: Bytes): Bytes { [if b then 1 else 0] + tail }

  /** Any byte but 0 and 1 is an error. */
  function GetBool(bs: Bytes): Read<bool> {
    if bs == [] || bs[0] > 1 then None else Some((bs[0] == 1, bs[1..]))
  }

  function PutKey(k: Pubkey, tail: Bytes): Bytes { k.bytes + tail }

  function GetKey(bs: Bytes): Read<Pubkey> {
    var (b, rest) :- Take(bs, 32);
    Some((Pubkey(b), rest))
  }

  function PutOptKey(k: Option<Pubkey>, tail: Bytes): Bytes {
    match k
    case None => [0] + tail
    case Some(k) => [1] + PutKey(k, tail)
  }

  function GetOptKey(bs: Bytes): Read<Option<Pubkey>> {
    var (some, rest) :- GetBool(bs);
    if !some then Some((None, rest))
    else
      var (k, rest) :- GetKey(rest);
      Some((Some(k), rest))
  }

  function PutTrigger(t: TriggerSpec, tail: Bytes): Bytes {
    match t
    case AccountActivity(account, mint, kind) =>
      PutByte(0, PutKey(account, PutOptKey(mint, PutByte(kind, tail))))
    case AssetPrice(feed, quoteMint, comparator, threshold, expo, source) =>
      PutByte(1, PutKey(feed,
                        PutOptKey(quoteMint,
                                  PutByte(comparator, PutI64(threshold, PutI32(expo, PutByte(source, tail)))))))
    case TimeElapsed(durationSecs) =>
      PutByte(2, PutU32(durationSecs, tail))
    case PriceRelativeToFill(upstream, direction, pctBps) =>
      PutByte(3, PutKey(upstream, PutByte(direction, PutU32(pctBps, tail))))
  }

  function GetTrigger(bs: Bytes): Read<TriggerSpec> {
    var (tag, bs) :- GetByte(bs);
    if tag == 0 then
      var (account, bs) :- GetKey(bs);
      var (mint, bs) :- GetOptKey(bs);
      var (kind, bs) :- GetByte(bs);
      Some((AccountActivity(account, mint, kind), bs))
    else if tag == 1 then
      var (feed, bs) :- GetKey(bs);
      var (quoteMint, bs) :- GetOptKey(bs);
      var (comparator, bs) :- GetByte(bs);
      var (threshold, bs) :- GetI64(bs);
      var (expo, bs) :- GetI32(bs);
      var (source, bs) :- GetByte(bs);
      Some((AssetPrice(feed, quoteMint, comparator, threshold, expo, source), bs))
    else if tag == 2 then
      var (durationSecs, bs) :- GetU32(bs);
      Some((TimeElapsed(durationSecs), bs))
    else if tag == 3 then
      var (upstream, bs) :- GetKey(bs);
      var (direction, bs) :- GetByte(bs);
      var (pctBps, bs) :- GetU32(bs);
      Some((PriceRelativeToFill(upstream, direction, pctBps), bs))
    else None
  }

  function PutAction(a: ActionSpec, tail: Bytes): Bytes {
    match a
    case TransferSol(destination, amount) =>
      PutByte(0, PutKey(destination, PutU64(amount, tail)))
    case TransferSpl(destination, mint, amount) =>
      PutByte(1, PutKey(destination, PutKey(mint, PutU64(amount, tail))))
    case Swap(_, _, _, _, _, _, _, _) => PutByte(2, PutSwap(a, tail))
  }

  function GetAction(bs: Bytes): Read<ActionSpec> {
    var (tag, bs) :- GetByte(bs);
    if tag == 0 then
      var (destination, bs) :- GetKey(bs);
      var (amount, bs) :- GetU64(bs);
      Some((TransferSol(destination, amount), bs))
    else if tag == 1 then
      var (destination, bs) :- GetKey(bs);
      var (mint, bs) :- GetKey(bs);
      var (amount, bs) :- GetU64(bs);
      Some((TransferSpl(destination, mint, amount), bs))
    else if tag == 2 then GetSwap(bs)
    else None
  }

  function PutSwap(a: ActionSpec, tail: Bytes): Bytes
    requires a.Swap?
  {
    PutKey(a.inputMint, PutKey(a.outputMint, PutKey(a.destination, PutU64(a.amountIn, PutU64(a.minAmountOut,
      PutOptKey(a.linkedDownstream, PutU64(a.linkFeeDeposit, PutBool(a.consumeUpstreamOutput, tail))))))))
  }

  function GetSwap(bs: Bytes): (r: Read<ActionSpec>)
    ensures r.Some? ==> r.value.0.Swap?
  {
    var (inputMint, bs) :- GetKey(bs);
    var (outputMint, bs) :- GetKey(bs);
    var (destination, bs) :- GetKey(bs);
    var (amountIn, bs) :- GetU64(bs);
    var (minAmountOut, bs) :- GetU64(bs);
    var (linkedDownstream, bs) :- GetOptKey(bs);
    var (linkFeeDeposit, bs) :- GetU64(bs);
    var (consume, bs) :- GetBool(bs);
    Some((Swap(inputMint, outputMint, destination, amountIn, minAmountOut, linkedDownstream, linkFeeDeposit, consume),
          bs))
  }

  function PutCadence(c: Cadence, tail: Bytes): Bytes {
    match c
    case Once => PutByte(0, tail)
    case Repeat(total) => PutByte(1, PutU32(total, tail))
    case Until(unixDeadline) => PutByte(2, PutI64(unixDeadline, tail))
  }

  function GetCadence(bs: Bytes): Read<Cadence> {
    var (tag, bs) :- GetByte(bs);
    if tag == 0 then Some((Once, bs))
    else if tag == 1 then
      var (total, bs) :- GetU32(bs);
      Some((Repeat(total), bs))
    else if tag == 2 then
      var (unixDeadline, bs) :- GetI64(bs);
      Some((Until(unixDeadline), bs))
    else None
  }

  function PutAutomation(a: Automation, tail: Bytes): Bytes {
    PutKey(a.owner, PutU64(a.nonce,
                           PutTrigger(a.trigger, PutAction(a.action, PutCadence(a.cadence, PutTail(a, tail))))))
  }

  /** The fixed-size fields after the three enums. */
  function PutTail(a: Automation, tail: Bytes): Bytes {
    PutU32(a.executions, PutU32(a.minIntervalSecs, PutBool(a.finished, PutI64(a.createdAt, PutI64(a.executedAt,
      PutByte(a.bump, PutBool(a.feeTopupEnabled, PutBool(a.bridgeEnabled, a.reserved + tail))))))))
  }

  function GetAutomation(bs: Bytes): Read<Automation> {
    var (owner, bs) :- GetKey(bs);
    var (nonce, bs) :- GetU64(bs);
    var (trigger, bs) :- GetTrigger(bs);
    var (action, bs) :- GetAction(bs);
    var (cadence, bs) :- GetCadence(bs);
    GetTail(owner, nonce, trigger, action, cadence, bs)
  }

  function GetTail(owner: Pubkey, nonce: U64, trigger: TriggerSpec, action: ActionSpec, cadence: Cadence,
                   bs: Bytes): Read<Automation> {
    var (executions, bs) :- GetU32(bs);
    var (minIntervalSecs, bs) :- GetU32(bs);
    var (finished, bs) :- GetBool(bs);
    var (createdAt, bs) :- GetI64(bs);
    var (executedAt, bs) :- GetI64(bs);
    var (bump, bs) :- GetByte(bs);
    var (feeTopupEnabled, bs) :- GetBool(bs);
    var (bridgeEnabled, bs) :- GetBool(bs);
    var (reserved, bs) :- Take(bs, 30);
    Some((Automation(owner, nonce, trigger, action, cadence, executions, minIntervalSecs, finished, createdAt,
                     executedAt,
      bump, feeTopupEnabled, bridgeEnabled, reserved), bs))
  }

  datatype DecodeError = TooShort(length: nat) | DiscriminatorMismatch | BorshFailed

  /** Trailing bytes are ignored: accounts are sized for the largest variants. */
  function FromAccountData(discriminator: Bytes, data: Bytes): Result<Automation, DecodeError> {
    if |data| < 8 then Err(TooShort(|data|))
    else if data[..8] != discriminator then Err(DiscriminatorMismatch)
    else
      match GetAutomation(data[8..])
      case None => Err(BorshFailed)
      case Some((a, _)) => Ok(a)
  }

  // ---- each reader inverts its writer, both ways -----------------------------------

  ghost predicate Inverts<T(!new)>(put: (T, Bytes) -> Bytes, get: Bytes -> Read<T>) {
    && (forall v: T, tail: Bytes :: get(put(v, tail)) == Some((v, tail)))
    && (forall bs: Bytes :: get(bs).Some? ==> bs == put(get(bs).value.0, get(bs).value.1))
  }

  lemma U32Inverts()
    ensures Inverts(PutU32, GetU32)
  {
    Widths();
    forall v: U32, tail: Bytes
      ensures GetU32(PutU32(v, tail)) == Some((v, tail))
    {
      TakeAppend(LE(v, 4), tail);
      FromLEInverts(v, 4);
    }
    forall bs: Bytes | GetU32(bs).Some?
      ensures bs == PutU32(GetU32(bs).value.0, GetU32(bs).value.1)
    {
      LEInverts(Take(bs, 4).value.0);
    }
  }

  lemma U64Inverts()
    ensures Inverts(PutU64, GetU64)
  {
    Widths();
    forall v: U64, tail: Bytes
      ensures GetU64(PutU64(v, tail)) == Some((v, tail))
    {
      TakeAppend(LE(v, 8), tail);
      FromLEInverts(v, 8);
    }
    forall bs: Bytes | GetU64(bs).Some?
      ensures bs == PutU64(GetU64(bs).value.0, GetU64(bs).value.1)
    {
      LEInverts(Take(bs, 8).value.0);
    }
  }

  lemma I64Inverts()
    ensures Inverts(PutI64, GetI64)
  {
    Widths();
    forall v: I64, tail: Bytes
      ensures GetI64(PutI64(v, tail)) == Some((v, tail))
    {
      var n := if v < 0 then v + 0x1_0000_0000_0000_0000 else v;
      TakeAppend(LE(n, 8), tail);
      FromLEInverts(n, 8);
    }
    forall bs: Bytes | GetI64(bs).Some?
      ensures bs == PutI64(GetI64(bs).value.0, GetI64(bs).value.1)
    {
      LEInverts(Take(bs, 8).value.0);
    }
  }

  lemma I32Inverts()
    ensures Inverts(PutI32, GetI32)
  {
    Widths();
    forall v: I32, tail: Bytes
      ensures GetI32(PutI32(v, tail)) == Some((v, tail))
    {
      var n := if v < 0 then v + 0x1_0000_0000 else v;
      TakeAppend(LE(n, 4), tail);
      FromLEInverts(n, 4);
    }
    forall bs: Bytes | GetI32(bs).Some?
      ensures bs == PutI32(GetI32(bs).value.0, GetI32(bs).value.1)
    {
      LEInverts(Take(bs, 4).value.0);
    }
  }

  lemma ByteInverts()
    ensures Inverts(PutByte, GetByte)
  {
  }

  lemma BoolInverts()
    ensures Inverts(PutBool, GetBool)
  {
  }

  lemma KeyInverts()
    ensures Inverts(PutKey, GetKey)
  {
  }

  lemma OptKeyInverts()
    ensures Inverts(PutOptKey, GetOptKey)
  {
  }

  /** What the composite codecs need of the primitive ones. */
  lemma PrimitivesReadBack()
    ensures forall v: U32, tail: Bytes :: GetU32(PutU32(v, tail)) == Some((v, tail))
    ensures forall v: U64, tail: Bytes :: GetU64(PutU64(v, tail)) == Some((v, tail))
    ensures forall v: I64, tail: Bytes :: GetI64(PutI64(v, tail)) == Some((v, tail))
    ensures forall v: I32, tail: Bytes :: GetI32(PutI32(v, tail)) == Some((v, tail))
    ensures forall v: Byte, tail: Bytes :: GetByte(PutByte(v, tail)) == Some((v, tail))
    ensures forall v: bool, tail: Bytes :: GetBool(PutBool(v, tail)) == Some((v, tail))
    ensures forall v: Pubkey, tail: Bytes :: GetKey(PutKey(v, tail)) == Some((v, tail))
    ensures forall v: Option<Pubkey>, tail: Bytes :: GetOptKey(PutOptKey(v, tail)) == Some((v, tail))
  {
    hide PutU32, GetU32, PutU64, GetU64, PutI64, GetI64, PutI32, GetI32;
    hide PutByte, GetByte, PutBool, GetBool, PutKey, GetKey, PutOptKey, GetOptKey;
    U32Inverts(); U64Inverts(); I64Inverts(); I32Inverts(); ByteInverts(); BoolInverts(); KeyInverts(); OptKeyInverts();
  }

  lemma PrimitivesAccept()
    ensures forall bs: Bytes :: GetU32(bs).Some? ==> bs == PutU32(GetU32(bs).value.0, GetU32(bs).value.1)
    ensures forall bs: Bytes :: GetU64(bs).Some? ==> bs == PutU64(GetU64(bs).value.0, GetU64(bs).value.1)
    ensures forall bs: Bytes :: GetI64(bs).Some? ==> bs == PutI64(GetI64(bs).value.0, GetI64(bs).value.1)
    ensures forall bs: Bytes :: GetI32(bs).Some? ==> bs == PutI32(GetI32(bs).value.0, GetI32(bs).value.1)
    ensures forall bs: Bytes :: GetByte(bs).Some? ==> bs == PutByte(GetByte(bs).value.0, GetByte(bs).value.1)
    ensures forall bs: Bytes :: GetBool(bs).Some? ==> bs == PutBool(GetBool(bs).value.0, GetBool(bs).value.1)
    ensures forall bs: Bytes :: GetKey(bs).Some? ==> bs == PutKey(GetKey(bs).value.0, GetKey(bs).value.1)
    ensures forall bs: Bytes :: GetOptKey(bs).Some? ==> bs == PutOptKey(GetOptKey(bs).value.0, GetOptKey(bs).value.1)
  {
    hide PutU32, GetU32, PutU64, GetU64, PutI64, GetI64, PutI32, GetI32;
    hide PutByte, GetByte, PutBool, GetBool, PutKey, GetKey, PutOptKey, GetOptKey;
    U32Inverts(); U64Inverts(); I64Inverts(); I32Inverts(); ByteInverts(); BoolInverts(); KeyInverts(); OptKeyInverts();
  }

  lemma TriggerReadsBack(t: TriggerSpec, tail: Bytes)
    ensures GetTrigger(PutTrigger(t, tail)) == Some((t, tail))
  {
    hide PutU32, GetU32, PutI64, GetI64, PutI32, GetI32, PutByte, GetByte, PutKey, GetKey, PutOptKey, GetOptKey;
    PrimitivesReadBack();
  }

  lemma TriggerAcceptsOnly(bs: Bytes)
    ensures GetTrigger(bs).Some? ==> bs == PutTrigger(GetTrigger(bs).value.0, GetTrigger(bs).value.1)
  {
    hide PutU32, GetU32, PutI64, GetI64, PutI32, GetI32, PutByte, GetByte, PutKey, GetKey, PutOptKey, GetOptKey;
    PrimitivesAccept();
  }

  lemma SwapReadsBack(a: ActionSpec, tail: Bytes)
    requires a.Swap?
    ensures GetSwap(PutSwap(a, tail)) == Some((a, tail))
  {
    hide PutU64, GetU64, PutBool, GetBool, PutKey, GetKey, PutOptKey, GetOptKey;
    PrimitivesReadBack();
  }

  lemma SwapAcceptsOnly(bs: Bytes)
    ensures GetSwap(bs).Some? ==> bs == PutSwap(GetSwap(bs).value.0, GetSwap(bs).value.1)
  {
    hide PutU64, GetU64, PutBool, GetBool, PutKey, GetKey, PutOptKey, GetOptKey;
    PrimitivesAccept();
  }

  lemma ActionReadsBack(a: ActionSpec, tail: Bytes)
    ensures GetAction(PutAction(a, tail)) == Some((a, tail))
  {
    hide PutU64, GetU64, PutByte, GetByte, PutBool, GetBool, PutKey, GetKey, PutOptKey, GetOptKey, PutSwap, GetSwap;
    PrimitivesReadBack();
    if a.Swap? { SwapReadsBack(a, tail); }
  }

  lemma ActionAcceptsOnly(bs: Bytes)
    ensures GetAction(bs).Some? ==> bs == PutAction(GetAction(bs).value.0, GetAction(bs).value.1)
  {
    hide PutU64, GetU64, PutByte, GetByte, PutBool, GetBool, PutKey, GetKey, PutOptKey, GetOptKey, PutSwap, GetSwap;
    PrimitivesAccept();
    if GetByte(bs).Some? { SwapAcceptsOnly(GetByte(bs).value.1); }
  }

  lemma CadenceReadsBack(c: Cadence, tail: Bytes)
    ensures GetCadence(PutCadence(c, tail)) == Some((c, tail))
  {
    hide PutU32, GetU32, PutI64, GetI64, PutByte, GetByte;
    PrimitivesReadBack();
  }

  lemma CadenceAcceptsOnly(bs: Bytes)
    ensures GetCadence(bs).Some? ==> bs == PutCadence(GetCadence(bs).value.0, GetCadence(bs).value.1)
  {
    hide PutU32, GetU32, PutI64, GetI64, PutByte, GetByte;
    PrimitivesAccept();
  }

  lemma TailReadsBack(a: Automation, tail: Bytes)
    ensures GetTail(a.owner, a.nonce, a.trigger, a.action, a.cadence, PutTail(a, tail)) == Some((a, tail))
  {
    hide PutU32, GetU32, PutI64, GetI64, PutByte, GetByte, PutBool, GetBool;
    PrimitivesReadBack();
    TakeAppend(a.reserved, tail);
  }

  lemma TailAcceptsOnly(owner: Pubkey, nonce: U64, trigger: TriggerSpec, action: ActionSpec, cadence: Cadence,
                        bs: Bytes)
    ensures var r := GetTail(owner, nonce, trigger, action, cadence, bs);
            r.Some? ==> (bs == PutTail(r.value.0, r.value.1)
              && (r.value.0.owner, r.value.0.nonce, r.value.0.trigger, r.value.0.action, r.value.0.cadence) ==
                 (owner, nonce, trigger, action, cadence))
  {
    hide PutU32, GetU32, PutI64, GetI64, PutByte, GetByte, PutBool, GetBool;
    PrimitivesAccept();
  }

  lemma AutomationReadsBack(a: Automation, tail: Bytes)
    ensures GetAutomation(PutAutomation(a, tail)) == Some((a, tail))
  {
    hide PutU64, GetU64, PutKey, GetKey, PutTrigger, GetTrigger;
    hide PutAction, GetAction, PutCadence, GetCadence, PutTail, GetTail;
    PrimitivesReadBack();
    TailReadsBack(a, tail);
    CadenceReadsBack(a.cadence, PutTail(a, tail));
    ActionReadsBack(a.action, PutCadence(a.cadence, PutTail(a, tail)));
    TriggerReadsBack(a.trigger, PutAction(a.action, PutCadence(a.cadence, PutTail(a, tail))));
  }

  lemma AutomationAcceptsOnly(bs: Bytes)
    ensures GetAutomation(bs).Some? ==> bs == PutAutomation(GetAutomation(bs).value.0, GetAutomation(bs).value.1)
  {
    hide PutU64, GetU64, PutKey, GetKey, PutTrigger, GetTrigger;
    hide PutAction, GetAction, PutCadence, GetCadence, PutTail, GetTail;
    PrimitivesAccept();
    if GetAutomation(bs).Some? {
      var (owner, b1) := GetKey(bs).value;
      var (nonce, b2) := GetU64(b1).value;
      var (trigger, b3) := GetTrigger(b2).value;
      var (action, b4) := GetAction(b3).value;
      var (cadence, b5) := GetCadence(b4).value;
      TriggerAcceptsOnly(b2);
      ActionAcceptsOnly(b3);
      CadenceAcceptsOnly(b4);
      TailAcceptsOnly(owner, nonce, trigger, action, cadence, b5);
    }
  }

  /** Account data decodes to `a` exactly when it is the discriminator, the
      encoding of `a`, and any padding whatever. */
  lemma DecodesExactly(discriminator: Bytes, data: Bytes, a: Automation)
    requires |discriminator| == 8
    ensures FromAccountData(discriminator, data) == Ok(a) <==>
            exists padding: Bytes :: data == discriminator + PutAutomation(a, padding)
  {
    if padding: Bytes :| data == discriminator + PutAutomation(a, padding) {
      AutomationReadsBack(a, padding);
      assert data[..8] == discriminator && data[8..] == PutAutomation(a, padding);
    }
    if FromAccountData(discriminator, data) == Ok(a) {
      AutomationAcceptsOnly(data[8..]);
      var padding := GetAutomation(data[8..]).value.1;
      assert data == data[..8] + data[8..];
      assert data == discriminator + PutAutomation(a, padding);
    }
  }

  /** The other answers: which error, and exactly when. */
  lemma ErrorsMean(discriminator: Bytes, data: Bytes)
    requires |discriminator| == 8
    ensures FromAccountData(discriminator, data) == Err(TooShort(|data|)) <==> |data| < 8
    ensures FromAccountData(discriminator, data) == Err(DiscriminatorMismatch) <==>
            |data| >= 8 && data[..8] != discriminator
    ensures FromAccountData(discriminator, data) == Err(BorshFailed) <==>
            |data| >= 8 && data[..8] == discriminator &&
            forall a, padding: Bytes :: data != discriminator + PutAutomation(a, padding)
  {
    if |data| >= 8 && data[..8] == discriminator {
      forall a, padding: Bytes | data == discriminator + PutAutomation(a, padding)
        ensures FromAccountData(discriminator, data) == Ok(a)
      {
        DecodesExactly(discriminator, data, a);
      }
      if FromAccountData(discriminator, data).Ok? {
        DecodesExactly(discriminator, data, FromAccountData(discriminator, data).value);
      }
    }
  }
}
