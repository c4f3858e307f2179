/** Relaying a swap: the keeper splits every inner account between instruction
    data (flags) and the account list (keys); the program puts them together
    again (keeper/src/program.rs, keeper/src/jupiter.rs,
    programs/sotama_automations/src/instructions/execute_swap.rs). */
module SwapInstruction {
  import opened Common
  import opened AccountState

  datatype AccountMeta = AccountMeta(pubkey: Pubkey, isSigner: bool, isWritable: bool)

  datatype Instruction = Instruction(programId: Pubkey, accounts: seq<AccountMeta>, data: Bytes)

  /** Fixed accounts of the call. */
  datatype Outer = Outer(programId: Pubkey, keeper: Pubkey, config: Pubkey, automation: Pubkey,
                         jupiterProgram: Pubkey, treasuryOutputAta: Pubkey, tokenProgram: Pubkey)

  const PREFIX: nat := 6

  // ---- locating accounts -----------------------------------------------------

  function Position(accounts: seq<AccountMeta>, key: Pubkey): (r: Option<nat>)
    ensures r.Some? ==> r.value < |accounts| && accounts[r.value].pubkey == key && forall j :: 0 <= j < r.value ==>
              accounts[j].pubkey != key
    ensures r.None? ==> forall j :: 0 <= j < |accounts| ==> accounts[j].pubkey != key
  {
    if accounts == [] then None
    else if accounts[0].pubkey == key then Some(0)
    else
      match Position(accounts[1..], key)
      case None => None
      case Some(i) => Some(i + 1)
  }

  datatype LocateError = Missing(key: Pubkey) | TooManyAccounts

  function Locate(accounts: seq<AccountMeta>, key: Pubkey): Result<Byte, LocateError> {
    match Position(accounts, key)
    case None => Err(Missing(key))
    case Some(i) => if i > 255 then Err(TooManyAccounts) else Ok(i)
  }

  /** Both token accounts; a missing one is reported before an index that is too large. */
  function LocateAtas(accounts: seq<AccountMeta>, inputAta: Pubkey, outputAta: Pubkey)
    : Result<(Byte, Byte), LocateError> {
    match (Position(accounts, inputAta), Position(accounts, outputAta))
    case (None, _) => Err(Missing(inputAta))
    case (_, None) => Err(Missing(outputAta))
    case (Some(i), Some(o)) => if i > 255 || o > 255 then Err(TooManyAccounts) else Ok((i, o))
  }

  /** Where account `key` first stands in the list. */
  ghost predicate FirstAt(accounts: seq<AccountMeta>, key: Pubkey, i: nat) {
    i < |accounts| && accounts[i].pubkey == key && forall j :: 0 <= j < i ==> accounts[j].pubkey != key
  }

  /** An account is located exactly if it first stands at one of the first 256
      places, and then at that place; the error says which went wrong. */
  lemma LocatedIff(accounts: seq<AccountMeta>, key: Pubkey, i: nat)
    ensures Locate(accounts, key) == Ok(i) <==> i < 256 && FirstAt(accounts, key, i)
    ensures Locate(accounts, key) == Err(Missing(key)) <==>
            forall j :: 0 <= j < |accounts| ==> accounts[j].pubkey != key
    ensures Locate(accounts, key) == Err(TooManyAccounts) <==> exists j: nat :: j >= 256 && FirstAt(accounts, key, j)
  {
    var found := Position(accounts, key);
    if found.Some? { assert FirstAt(accounts, key, found.value); }
  }

  /** Both token accounts are located exactly if each is. */
  lemma AtasLocatedIff(accounts: seq<AccountMeta>, inputAta: Pubkey, outputAta: Pubkey, i: nat, o: nat)
    ensures LocateAtas(accounts, inputAta, outputAta) == Ok((i, o)) <==>
            i < 256 && o < 256 && FirstAt(accounts, inputAta, i) && FirstAt(accounts, outputAta, o)
    ensures LocateAtas(accounts, inputAta, outputAta) == Err(Missing(inputAta)) <==>
            forall j :: 0 <= j < |accounts| ==> accounts[j].pubkey != inputAta
  {
    LocatedIff(accounts, inputAta, i);
    LocatedIff(accounts, outputAta, o);
  }

  // ---- the instruction data -----------------------------------------------------

  /** Length prefix as a u32: longer lengths are cut. */
  function PutLength(n: nat, tail: Bytes): Bytes {
    PutU32(n % TWO_32, tail)
  }

  function FlagBytes(accounts: seq<AccountMeta>): Bytes {
    if accounts == [] then []
    else FlagBytes(accounts[..|accounts| - 1]) + PairOf(accounts[|accounts| - 1])
  }

  function PairOf(m: AccountMeta): Bytes {
    [if m.isSigner then 1 else 0, if m.isWritable then 1 else 0]
  }

  function SwapData(discriminator: Bytes, inner: seq<AccountMeta>, innerData: Bytes,
                    indices: (Byte, Byte, Byte)): Bytes {
    discriminator + PutLength(|innerData|,
                              innerData + PutLength(|inner|, FlagBytes(inner) + [indices.0, indices.1, indices.2]))
  }

  ghost predicate IsExecuteSwap(ix: Instruction, discriminator: Bytes, outer: Outer, inner: seq<AccountMeta>,
                                innerData: Bytes, indices: (Byte, Byte, Byte), downstream: Option<Pubkey>)
  {
    && ix.programId == outer.programId
    && ix.data == SwapData(discriminator, inner, innerData, indices)
    && |ix.accounts| == PREFIX + |inner| + (if downstream.Some? then 1 else 0)
    && ix.accounts[..PREFIX] == [
         AccountMeta(outer.keeper, true, false),
         AccountMeta(outer.config, false, false),
         AccountMeta(outer.automation, false, true),
         AccountMeta(outer.jupiterProgram, false, false),
         AccountMeta(outer.treasuryOutputAta, false, true),
         AccountMeta(outer.tokenProgram, false, false)]
    && (forall i :: 0 <= i < |inner| ==> ix.accounts[PREFIX + i] == inner[i].(isSigner := false))
    && (downstream.Some? ==> ix.accounts[PREFIX + |inner|] == AccountMeta(downstream.value, false, true))
  }

  method BuildData(discriminator: Bytes, inner: seq<AccountMeta>, innerData: Bytes, inputAtaIndex: Byte,
                   outputAtaIndex: Byte, outputMintIndex: Byte) returns (data: Bytes)
    ensures data == SwapData(discriminator, inner, innerData, (inputAtaIndex, outputAtaIndex, outputMintIndex))
  {
    var flags: Bytes := [];
    for i := 0 to |inner|
      invariant flags == FlagBytes(inner[..i])
    {
      flags := flags + [if inner[i].isSigner then 1 else 0];
      flags := flags + [if inner[i].isWritable then 1 else 0];
      assert inner[..i + 1][..i] == inner[..i];
      assert FlagBytes(inner[..i]) + PairOf(inner[i]) == flags;
    }
    assert inner[..|inner|] == inner;
    var sent := innerData + PutLength(|inner|, flags + [inputAtaIndex, outputAtaIndex, outputMintIndex]);
    data := discriminator + PutLength(|innerData|, sent);
  }

  method BuildExecuteSwapIx(discriminator: Bytes, outer: Outer, inner: seq<AccountMeta>, innerData: Bytes,
                            inputAtaIndex: Byte, outputAtaIndex: Byte, outputMintIndex: Byte,
                            downstream: Option<Pubkey>)
    returns (ix: Instruction)
    ensures IsExecuteSwap(ix, discriminator, outer, inner, innerData,
                          (inputAtaIndex, outputAtaIndex, outputMintIndex), downstream)
    ensures forall i :: 0 <= i < |ix.accounts| ==> (ix.accounts[i].isSigner <==> i == 0)
    ensures forall i :: 0 <= i < |ix.accounts| && ix.accounts[i].isWritable ==>
              i == 2 || i == 4 || (6 <= i < 6 + |inner| && inner[i - 6].isWritable) || i == 6 + |inner|
  {
    var data := BuildData(discriminator, inner, innerData, inputAtaIndex, outputAtaIndex, outputMintIndex);
    hide SwapData;
    var accounts := [
      AccountMeta(outer.keeper, true, false),
      AccountMeta(outer.config, false, false),
      AccountMeta(outer.automation, false, true),
      AccountMeta(outer.jupiterProgram, false, false),
      AccountMeta(outer.treasuryOutputAta, false, true),
      AccountMeta(outer.tokenProgram, false, false)];
    ghost var prefix := accounts;
    for i := 0 to |inner|
      invariant |accounts| == PREFIX + i && accounts[..PREFIX] == prefix
      invariant forall j :: 0 <= j < i ==> accounts[PREFIX + j] == inner[j].(isSigner := false)
    {
      accounts := accounts + [AccountMeta(inner[i].pubkey, false, inner[i].isWritable)];
    }
    if downstream.Some? {
      accounts := accounts + [AccountMeta(downstream.value, false, true)];
    }
    ix := Instruction(outer.programId, accounts, data);
    forall i | 0 <= i < |ix.accounts|
      ensures ix.accounts[i].isSigner <==> i == 0
      ensures ix.accounts[i].isWritable ==>
                i == 2 || i == 4 || (6 <= i < 6 + |inner| && inner[i - 6].isWritable) || i == 6 + |inner|
    {
      if i < PREFIX { assert accounts[i] == accounts[..PREFIX][i]; }
      else if i < PREFIX + |inner| { assert accounts[PREFIX + (i - PREFIX)] == inner[i - PREFIX].(isSigner := false); }
    }
  }

  lemma {:induction false} FlagsAt(accounts: seq<AccountMeta>, i: nat)
    requires i < |accounts|
    ensures |FlagBytes(accounts)| == 2 * |accounts|
    ensures FlagBytes(accounts)[2 * i] == if accounts[i].isSigner then 1 else 0
    ensures FlagBytes(accounts)[2 * i + 1] == if accounts[i].isWritable then 1 else 0
  {
    var n := |accounts| - 1;
    if n == 0 {
      assert FlagBytes(accounts[..0]) == [];
    } else {
      FlagsAt(accounts[..n], if i < n then i else 0);
    }
  }

  /** The data: discriminator, length and bytes of the inner data, number and
      flags of the inner accounts, the three places. */
  lemma DataBytes(discriminator: Bytes, inner: seq<AccountMeta>, innerData: Bytes, indices: (Byte, Byte, Byte))
    returns (flags: Bytes)
    requires |innerData| < TWO_32 && |inner| < TWO_32
    ensures SwapData(discriminator, inner, innerData, indices) ==
            discriminator + LE(|innerData|, 4) + innerData + LE(|inner|, 4) + flags +
            [indices.0, indices.1, indices.2]
    ensures |flags| == 2 * |inner|
    ensures forall i :: 0 <= i < |inner| ==>
              flags[2 * i] == (if inner[i].isSigner then 1 else 0) &&
              flags[2 * i + 1] == if inner[i].isWritable then 1 else 0
  {
    hide FlagBytes, LE;
    flags := FlagBytes(inner);
    if inner == [] { NoFlagBytes(); }
    forall i | 0 <= i < |inner|
      ensures |flags| == 2 * |inner|
      ensures flags[2 * i] == (if inner[i].isSigner then 1 else 0)
      ensures flags[2 * i + 1] == if inner[i].isWritable then 1 else 0
    {
      FlagsAt(inner, i);
    }
    if |inner| > 0 { FlagsAt(inner, 0); }
  }

  // ---- what the program reads ------------------------------------------------------

  /** The accounts the program takes for its named ones, and the inner call as it
      reconstructs it. */
  datatype Relayed = Relayed(outer: Outer, accounts: seq<AccountMeta>, data: Bytes, inputAta: Pubkey,
                             outputAta: Pubkey, downstream: Option<Pubkey>)

  /** The named accounts, by their place in the program's account struct. */
  function Named(ix: Instruction): Outer
    requires |ix.accounts| >= PREFIX
  {
    var a := ix.accounts;
    Outer(ix.programId, a[0].pubkey, a[1].pubkey, a[2].pubkey, a[3].pubkey, a[4].pubkey, a[5].pubkey)
  }

  /** The keeper signs, the automation and the treasury's account are writable,
      and so is whatever the inner call or the deposit to the downstream rule writes. */
  predicate Permitted(ix: Instruction, pairs: seq<(bool, bool)>, downstream: bool)
    requires |ix.accounts| >= PREFIX + |pairs| + (if downstream then 1 else 0)
  {
    && ix.accounts[0].isSigner && ix.accounts[2].isWritable && ix.accounts[4].isWritable
    && (forall i :: 0 <= i < |pairs| && pairs[i].1 ==> ix.accounts[PREFIX + i].isWritable)
    && (downstream ==> ix.accounts[PREFIX + |pairs|].isWritable)
  }

  function GetPairs(n: nat, bs: Bytes): (r: Read<seq<(bool, bool)>>)
    ensures r.Some? ==> |r.value.0| == n
  {
    if n == 0 then Some(([], bs))
    else
      var (signer, bs) :- GetBool(bs);
      var (writable, bs) :- GetBool(bs);
      var (more, bs) :- GetPairs(n - 1, bs);
      Some(([(signer, writable)] + more, bs))
  }

  datatype SwapArgs = SwapArgs(data: Bytes, pairs: seq<(bool, bool)>, inputIndex: Byte, outputIndex: Byte,
                               mintIndex: Byte)

  function GetArgs(bs: Bytes): Option<SwapArgs> {
    var (data, bs) :- GetVec(bs);
    var (pairs, bs) :- GetMetas(bs);
    var (inputIndex, bs) :- GetByte(bs);
    var (outputIndex, bs) :- GetByte(bs);
    var (mintIndex, bs) :- GetByte(bs);
    Some(SwapArgs(data, pairs, inputIndex, outputIndex, mintIndex))
  }

  function GetVec(bs: Bytes): Read<Bytes> {
    var (length, bs) :- GetU32(bs);
    Take(bs, length)
  }

  function GetMetas(bs: Bytes): Read<seq<(bool, bool)>> {
    var (count, bs) :- GetU32(bs);
    GetPairs(count, bs)
  }

  /** The handler's relay checks: remaining accounts are the inner ones and the
      recorded downstream rule, indices lie inside, the mint and the downstream
      rule are the recorded ones. `None` is any of its errors. */
  function Handle(discriminator: Bytes, ix: Instruction, outputMint: Pubkey,
                  recordedDownstream: Option<Pubkey>): Option<Relayed> {
    if |ix.data| < 8 || ix.data[..8] != discriminator || |ix.accounts| < PREFIX then None
    else
      var args :- GetArgs(ix.data[8..]);
      var remaining, n := ix.accounts[PREFIX..], |args.pairs|;
      if |remaining| != n + (if recordedDownstream.Some? then 1 else 0) then None
      else if args.inputIndex >= n || args.outputIndex >= n || args.mintIndex >= n then None
      else if remaining[args.mintIndex].pubkey != outputMint then None
      else if recordedDownstream.Some? && remaining[n].pubkey != recordedDownstream.value then None
      else if !Permitted(ix, args.pairs, recordedDownstream.Some?) then None
      else
        Some(Relayed(Named(ix), Rebuild(remaining, args.pairs), args.data, remaining[args.inputIndex].pubkey,
                     remaining[args.outputIndex].pubkey, recordedDownstream))
  }

  /** Keys from the account list, flags from the data. */
  function Rebuild(remaining: seq<AccountMeta>, pairs: seq<(bool, bool)>): seq<AccountMeta>
    requires |remaining| >= |pairs|
  {
    seq(|pairs|, i requires 0 <= i < |pairs| => AccountMeta(remaining[i].pubkey, pairs[i].0, pairs[i].1))
  }

  function Pairs(accounts: seq<AccountMeta>): (r: seq<(bool, bool)>)
    ensures |r| == |accounts|
  {
    seq(|accounts|, i requires 0 <= i < |accounts| => (accounts[i].isSigner, accounts[i].isWritable))
  }

  lemma NoFlagBytes()
    ensures FlagBytes([]) == []
  {
  }

  lemma FlagBytesLast(accounts: seq<AccountMeta>)
    requires accounts != []
    ensures FlagBytes(accounts) == FlagBytes(accounts[..|accounts| - 1]) + PairOf(accounts[|accounts| - 1])
  {
  }

  lemma {:induction false} FlagBytesFront(accounts: seq<AccountMeta>)
    requires accounts != []
    ensures FlagBytes(accounts) == PairOf(accounts[0]) + FlagBytes(accounts[1..])
  {
    hide PairOf, FlagBytes;
    var n := |accounts|;
    var init, tail := accounts[..n - 1], accounts[1..];
    FlagBytesLast(accounts);
    if n == 1 {
      assert init == [] && tail == [];
      NoFlagBytes();
    } else {
      FlagBytesFront(init);
      FlagBytesLast(tail);
      assert init[1..] == tail[..n - 2] && tail[n - 2] == accounts[n - 1];
    }
  }

  lemma PairReads(m: AccountMeta, rest: Bytes)
    ensures GetBool(PairOf(m) + rest) == Some((m.isSigner, [if m.isWritable then 1 else 0] + rest))
    ensures GetBool([if m.isWritable then 1 else 0] + rest) == Some((m.isWritable, rest))
  {
    var w: Byte := if m.isWritable then 1 else 0;
    assert (PairOf(m) + rest)[1..] == [w] + rest;
  }

  lemma {:induction false} PairsReadBack(accounts: seq<AccountMeta>, tail: Bytes)
    ensures GetPairs(|accounts|, FlagBytes(accounts) + tail) == Some((Pairs(accounts), tail))
  {
    hide GetBool;
    if accounts == [] {
      assert FlagBytes(accounts) + tail == tail;
      assert Pairs(accounts) == [];
    } else {
      var m, rest := accounts[0], FlagBytes(accounts[1..]) + tail;
      assert FlagBytes(accounts) + tail == PairOf(m) + rest by { FlagBytesFront(accounts); }
      PairsReadBack(accounts[1..], tail);
      PairReads(m, rest);
      assert Pairs(accounts) == [(m.isSigner, m.isWritable)] + Pairs(accounts[1..]);
    }
  }

  lemma LengthReads(n: nat, tail: Bytes)
    ensures GetU32(PutLength(n, tail)) == Some((n % TWO_32, tail))
  {
    U32Inverts();
    assert GetU32(PutU32(n % TWO_32, tail)) == Some((n % TWO_32, tail));
  }

  lemma IndicesRead(i: Byte, o: Byte, m: Byte)
    ensures GetByte([i, o, m]) == Some((i, [o, m])) && GetByte([o, m]) == Some((o, [m])) &&
            GetByte([m]) == Some((m, []))
  {
    assert [i, o, m][1..] == [o, m] && [o, m][1..] == [m] && [m][1..] == [];
  }

  lemma VecReads(bytes: Bytes, tail: Bytes)
    ensures var r := GetVec(PutLength(|bytes|, bytes + tail));
            (|bytes| < TWO_32 ==> r == Some((bytes, tail))) && (r.Some? ==> |r.value.0| == |bytes| % TWO_32)
  {
    hide PutLength, GetU32, Take;
    LengthReads(|bytes|, bytes + tail);
    TakeAppend(bytes, tail);
    TakeLength(bytes + tail, |bytes| % TWO_32);
  }

  lemma MetasRead(inner: seq<AccountMeta>, tail: Bytes)
    ensures |inner| < TWO_32 ==> GetMetas(PutLength(|inner|, FlagBytes(inner) + tail)) == Some((Pairs(inner), tail))
    ensures forall rest :: GetMetas(PutLength(|inner|, rest)).Some? ==>
              |GetMetas(PutLength(|inner|, rest)).value.0| == |inner| % TWO_32
  {
    hide PutLength, GetU32, FlagBytes, Pairs;
    forall rest
      ensures GetU32(PutLength(|inner|, rest)) == Some((|inner| % TWO_32, rest))
    {
      LengthReads(|inner|, rest);
    }
    PairsReadBack(inner, tail);
  }

  lemma ArgsReadBack(inner: seq<AccountMeta>, innerData: Bytes, i: Byte, o: Byte, m: Byte)
    requires |innerData| < TWO_32 && |inner| < TWO_32
    ensures GetArgs(PutLength(|innerData|, innerData + PutLength(|inner|, FlagBytes(inner) + [i, o, m])))
         == Some(SwapArgs(innerData, Pairs(inner), i, o, m))
  {
    hide PutLength, FlagBytes, GetByte, Pairs, GetVec, GetMetas;
    VecReads(innerData, PutLength(|inner|, FlagBytes(inner) + [i, o, m]));
    MetasRead(inner, [i, o, m]);
    IndicesRead(i, o, m);
  }

  /** What the data decodes to can only carry lengths below 2^32. */
  lemma ArgsAreShort(inner: seq<AccountMeta>, innerData: Bytes, tail: Bytes)
    ensures var args := GetArgs(PutLength(|innerData|, innerData + PutLength(|inner|, tail)));
            args.Some? ==> (|args.value.data| == |innerData| % TWO_32 &&
                            (|innerData| < TWO_32 ==> |args.value.pairs| == |inner| % TWO_32))
  {
    hide PutLength, GetByte, GetVec, GetMetas;
    VecReads(innerData, PutLength(|inner|, tail));
    MetasRead(inner, tail);
  }

  lemma TakeLength(bs: Bytes, n: nat)
    ensures Take(bs, n).Some? ==> |Take(bs, n).value.0| == n
  {
  }

  /** What the program relays, of any instruction: one account for each pair of
      flags and the recorded downstream rule behind them, the output mint at its
      place, every key from the account list and every flag from the data. */
  lemma RelaysOnly(discriminator: Bytes, ix: Instruction, outputMint: Pubkey, recorded: Option<Pubkey>)
    requires Handle(discriminator, ix, outputMint, recorded).Some?
    ensures |ix.data| >= 8 && ix.data[..8] == discriminator && GetArgs(ix.data[8..]).Some?
    ensures var args, r := GetArgs(ix.data[8..]).value, Handle(discriminator, ix, outputMint, recorded).value;
            var n, a := |args.pairs|, ix.accounts;
            && |a| == 6 + n + (if recorded.Some? then 1 else 0) && r.downstream == recorded
            && args.inputIndex < n && args.outputIndex < n && args.mintIndex < n
            && a[6 + args.mintIndex].pubkey == outputMint && (recorded.Some? ==> a[6 + n].pubkey == recorded.value)
            && r.inputAta == a[6 + args.inputIndex].pubkey && r.outputAta == a[6 + args.outputIndex].pubkey
            && r.data == args.data && |r.accounts| == n
            && (forall i :: 0 <= i < n ==>
                  r.accounts[i] == AccountMeta(a[6 + i].pubkey, args.pairs[i].0, args.pairs[i].1))
            && r.outer == Outer(ix.programId, a[0].pubkey, a[1].pubkey, a[2].pubkey, a[3].pubkey, a[4].pubkey,
                                a[5].pubkey)
            && a[0].isSigner && a[2].isWritable && a[4].isWritable && (recorded.Some? ==> a[6 + n].isWritable)
            && (forall i :: 0 <= i < n && args.pairs[i].1 ==> a[6 + i].isWritable)
  {
    hide GetArgs;
    assert ix.accounts[PREFIX..] == ix.accounts[6..];
  }

  /** An instruction built for inner accounts in which the three located
      accounts were found relays the inner call unchanged, under the named
      accounts it was built with, exactly when both lengths fit their u32 prefixes. */
  lemma RelayedIffLengthsFit(ix: Instruction, discriminator: Bytes, outer: Outer, inner: seq<AccountMeta>,
                             innerData: Bytes,
                             inputAta: Pubkey, outputAta: Pubkey, outputMint: Pubkey, indices: (Byte, Byte, Byte),
                             downstream: Option<Pubkey>)
    requires |discriminator| == 8
    requires LocateAtas(inner, inputAta, outputAta) == Ok((indices.0, indices.1)) &&
             Locate(inner, outputMint) == Ok(indices.2)
    requires IsExecuteSwap(ix, discriminator, outer, inner, innerData, indices, downstream)
    ensures Handle(discriminator, ix, outputMint, downstream) ==
            Some(Relayed(outer, inner, innerData, inputAta, outputAta, downstream))
            <==> |innerData| < TWO_32 && |inner| < TWO_32
  {
    hide FlagBytes, PutLength, GetArgs, Position, Permitted;
    var tail := FlagBytes(inner) + [indices.0, indices.1, indices.2];
    var body := PutLength(|innerData|, innerData + PutLength(|inner|, tail));
    assert ix.data[..8] == discriminator && ix.data[8..] == body;
    ArgsAreShort(inner, innerData, tail);
    var remaining := ix.accounts[PREFIX..];
    assert forall i :: 0 <= i < |inner| ==> remaining[i] == ix.accounts[PREFIX + i];
    if |innerData| < TWO_32 && |inner| < TWO_32 {
      ArgsReadBack(inner, innerData, indices.0, indices.1, indices.2);
      RelayMatches(discriminator, ix, outer, inner, innerData, inputAta, outputAta, outputMint, indices, downstream);
    }
  }

  lemma RelayMatches(discriminator: Bytes, ix: Instruction, outer: Outer, inner: seq<AccountMeta>, innerData: Bytes,
                     inputAta: Pubkey, outputAta: Pubkey, outputMint: Pubkey, indices: (Byte, Byte, Byte),
                     downstream: Option<Pubkey>)
    requires |ix.data| >= 8 && ix.data[..8] == discriminator
    requires GetArgs(ix.data[8..]) == Some(SwapArgs(innerData, Pairs(inner), indices.0, indices.1, indices.2))
    requires |ix.accounts| == PREFIX + |inner| + (if downstream.Some? then 1 else 0)
    requires forall i :: 0 <= i < |inner| ==> ix.accounts[PREFIX + i] == inner[i].(isSigner := false)
    requires downstream.Some? ==> ix.accounts[PREFIX + |inner|] == AccountMeta(downstream.value, false, true)
    requires Named(ix) == outer && ix.accounts[0].isSigner && ix.accounts[2].isWritable && ix.accounts[4].isWritable
    requires indices.0 < |inner| && indices.1 < |inner| && indices.2 < |inner|
    requires inner[indices.0].pubkey == inputAta && inner[indices.1].pubkey == outputAta &&
             inner[indices.2].pubkey == outputMint
    ensures Handle(discriminator, ix, outputMint, downstream) ==
            Some(Relayed(outer, inner, innerData, inputAta, outputAta, downstream))
  {
    hide GetArgs;
    var remaining := ix.accounts[PREFIX..];
    forall i | 0 <= i < |inner|
      ensures remaining[i].pubkey == inner[i].pubkey &&
              AccountMeta(remaining[i].pubkey, Pairs(inner)[i].0, Pairs(inner)[i].1) == inner[i]
    {
      assert remaining[i] == ix.accounts[PREFIX + i];
    }
    assert downstream.Some? ==> remaining[|inner|] == ix.accounts[PREFIX + |inner|];
    RebuiltAccounts(inner, remaining);
  }

  lemma RebuiltAccounts(inner: seq<AccountMeta>, remaining: seq<AccountMeta>)
    requires |remaining| >= |inner|
    requires forall i :: 0 <= i < |inner| ==>
               AccountMeta(remaining[i].pubkey, Pairs(inner)[i].0, Pairs(inner)[i].1) == inner[i]
    ensures Rebuild(remaining, Pairs(inner)) == inner
  {
  }
}
