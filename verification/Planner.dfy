/** `lz_receive_types` (programs/paye-oft/src/instructions/lz_receive_types.rs): the accounts the executor
    must pass to `lz_receive`, and why they fit. */
module Planner {
  import opened Primitives
  import opened RateLimiters
  import opened Fees
  import opened Accounts
  import MsgCodec
  import ComposeMsgCodec
  import FeeTheory
  import opened LzReceiveInstruction

  /** Accounts 0 .. 12 are named by the instruction; the rest are its remaining accounts. */
  const NAMED_ACCOUNTS := 13

  function NamedAccounts(env: Env, store: Store, ledger: Ledger, params: ReceiveParams): (named: seq<LzAccount>)
    ensures |named| == NAMED_ACCOUNTS
  {
    var to := MsgCodec.SendTo(params.message);
    [ LzAccount(ZERO32, true, true),
      LzAccount(env.peerAccount(params.srcEid), false, true),
      LzAccount(env.storeKey, false, true),
      LzAccount(store.tokenEscrow, false, true),
      LzAccount(to, false, false),
      LzAccount(env.associatedAccount(to, store.tokenMint, ledger.tokenProgram), false, true),
      LzAccount(store.tokenMint, false, true),
      LzAccount(ledger.mintAuthority.GetOr(env.programId), false, false),
      LzAccount(ledger.tokenProgram, false, false),
      LzAccount(env.associatedTokenProgram, false, false),
      LzAccount(env.systemProgram, false, false),
      LzAccount(env.eventAuthority, false, false),
      LzAccount(env.programId, false, false) ]
  }

  /** The compose bytes a plan made in this state predicts. */
  function PredictedBytes(store: Store, params: ReceiveParams): Result<Option<Bytes>> {
    if MsgCodec.ComposeMsg(params.message).None? then Ok(None)
    else
      var amountLd :- Sd2Ld(store.ld2sdRate, MsgCodec.AmountSd(params.message));
      Ok(ComposeBytes(params, amountLd))
  }

  /** The accounts for `send_compose`, derived from those bytes. */
  function ComposePart(env: Env, store: Store, params: ReceiveParams): Result<seq<LzAccount>> {
    var predicted :- PredictedBytes(store, params);
    match predicted
    case None => Ok([])
    case Some(bytes) => Ok(env.composeAccounts(MsgCodec.SendTo(params.message), params.guid, 0, bytes))
  }

  function Planned(env: Env, store: Store, ledger: Ledger, params: ReceiveParams): Result<seq<LzAccount>> {
    if |params.message| < MsgCodec.COMPOSE_MSG_OFFSET then Err(InvalidMessage)
    else
      var composePart :- ComposePart(env, store, params);
      Ok(NamedAccounts(env, store, ledger, params)
         + env.clearAccounts(params.srcEid, params.sender, params.nonce) + composePart)
  }

  /** `LzReceiveTypes::apply`: the list is extended group by group. */
  method Plan(env: Env, store: Store, ledger: Ledger, params: ReceiveParams) returns (r: Result<seq<LzAccount>>)
    ensures r == Planned(env, store, ledger, params)
  {
    if |params.message| < MsgCodec.COMPOSE_MSG_OFFSET {
      return Err(InvalidMessage);
    }
    var accounts := [
      LzAccount(ZERO32, true, true),
      LzAccount(env.peerAccount(params.srcEid), false, true),
      LzAccount(env.storeKey, false, true),
      LzAccount(store.tokenEscrow, false, true) ];
    var to := MsgCodec.SendTo(params.message);
    var tokenDest := env.associatedAccount(to, store.tokenMint, ledger.tokenProgram);
    accounts := accounts + [
      LzAccount(to, false, false),
      LzAccount(tokenDest, false, true),
      LzAccount(store.tokenMint, false, true),
      LzAccount(ledger.mintAuthority.GetOr(env.programId), false, false),
      LzAccount(ledger.tokenProgram, false, false),
      LzAccount(env.associatedTokenProgram, false, false) ];
    accounts := accounts + [
      LzAccount(env.systemProgram, false, false),
      LzAccount(env.eventAuthority, false, false),
      LzAccount(env.programId, false, false) ];
    assert accounts == NamedAccounts(env, store, ledger, params);
    accounts := accounts + env.clearAccounts(params.srcEid, params.sender, params.nonce);
    var tail := MsgCodec.ComposeMsg(params.message);
    if tail.Some? {
      var amountSd := MsgCodec.ReadAmountSd(params.message);
      var amountLd :- Sd2Ld(store.ld2sdRate, amountSd);
      var bytes := ComposeMsgCodec.AppendCompose(params.nonce, params.srcEid, amountLd, tail.value);
      accounts := accounts + env.composeAccounts(to, params.guid, 0, bytes);
    } else {
      assert accounts + [] == accounts;
    }
    return Ok(accounts);
  }

  // ---- What `lz_receive` demands of its accounts -------------------------------------------------------------------

  /** The accounts that `lz_receive` declares, and the two that its events add. */
  datatype Slot =
    | Payer | PeerOfSource | TheStore | Escrow | Recipient | Destination | Mint | MintAuthority
    | Tokens | AssociatedTokens | System | Events | ThisProgram

  /** In the order of their declaration. */
  const SLOTS: seq<Slot> := [Payer, PeerOfSource, TheStore, Escrow, Recipient, Destination, Mint, MintAuthority,
                             Tokens, AssociatedTokens, System, Events, ThisProgram]

  /** Declared `mut`, or created if needed. */
  predicate Writable(slot: Slot) {
    slot in {Payer, PeerOfSource, TheStore, Escrow, Destination, Mint}
  }

  /** The constraint on the key in a slot: its seeds, its address, its association. The executor puts its own key
      in the first; the program's own key says that there is no mint authority. */
  predicate Admits(env: Env, store: Store, ledger: Ledger, params: ReceiveParams, slot: Slot, key: Pubkey)
    requires |params.message| >= 32
  {
    match slot
    case Payer => key == ZERO32
    case PeerOfSource => key == env.peerAccount(params.srcEid)
    case TheStore => key == env.storeKey
    case Escrow => key == store.tokenEscrow
    case Recipient => key == params.message[..32]
    case Destination => key == env.associatedAccount(params.message[..32], store.tokenMint, ledger.tokenProgram)
    case Mint => key == store.tokenMint
    case MintAuthority => if ledger.mintAuthority.Some? then key == ledger.mintAuthority.value else key == env.programId
    case Tokens => key == ledger.tokenProgram
    case AssociatedTokens => key == env.associatedTokenProgram
    case System => key == env.systemProgram
    case Events => key == env.eventAuthority
    case ThisProgram => key == env.programId
  }

  /** The plan begins with an account for every slot that the slot admits, writable exactly where the instruction
      writes, and only the payer signs. */
  ghost predicate FillsSlots(env: Env, store: Store, ledger: Ledger, params: ReceiveParams, plan: seq<LzAccount>)
    requires |params.message| >= 32
  {
    && |plan| >= 13
    && forall i | 0 <= i < 13 ::
         && Admits(env, store, ledger, params, SLOTS[i], plan[i].pubkey)
         && plan[i].isWritable == Writable(SLOTS[i]) && plan[i].isSigner == (SLOTS[i] == Payer)
  }

  lemma PlanFillsSlots(env: Env, store: Store, ledger: Ledger, later: Store, laterLedger: Ledger, params: ReceiveParams)
    requires SamePlanInputs(store, ledger, later, laterLedger) && Planned(env, store, ledger, params).Ok?
    ensures |params.message| >= 40 && FillsSlots(env, later, laterLedger, params, Planned(env, store, ledger, params).value)
  {
    MsgCodec.ReadsLayout(params.message);
    var plan := Planned(env, store, ledger, params).value;
    assert plan[..13] == NamedAccounts(env, store, ledger, params);
    forall i | 0 <= i < 13
      ensures && Admits(env, later, laterLedger, params, SLOTS[i], plan[i].pubkey)
              && plan[i].isWritable == Writable(SLOTS[i]) && plan[i].isSigner == (SLOTS[i] == Payer)
    {
      assert plan[i] == plan[..13][i];
    }
  }

  /** Every answer of the planner: a short message and, if there is a compose part, an amount that does not fit are
      refused; otherwise the accounts after the named ones are those for `clear`, then those for a compose message
      to the recipient, under the guid and index 0, carrying nonce, source, amount and compose part. */
  lemma PlanAnswers(env: Env, store: Store, ledger: Ledger, params: ReceiveParams)
    ensures var r, wire := Planned(env, store, ledger, params), params.message;
            && (r == Err(InvalidMessage) <==> |wire| < 40)
            && (r == Err(ArithmeticOverflow) <==> |wire| > 40 && store.ld2sdRate * MsgCodec.AmountSd(wire) > U64_MAX)
            && (r.Err? ==> r.error == InvalidMessage || r.error == ArithmeticOverflow)
            && (r.Ok? && |wire| == 40 ==> r.value[13..] == env.clearAccounts(params.srcEid, params.sender, params.nonce))
            && (r.Ok? && |wire| > 40 ==> exists bytes, amountLd: U64 ::
                  && amountLd == store.ld2sdRate * MsgCodec.AmountSd(wire)
                  && ComposeMsgCodec.Carries(bytes, params.nonce, params.srcEid, amountLd, wire[40..])
                  && r.value[13..] == env.clearAccounts(params.srcEid, params.sender, params.nonce)
                                      + env.composeAccounts(wire[..32], params.guid, 0, bytes))
  {
    MsgCodec.ReadsLayout(params.message);
    var rate, units, wire := store.ld2sdRate, MsgCodec.AmountSd(params.message), params.message;
    assert rate * units == units * rate;
    FeeTheory.SharedUnitsRoundTrip(rate, units);
    if Planned(env, store, ledger, params).Ok? {
      var clear := env.clearAccounts(params.srcEid, params.sender, params.nonce);
      var composePart := ComposePart(env, store, params).value;
      var plan := Planned(env, store, ledger, params).value;
      assert plan == NamedAccounts(env, store, ledger, params) + (clear + composePart);
      assert plan[13..] == clear + composePart;
      if |wire| > 40 {
        var amountLd := Sd2Ld(rate, units).value;
        ComposeMsgCodec.LaysOut(params.nonce, params.srcEid, amountLd, wire[40..]);
        var bytes := ComposeMsgCodec.Encode(params.nonce, params.srcEid, amountLd, wire[40..]);
        assert composePart == env.composeAccounts(wire[..32], params.guid, 0, bytes);
      } else {
        assert plan[13..] == clear;
      }
    }
  }

  // ---- Plans and executions ------------------------------------------------------------------------------------------

  function Keys(accounts: seq<LzAccount>): (keys: seq<Pubkey>)
    ensures |keys| == |accounts|
  {
    if accounts == [] then [] else [accounts[0].pubkey] + Keys(accounts[1..])
  }

  lemma {:induction false} KeyAt(accounts: seq<LzAccount>, i: nat)
    requires i < |accounts|
    ensures Keys(accounts)[i] == accounts[i].pubkey
  {
    if i > 0 { KeyAt(accounts[1..], i - 1); }
  }

  /** How Anchor reads a list of passed accounts as the accounts of `lz_receive`; the program's own key
      stands for an absent optional account. */
  function ReadAccounts(env: Env, passed: seq<Pubkey>, composeAccepted: bool): ReceiveAccounts
    requires |passed| >= NAMED_ACCOUNTS
  {
    ReceiveAccounts(passed[3], passed[4], passed[5], if passed[7] == env.programId then None else Some(passed[7]),
                    passed[NAMED_ACCOUNTS..], composeAccepted)
  }

  /** The fields a plan depends on. All of them are written only at initialisation. */
  ghost predicate SamePlanInputs(a: Store, l: Ledger, b: Store, m: Ledger) {
    && a.ld2sdRate == b.ld2sdRate && a.tokenMint == b.tokenMint && a.tokenEscrow == b.tokenEscrow
    && l.mintAuthority == m.mintAuthority && l.tokenProgram == m.tokenProgram
  }

  /** A plan made in one state passes every account constraint of `lz_receive` in another with the same
      initial data, provided the sender is the peer, the escrow is the store's, and the recipient's account,
      if it exists, is the recipient's. */
  lemma PlanPassesConstraints(env: Env, store: Store, ledger: Ledger, later: Store, laterLedger: Ledger, peer: Peer,
                              params: ReceiveParams, composeAccepted: bool)
    requires SamePlanInputs(store, ledger, later, laterLedger)
    requires Planned(env, store, ledger, params).Ok?
    requires peer.peerAddress == params.sender && laterLedger.Owns(env.storeKey, later.tokenEscrow)
    requires var dest := env.associatedAccount(MsgCodec.SendTo(params.message), later.tokenMint, laterLedger.tokenProgram);
             dest in laterLedger.accounts ==> laterLedger.accounts[dest].owner == MsgCodec.SendTo(params.message)
    ensures var accts := ReadAccounts(env, Keys(Planned(env, store, ledger, params).value), composeAccepted);
            CheckAccounts(env, later, peer, laterLedger, accts, params).Ok?
  {
    var plan := Planned(env, store, ledger, params).value;
    KeyAt(plan, 3);
    KeyAt(plan, 4);
    KeyAt(plan, 5);
    KeyAt(plan, 7);
  }

  /** The compose bytes a plan predicts in one state are those `lz_receive` forwards in the other, and its
      remaining accounts split where `lz_receive` slices them: first the accounts for `clear`, then those
      derived from these bytes. */
  lemma PlanAgreesWithExecution(env: Env, store: Store, ledger: Ledger, later: Store, laterLedger: Ledger, peer: Peer,
                                mailbox: Mailbox, accts: ReceiveAccounts, params: ReceiveParams, now: U64)
    requires SamePlanInputs(store, ledger, later, laterLedger)
    requires |env.clearAccounts(params.srcEid, params.sender, params.nonce)| == CLEAR_ACCOUNTS
    requires Receive(env, later, peer, laterLedger, mailbox, accts, params, now).Ok?
    ensures Planned(env, store, ledger, params).Ok? && |accts.remaining| >= CLEAR_ACCOUNTS
    ensures var compose := Receive(env, later, peer, laterLedger, mailbox, accts, params, now).value.receipt.compose;
            PredictedBytes(store, params) == Ok(if compose.Some? then Some(compose.value.message) else None)
    ensures var remaining := Planned(env, store, ledger, params).value[NAMED_ACCOUNTS..];
            var compose := Receive(env, later, peer, laterLedger, mailbox, accts, params, now).value.receipt.compose;
            && remaining[..CLEAR_ACCOUNTS] == env.clearAccounts(params.srcEid, params.sender, params.nonce)
            && remaining[CLEAR_ACCOUNTS..]
               == if compose.Some?
                  then env.composeAccounts(compose.value.to, compose.value.guid, compose.value.index, compose.value.message)
                  else []
  {
    var named := NamedAccounts(env, store, ledger, params);
    var clear := env.clearAccounts(params.srcEid, params.sender, params.nonce);
    var composePart := ComposePart(env, store, params).value;
    var plan := Planned(env, store, ledger, params).value;
    assert plan == named + (clear + composePart);
    assert plan[NAMED_ACCOUNTS..] == clear + composePart;
  }
}
