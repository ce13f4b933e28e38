/** `send` (programs/paye-oft/src/instructions/send.rs): charge the outbound limiter, credit the inbound one,
    burn, move the fee to escrow, dispatch a packet. */
module SendInstruction {
  import opened Primitives
  import opened RateLimiters
  import opened Fees
  import opened Accounts
  import MsgCodec

  /** Nonce and guid that the endpoint gives a dispatched packet. */
  datatype Dispatch = Dispatch(nonce: U64, guid: Bytes32)

  /** The accounts of the instruction; `dispatch` is None when the endpoint refuses. */
  datatype SendAccounts = SendAccounts(
    signer: Pubkey, tokenSource: Pubkey, tokenEscrow: Pubkey, remaining: seq<Pubkey>, dispatch: Option<Dispatch>)

  datatype SendParams = SendParams(
    dstEid: U32, to: Bytes32, amountLd: U64, minAmountLd: U64, options: Bytes, composeMsg: Option<Bytes>)

  /** What `send` returns and hands to the endpoint: the receipt's amounts, the packet, and its options. */
  datatype SendReceipt = SendReceipt(amounts: Amounts, packet: Packet, options: Bytes)

  datatype SendEffect = SendEffect(peer: Peer, ledger: Ledger, mailbox: Mailbox, receipt: SendReceipt)

  function Quote(store: Store, peer: Peer, transferFee: Option<TransferFee>, amountLd: U64): Result<Amounts> {
    ComputeFeeAndAdjustAmount(store.oftType, store.ld2sdRate, amountLd, transferFee,
                              BasisPointsInForce(store.defaultFeeBps, peer.feeBps))
  }

  datatype LimiterPair = LimiterPair(spent: Option<Limiter>, credited: Option<Limiter>)

  /** Traffic of `amount` in one direction: that direction's limiter must allow it, the other gains it. */
  function Pass(spend: Option<Limiter>, credit: Option<Limiter>, now: U64, amount: U64): Result<LimiterPair> {
    if spend.Some? && !Consumed(spend.value, now, amount).accepted then Err(RateLimitExceeded)
    else
      Ok(LimiterPair(
        if spend.Some? then Some(Consumed(spend.value, now, amount).after) else None,
        if credit.Some? then Some(Refilled(credit.value, now, amount)) else None))
  }

  /** The token movements of a send, in order. */
  function Pay(ledger: Ledger, accts: SendAccounts, amounts: Amounts): Result<Ledger> {
    if amounts.feeLd > amounts.sentLd then Err(Panic)
    else
      var burnt :- ledger.Burn(accts.tokenSource, accts.signer, amounts.sentLd - amounts.feeLd);
      if amounts.feeLd > 0
      then burnt.Transfer(accts.tokenSource, accts.tokenEscrow, accts.signer, amounts.feeLd)
      else Ok(burnt)
  }

  function SentPacket(env: Env, store: Store, peer: Peer, accts: SendAccounts, params: SendParams,
                      amounts: Amounts, d: Dispatch): Packet
  {
    Packet(env.localEid, env.storeKey, params.dstEid, peer.peerAddress, d.nonce, d.guid,
           MsgCodec.Encode(params.to, Ld2Sd(store.ld2sdRate, amounts.receivedLd), accts.signer, params.composeMsg))
  }

  function Send(env: Env, store: Store, peer: Peer, ledger: Ledger, mailbox: Mailbox,
                accts: SendAccounts, params: SendParams, now: U64): Result<SendEffect>
  {
    if !ledger.Owns(accts.signer, accts.tokenSource)
       || accts.tokenEscrow != store.tokenEscrow || !ledger.Owns(env.storeKey, accts.tokenEscrow)
    then Err(AccountConstraint)
    else if store.paused then Err(Paused)
    else
      var amounts :- Quote(store, peer, ledger.transferFee, params.amountLd);
      if amounts.receivedLd < params.minAmountLd then Err(SlippageExceeded)
      else
        var limiters :- Pass(peer.outbound, peer.inbound, now, amounts.receivedLd);
        var paid :- Pay(ledger, accts, amounts);
        var options := env.combineOptions(peer.EnforcedOptions(params.composeMsg), params.options);
        if |accts.remaining| <= 1 || accts.remaining[1] != env.storeKey then Err(InvalidSender)
        else if options.None? || accts.dispatch.None? then Err(Error.Endpoint)
        else
          var packet := SentPacket(env, store, peer, accts, params, amounts, accts.dispatch.value);
          Ok(SendEffect(
            peer.(outbound := limiters.spent, inbound := limiters.credited), paid,
            mailbox.(inFlight := mailbox.inFlight + multiset{packet}), SendReceipt(amounts, packet, options.value)))
  }

  method PassInPlace(spend: RateLimiter?, credit: RateLimiter?, timestamp: I64, amount: U64) returns (r: Result<()>)
    requires spend != null ==> spend != credit
    modifies spend, credit
    ensures var pass := Pass(if spend == null then None else Some(old(spend.State())),
                             if credit == null then None else Some(old(credit.State())),
                             Seconds(timestamp), amount);
            && r == (if pass.Ok? then Ok(()) else Err(pass.error))
            && (pass.Ok? && spend != null ==> pass.value.spent == Some(spend.State()))
            && (pass.Ok? && spend == null ==> pass.value.spent == None)
            && (pass.Ok? && credit != null ==> pass.value.credited == Some(credit.State()))
            && (pass.Ok? && credit == null ==> pass.value.credited == None)
  {
    if spend != null {
      var consumed := spend.TryConsume(timestamp, amount);
      if consumed.Err? {
        return consumed;
      }
    }
    if credit != null {
      credit.Refill(timestamp, amount);
    }
    return Ok(());
  }

  method PayInPlace(ledger: TokenLedger, accts: SendAccounts, amounts: Amounts) returns (r: Result<()>)
    modifies ledger
    ensures var paid := Pay(old(ledger.State()), accts, amounts);
            && r == (if paid.Ok? then Ok(()) else Err(paid.error))
            && (paid.Ok? ==> ledger.State() == paid.value)
  {
    if amounts.feeLd > amounts.sentLd {
      return Err(Panic);
    }
    r := ledger.Burn(accts.tokenSource, accts.signer, amounts.sentLd - amounts.feeLd);
    if r.Ok? && amounts.feeLd > 0 {
      r := ledger.Transfer(accts.tokenSource, accts.tokenEscrow, accts.signer, amounts.feeLd);
    }
  }

  /** `Send::apply`, in place. A failed call may leave the loaded accounts half updated: they are discarded. */
  method Apply(env: Env, store: OftStore, peer: PeerConfig, ledger: TokenLedger, endpoint: Endpoint,
               accts: SendAccounts, params: SendParams, timestamp: I64) returns (r: Result<SendReceipt>)
    requires peer.Valid()
    modifies peer.outbound, peer.inbound, ledger, endpoint
    ensures peer.Valid()
    ensures var effect := Send(env, old(store.State()), old(peer.State()), old(ledger.State()), old(endpoint.State()),
                               accts, params, Seconds(timestamp));
            && r == (if effect.Ok? then Ok(effect.value.receipt) else Err(effect.error))
            && (effect.Ok? ==>
                  && peer.State() == effect.value.peer
                  && ledger.State() == effect.value.ledger
                  && endpoint.State() == effect.value.mailbox)
  {
    if !ledger.State().Owns(accts.signer, accts.tokenSource)
       || accts.tokenEscrow != store.tokenEscrow || !ledger.State().Owns(env.storeKey, accts.tokenEscrow)
    {
      return Err(AccountConstraint);
    }
    if store.paused {
      return Err(Paused);
    }
    var amounts :- Quote(store.State(), peer.State(), ledger.transferFee, params.amountLd);
    if amounts.receivedLd < params.minAmountLd {
      return Err(SlippageExceeded);
    }
    var passed := PassInPlace(peer.outbound, peer.inbound, timestamp, amounts.receivedLd);
    if passed.Err? {
      return Err(passed.error);
    }
    var paid := PayInPlace(ledger, accts, amounts);
    if paid.Err? {
      return Err(paid.error);
    }
    if |accts.remaining| <= 1 || accts.remaining[1] != env.storeKey {
      return Err(InvalidSender);
    }
    var options := env.combineOptions(peer.State().EnforcedOptions(params.composeMsg), params.options);
    if options.None? || accts.dispatch.None? {
      return Err(Error.Endpoint);
    }
    var amountSd := Ld2Sd(store.ld2sdRate, amounts.receivedLd);
    var message := MsgCodec.AppendMessage(params.to, amountSd, accts.signer, params.composeMsg);
    var packet := Packet(env.localEid, env.storeKey, params.dstEid, peer.peerAddress,
                         accts.dispatch.value.nonce, accts.dispatch.value.guid, message);
    endpoint.Dispatch(packet);
    return Ok(SendReceipt(amounts, packet, options.value));
  }
}
