/** `quote_oft` and the message of `quote_send` (programs/paye-oft/src/instructions/), and their agreement
    with `send`. */
module Quotes {
  import opened Primitives
  import opened Arithmetic
  import opened BigEndian
  import opened RateLimiters
  import opened Fees
  import opened Accounts
  import MsgCodec
  import FeeTheory
  import SendInstruction

  /** The two descriptions a fee line can carry. */
  datatype FeeLabel = Token2022TransferFee | CrossChainFee

  datatype FeeDetail = FeeDetail(feeLd: U64, description: FeeLabel)

  datatype OftQuote = OftQuote(minLd: U64, maxLd: U64, feeDetails: seq<FeeDetail>, sentLd: U64, receivedLd: U64)

  function FeeBreakdown(a: Amounts): seq<FeeDetail> {
    (if a.receivedLd + a.feeLd < a.sentLd
     then [FeeDetail(a.sentLd - a.feeLd - a.receivedLd, Token2022TransferFee)] else [])
    + (if a.feeLd > 0 then [FeeDetail(a.feeLd, CrossChainFee)] else [])
  }

  method ListFees(a: Amounts) returns (feeDetails: seq<FeeDetail>)
    ensures feeDetails == FeeBreakdown(a)
  {
    feeDetails := [];
    if a.receivedLd + a.feeLd < a.sentLd {
      feeDetails := [FeeDetail(a.sentLd - a.feeLd - a.receivedLd, Token2022TransferFee)];
    }
    if a.feeLd > 0 {
      feeDetails := feeDetails + [FeeDetail(a.feeLd, CrossChainFee)];
    }
  }

  /** The quote and its fee breakdown; the additions and subtractions are overflow-checked. */
  method QuoteOft(store: Store, peer: Peer, transferFee: Option<TransferFee>, amountLd: U64, minAmountLd: U64)
    returns (r: Result<OftQuote>)
    ensures r == QuotedOft(store, peer, transferFee, amountLd, minAmountLd)
  {
    if store.paused {
      return Err(Paused);
    }
    var amounts :- SendInstruction.Quote(store, peer, transferFee, amountLd);
    if amounts.receivedLd < minAmountLd {
      return Err(SlippageExceeded);
    }
    if amounts.receivedLd + amounts.feeLd > U64_MAX {
      return Err(Panic);
    }
    var feeDetails := ListFees(amounts);
    return Ok(OftQuote(0, U64_MAX, feeDetails, amounts.sentLd, amounts.receivedLd));
  }

  function QuotedOft(store: Store, peer: Peer, transferFee: Option<TransferFee>, amountLd: U64, minAmountLd: U64)
    : Result<OftQuote>
  {
    if store.paused then Err(Paused)
    else
      var a :- SendInstruction.Quote(store, peer, transferFee, amountLd);
      if a.receivedLd < minAmountLd then Err(SlippageExceeded)
      else if a.receivedLd + a.feeLd > U64_MAX then Err(Panic)
      else
        Ok(OftQuote(0, U64_MAX, FeeBreakdown(a), a.sentLd, a.receivedLd))
  }

  /** The message `quote_send` prices: the local amount and no sender. */
  function QuotedMessage(store: Store, peer: Peer, transferFee: Option<TransferFee>,
                         params: SendInstruction.SendParams): Result<Bytes>
  {
    if store.paused then Err(Paused)
    else
      var a :- SendInstruction.Quote(store, peer, transferFee, params.amountLd);
      if a.receivedLd < params.minAmountLd then Err(SlippageExceeded)
      else Ok(MsgCodec.Encode(params.to, a.receivedLd, ZERO32, params.composeMsg))
  }

  function FeesListed(details: seq<FeeDetail>): nat {
    if details == [] then 0 else details[0].feeLd + FeesListed(details[1..])
  }

  lemma BreakdownSum(a: Amounts)
    requires a.receivedLd + a.feeLd <= a.sentLd
    ensures FeesListed(FeeBreakdown(a)) == a.sentLd - a.receivedLd
  {
    var details := FeeBreakdown(a);
    if |details| == 2 {
      assert details[1..] == [details[1]];
      assert details[1..][1..] == [];
    } else if |details| == 1 {
      assert details[1..] == [];
    }
  }

  /** Whatever the bridge type and mint, the listed fees add up to what is sent and not received. */
  lemma BreakdownAddsUp(store: Store, peer: Peer, transferFee: Option<TransferFee>, amountLd: U64, minAmountLd: U64)
    requires transferFee.Some? ==> Legal(transferFee.value)
    requires BasisPointsInForce(store.defaultFeeBps, peer.feeBps) <= MAX_FEE_BASIS_POINTS
    ensures var q := QuotedOft(store, peer, transferFee, amountLd, minAmountLd);
            && (q.Err? ==> q.error == Paused || q.error == SlippageExceeded)
            && (q.Ok? ==> FeesListed(q.value.feeDetails) == q.value.sentLd - q.value.receivedLd)
  {
    var a := QuoteNeverFails(store, peer, transferFee, amountLd);
    BreakdownSum(a);
  }

  lemma QuoteNeverFails(store: Store, peer: Peer, transferFee: Option<TransferFee>, amountLd: U64) returns (a: Amounts)
    requires transferFee.Some? ==> Legal(transferFee.value)
    requires BasisPointsInForce(store.defaultFeeBps, peer.feeBps) <= MAX_FEE_BASIS_POINTS
    ensures SendInstruction.Quote(store, peer, transferFee, amountLd) == Ok(a)
    ensures a.receivedLd + a.feeLd <= a.sentLd
  {
    var bps := BasisPointsInForce(store.defaultFeeBps, peer.feeBps);
    if store.oftType.Adapter? {
      FeeTheory.AdapterIsStable(store.ld2sdRate, amountLd, transferFee, bps);
      a := AdapterAmounts(store.ld2sdRate, amountLd, transferFee, bps).value;
      FeeTheory.MustSendInverts(transferFee, 0, a.sentLd);
    } else {
      FeeTheory.NativeInSharedUnits(store.ld2sdRate, amountLd, bps);
      a := NativeAmounts(store.ld2sdRate, amountLd, bps).value;
    }
  }

  /** What the lines with a label add up to. */
  function ListedUnder(details: seq<FeeDetail>, kind: FeeLabel): nat {
    if details == [] then 0
    else (if details[0].description == kind then details[0].feeLd else 0) + ListedUnder(details[1..], kind)
  }

  lemma LinesByLabel(a: Amounts)
    requires a.receivedLd + a.feeLd <= a.sentLd
    ensures ListedUnder(FeeBreakdown(a), CrossChainFee) == a.feeLd
    ensures ListedUnder(FeeBreakdown(a), Token2022TransferFee) == a.sentLd - a.feeLd - a.receivedLd
  {
    var ours := if a.feeLd > 0 then [FeeDetail(a.feeLd, CrossChainFee)] else [];
    if a.feeLd > 0 {
      ListedAfter(FeeDetail(a.feeLd, CrossChainFee), []);
      assert ours == [FeeDetail(a.feeLd, CrossChainFee)] + [];
    }
    if a.receivedLd + a.feeLd < a.sentLd {
      ListedAfter(FeeDetail(a.sentLd - a.feeLd - a.receivedLd, Token2022TransferFee), ours);
    } else {
      assert FeeBreakdown(a) == ours;
    }
  }

  lemma ListedAfter(line: FeeDetail, rest: seq<FeeDetail>)
    ensures forall kind :: ListedUnder([line] + rest, kind)
                        == (if line.description == kind then line.feeLd else 0) + ListedUnder(rest, kind)
  {
    assert ([line] + rest)[1..] == rest;
  }

  /** What a quote charges, for either bridge type: the peer's override or else the store's default, on the whole
      shared units of what is offered (Native) or arrives (Adapter), rounded down; the rest is received, and what
      is sent is those units (Native) or the least amount of which they arrive (Adapter). */
  lemma QuotedAmounts(store: Store, peer: Peer, transferFee: Option<TransferFee>, amountLd: U64)
    requires transferFee.Some? ==> Legal(transferFee.value)
    requires (if peer.feeBps.Some? then peer.feeBps.value else store.defaultFeeBps) <= 10000
    ensures var bps := if peer.feeBps.Some? then peer.feeBps.value else store.defaultFeeBps;
            var charged := if store.oftType.Adapter? then transferFee else None;
            var k := FeeTheory.Arrives(charged, amountLd) / store.ld2sdRate;
            var q := SendInstruction.Quote(store, peer, transferFee, amountLd);
            && 0 <= k && q.Ok?
            && q.value.feeLd == store.ld2sdRate * (k * bps / 10000)
            && q.value.receivedLd + q.value.feeLd == store.ld2sdRate * k
            && FeeTheory.Arrives(charged, q.value.sentLd) == store.ld2sdRate * k
            && (forall less: nat | less < q.value.sentLd :: FeeTheory.Arrives(charged, less) < store.ld2sdRate * k)
  {
    var bps := BasisPointsInForce(store.defaultFeeBps, peer.feeBps);
    if store.oftType.Adapter? {
      FeeTheory.AdapterInSharedUnits(store.ld2sdRate, amountLd, transferFee, bps);
    } else {
      FeeTheory.NativeInSharedUnits(store.ld2sdRate, amountLd, bps);
      FeeTheory.SharesOfGross(store.ld2sdRate, amountLd, bps);
    }
  }

  /** Every answer of `quote_oft`, for either bridge type: the pause, then the minimum decide; otherwise the limits
      are the whole 64-bit range, and the protocol fee and the token's own fee stand under their labels, the
      token's first, each in one line and only if there is any. */
  lemma QuoteAnswers(store: Store, peer: Peer, transferFee: Option<TransferFee>, amountLd: U64, minAmountLd: U64)
    requires transferFee.Some? ==> Legal(transferFee.value)
    requires BasisPointsInForce(store.defaultFeeBps, peer.feeBps) <= 10000
    ensures var q := QuotedOft(store, peer, transferFee, amountLd, minAmountLd);
            var a := SendInstruction.Quote(store, peer, transferFee, amountLd);
            && a.Ok?
            && (q == Err(Paused) <==> store.paused)
            && (q == Err(SlippageExceeded) <==> !store.paused && a.value.receivedLd < minAmountLd)
            && (q.Ok? <==> !store.paused && a.value.receivedLd >= minAmountLd)
            && (q.Ok? ==>
                  var details := q.value.feeDetails;
                  && q.value.minLd == 0 && q.value.maxLd == 0xFFFF_FFFF_FFFF_FFFF
                  && q.value.sentLd == a.value.sentLd && q.value.receivedLd == a.value.receivedLd
                  && ListedUnder(details, CrossChainFee) == a.value.feeLd
                  && ListedUnder(details, Token2022TransferFee) == a.value.sentLd - a.value.feeLd - a.value.receivedLd
                  && (forall i | 0 <= i < |details| :: details[i].feeLd > 0)
                  && (forall i, j | 0 <= i < j < |details| ::
                        details[i].description == Token2022TransferFee && details[j].description == CrossChainFee))
  {
    var a := QuoteNeverFails(store, peer, transferFee, amountLd);
    LinesByLabel(a);
  }

  /** Every answer of `quote_send` before the endpoint prices it: the pause, then the minimum decide; otherwise the
      priced message holds the recipient, the received amount in local units, and before a payload 32 zeros. */
  lemma PricedAnswers(store: Store, peer: Peer, transferFee: Option<TransferFee>, params: SendInstruction.SendParams)
    requires transferFee.Some? ==> Legal(transferFee.value)
    requires BasisPointsInForce(store.defaultFeeBps, peer.feeBps) <= 10000
    ensures var q := QuotedMessage(store, peer, transferFee, params);
            var a := SendInstruction.Quote(store, peer, transferFee, params.amountLd);
            && a.Ok?
            && (q == Err(Paused) <==> store.paused)
            && (q == Err(SlippageExceeded) <==> !store.paused && a.value.receivedLd < params.minAmountLd)
            && (q.Ok? <==> !store.paused && a.value.receivedLd >= params.minAmountLd)
            && (q.Ok? ==>
                  && |q.value| >= 40 && q.value[..32] == params.to && Holds(q.value[32..40], a.value.receivedLd)
                  && q.value[40..] == if params.composeMsg.Some? then seq(32, _ => 0) + params.composeMsg.value else [])
  {
    var a := QuoteNeverFails(store, peer, transferFee, params.amountLd);
    assert seq(32, _ => 0) == ZERO32;
    MsgCodec.LaysOut(params.to, a.receivedLd, ZERO32, params.composeMsg);
  }

  /** Whenever `send` succeeds, `quote_oft` in the same state succeeds with the same receipt, and `quote_send`
      prices a message of the same length, to the same recipient, with the same payload after the sender. */
  lemma QuoteRefinesSend(env: Env, store: Store, peer: Peer, ledger: Ledger, mailbox: Mailbox,
                         accts: SendInstruction.SendAccounts, params: SendInstruction.SendParams, now: U64)
    requires SendInstruction.Send(env, store, peer, ledger, mailbox, accts, params, now).Ok?
    requires ledger.transferFee.Some? ==> Legal(ledger.transferFee.value)
    requires BasisPointsInForce(store.defaultFeeBps, peer.feeBps) <= MAX_FEE_BASIS_POINTS
    ensures var receipt := SendInstruction.Send(env, store, peer, ledger, mailbox, accts, params, now).value.receipt;
            var oft := QuotedOft(store, peer, ledger.transferFee, params.amountLd, params.minAmountLd);
            var priced := QuotedMessage(store, peer, ledger.transferFee, params);
            && oft.Ok? && priced.Ok?
            && oft.value.sentLd == receipt.amounts.sentLd
            && oft.value.receivedLd == receipt.amounts.receivedLd
            && FeesListed(oft.value.feeDetails) == receipt.amounts.sentLd - receipt.amounts.receivedLd
            && |priced.value| == |receipt.packet.message|
            && priced.value[..32] == receipt.packet.message[..32] == params.to
            && (params.composeMsg.Some? ==>
                  priced.value[72..] == receipt.packet.message[72..] == params.composeMsg.value)
  {
    BreakdownAddsUp(store, peer, ledger.transferFee, params.amountLd, params.minAmountLd);
    var a := SendInstruction.Quote(store, peer, ledger.transferFee, params.amountLd).value;
    var sentUnits := Ld2Sd(store.ld2sdRate, a.receivedLd);
    assert MsgCodec.Encode(params.to, a.receivedLd, ZERO32, params.composeMsg)[..32] == params.to;
    assert MsgCodec.Encode(params.to, sentUnits, accts.signer, params.composeMsg)[..32] == params.to;
  }

  /** The priced message is not the sent one in general: it is exactly when nothing is received or local and
      shared decimals coincide, and there is no payload or the signer is the default key. */
  lemma PricedMessageIsSentWhen(env: Env, store: Store, peer: Peer, ledger: Ledger, mailbox: Mailbox,
                                accts: SendInstruction.SendAccounts, params: SendInstruction.SendParams, now: U64)
    requires SendInstruction.Send(env, store, peer, ledger, mailbox, accts, params, now).Ok?
    requires QuotedMessage(store, peer, ledger.transferFee, params).Ok?
    ensures var receipt := SendInstruction.Send(env, store, peer, ledger, mailbox, accts, params, now).value.receipt;
            (QuotedMessage(store, peer, ledger.transferFee, params).value == receipt.packet.message
             <==> && (receipt.amounts.receivedLd == 0 || store.ld2sdRate == 1)
                  && (params.composeMsg.None? || accts.signer == ZERO32))
  {
    var received := SendInstruction.Quote(store, peer, ledger.transferFee, params.amountLd).value.receivedLd;
    var units := Ld2Sd(store.ld2sdRate, received);
    var priced := MsgCodec.Encode(params.to, received, ZERO32, params.composeMsg);
    var sent := MsgCodec.Encode(params.to, units, accts.signer, params.composeMsg);
    MsgCodec.DecodesSend(params.to, received, ZERO32, params.composeMsg);
    MsgCodec.DecodesSend(params.to, units, accts.signer, params.composeMsg);
    WholeOnlyWhen(received, store.ld2sdRate);
    if priced == sent && params.composeMsg.Some? {
      assert priced[40..72] == ZERO32;
      assert sent[40..72] == accts.signer;
    }
  }

  lemma WholeOnlyWhen(n: nat, d: nat)
    requires 0 < d
    ensures n / d == n <==> n == 0 || d == 1
  {
    FloorBounds(n, d);
    if n > 0 && d > 1 && n / d == n { MulMonotone(2, d, n); }
    if d == 1 { FloorUnique(n, 1, n); }
    if n == 0 { FloorUnique(0, d, 0); }
  }
}
