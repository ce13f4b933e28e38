/** Results that span a send, its delivery, and the plan for the delivery. */
module EndToEnd {
  import opened Primitives
  import opened RateLimiters
  import opened Fees
  import opened Accounts
  import opened Bridge
  import opened Invariants
  import opened Effects
  import MsgCodec
  import ComposeMsgCodec
  import SendInstruction
  import LzReceiveInstruction
  import Planner

  /** The parameters with which a packet arrives. */
  function Arrival(p: Packet): LzReceiveInstruction.ReceiveParams {
    LzReceiveInstruction.ReceiveParams(p.srcEid, p.sender, p.nonce, p.guid, p.message)
  }

  /** A sent packet that is received by a store of the same rate mints exactly the receipt's received amount,
      to the account of the recipient the sender named; its compose message, re-encoded by the receiver and
      read by the compose decoders, shows the packet's nonce and source, that amount, the signer and the
      payload, and there is one exactly when the sender gave a payload, the empty one included. */
  lemma ComposeRoundTrip(env: Env, s: Chain, accts: SendInstruction.SendAccounts, params: SendInstruction.SendParams,
                         there: Env, store: Store, peer: Peer, ledger: Ledger, mailbox: Mailbox,
                         receiving: LzReceiveInstruction.ReceiveAccounts, now: U64)
    requires Sane(env, s) && DoSend(env, s, accts, params).outcome.Sent?
    requires store.ld2sdRate == s.store.ld2sdRate
    requires LzReceiveInstruction.Receive(there, store, peer, ledger, mailbox, receiving,
                                          Arrival(DoSend(env, s, accts, params).outcome.sent.packet), now).Ok?
    ensures var sent := DoSend(env, s, accts, params).outcome.sent;
            var receipt := LzReceiveInstruction.Receive(there, store, peer, ledger, mailbox, receiving,
                                                        Arrival(sent.packet), now).value.receipt;
            && receipt.amountLd == sent.amounts.receivedLd
            && receiving.toAddress == params.to
            && (receipt.compose.Some? <==> params.composeMsg.Some?)
            && (receipt.compose.Some? ==>
                  var m := receipt.compose.value.message;
                  && receipt.compose.value.to == params.to
                  && ComposeMsgCodec.Nonce(m) == sent.packet.nonce
                  && ComposeMsgCodec.SrcEid(m) == env.localEid
                  && ComposeMsgCodec.AmountLd(m) == sent.amounts.receivedLd
                  && ComposeMsgCodec.ComposeFrom(m) == accts.signer
                  && ComposeMsgCodec.ComposeMsg(m) == params.composeMsg.value)
  {
    SentAmounts(env, s, accts, params);
    var sent := DoSend(env, s, accts, params).outcome.sent;
    var p := sent.packet;
    var units := Ld2Sd(s.store.ld2sdRate, sent.amounts.receivedLd);
    MsgCodec.DecodesSend(params.to, units, accts.signer, params.composeMsg);
    if params.composeMsg.Some? {
      ComposeMsgCodec.DecodesEncoded(p.nonce, p.srcEid, sent.amounts.receivedLd, accts.signer, params.composeMsg.value);
    }
  }

  /** A plan made in any state of a run still fits a delivery at any later step: it predicts the very compose
      bytes that the delivery forwards, and its remaining accounts are those for `clear`, then those derived
      from these bytes. */
  lemma PlanStaysValid(run: Run, i: nat, j: nat)
    requires i <= j < |run.steps| && run.steps[j].action.LzReceive? && run.outcomes[j].Received?
    requires var p := run.steps[j].action.receiveParams;
             |run.env.clearAccounts(p.srcEid, p.sender, p.nonce)| == LzReceiveInstruction.CLEAR_ACCOUNTS
    ensures var p := run.steps[j].action.receiveParams;
            var plan := Planner.Planned(run.env, run.states[i].store, run.states[i].ledger, p);
            var compose := run.outcomes[j].received.compose;
            && plan.Ok?
            && Planner.PredictedBytes(run.states[i].store, p) == Ok(if compose.Some? then Some(compose.value.message) else None)
            && plan.value[Planner.NAMED_ACCOUNTS..]
               == run.env.clearAccounts(p.srcEid, p.sender, p.nonce)
                  + if compose.Some?
                    then run.env.composeAccounts(compose.value.to, compose.value.guid, compose.value.index, compose.value.message)
                    else []
  {
    RunKeepsFixed(run, i, j);
    PlanFitsStep(run.env, run.states[i], run.states[j], StepAt(run, j));
  }

  /** And its first 13 accounts are what `lz_receive` demands in that later state, delivered or not. */
  lemma PlanFitsSlotsLater(run: Run, i: nat, j: nat, params: LzReceiveInstruction.ReceiveParams)
    requires i <= j <= |run.steps|
    requires Planner.Planned(run.env, run.states[i].store, run.states[i].ledger, params).Ok?
    ensures |params.message| >= 40
    ensures Planner.FillsSlots(run.env, run.states[j].store, run.states[j].ledger, params,
                               Planner.Planned(run.env, run.states[i].store, run.states[i].ledger, params).value)
  {
    RunKeepsFixed(run, i, j);
    Planner.PlanFillsSlots(run.env, run.states[i].store, run.states[i].ledger, run.states[j].store, run.states[j].ledger, params);
  }

  lemma PlanFitsStep(env: Env, planned: Chain, s: Chain, step: Step)
    requires SameFixed(planned, s) && step.action.LzReceive? && Next(env, s, step).outcome.Received?
    requires var p := step.action.receiveParams;
             |env.clearAccounts(p.srcEid, p.sender, p.nonce)| == LzReceiveInstruction.CLEAR_ACCOUNTS
    ensures var p := step.action.receiveParams;
            var plan := Planner.Planned(env, planned.store, planned.ledger, p);
            var compose := Next(env, s, step).outcome.received.compose;
            && plan.Ok?
            && Planner.PredictedBytes(planned.store, p) == Ok(if compose.Some? then Some(compose.value.message) else None)
            && plan.value[Planner.NAMED_ACCOUNTS..]
               == env.clearAccounts(p.srcEid, p.sender, p.nonce)
                  + if compose.Some?
                    then env.composeAccounts(compose.value.to, compose.value.guid, compose.value.index, compose.value.message)
                    else []
  {
    var p := step.action.receiveParams;
    Planner.PlanAgreesWithExecution(env, planned.store, planned.ledger, s.store, s.ledger, s.peers[p.srcEid], s.mailbox,
                                    step.action.receiveAccounts, p, Seconds(step.at));
    var remaining := Planner.Planned(env, planned.store, planned.ledger, p).value[Planner.NAMED_ACCOUNTS..];
    assert remaining == remaining[..LzReceiveInstruction.CLEAR_ACCOUNTS] + remaining[LzReceiveInstruction.CLEAR_ACCOUNTS..];
  }
}
