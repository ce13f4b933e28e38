/** What crosses the bridge, byte by byte: the packet that a send dispatches, the packet that a delivery settles,
    and the compose messages that the deliveries of a history hand to the endpoint. */
module Messages {
  import opened Primitives
  import opened BigEndian
  import opened Fees
  import opened Accounts
  import opened Bridge
  import opened Invariants
  import opened Effects
  import MsgCodec
  import ComposeMsgCodec
  import SendInstruction
  import LzReceiveInstruction

  // ---- Packets -----------------------------------------------------------------------------------------------------

  /** A send dispatches one packet: from this store to the peer's address, under the nonce and guid that the
      endpoint gave, with the recipient, the received amount in shared units and, if there is a payload, the
      signer and the payload, each in its place. */
  lemma SentPacket(env: Env, s: Chain, accts: SendInstruction.SendAccounts, params: SendInstruction.SendParams)
    requires DoSend(env, s, accts, params).outcome.Sent?
    ensures var t, sent := DoSend(env, s, accts, params).after, DoSend(env, s, accts, params).outcome.sent;
            var p := sent.packet;
            && params.dstEid in s.peers
            && t.mailbox.inFlight == s.mailbox.inFlight + multiset{p}
            && p.srcEid == env.localEid && p.sender == env.storeKey
            && p.dstEid == params.dstEid && p.receiver == s.peers[params.dstEid].peerAddress
            && accts.dispatch == Some(SendInstruction.Dispatch(p.nonce, p.guid))
            && |p.message| == (if params.composeMsg.Some? then 72 + |params.composeMsg.value| else 40)
            && p.message[..32] == params.to
            && Holds(p.message[32..40], Ld2Sd(s.store.ld2sdRate, sent.amounts.receivedLd))
            && (params.composeMsg.Some? ==> p.message[40..72] == accts.signer && p.message[72..] == params.composeMsg.value)
  {
    var sent := DoSend(env, s, accts, params).outcome.sent;
    var units := Ld2Sd(s.store.ld2sdRate, sent.amounts.receivedLd);
    MsgCodec.LaysOut(params.to, units, accts.signer, params.composeMsg);
    if params.composeMsg.Some? {
      assert sent.packet.message[40..] == accts.signer + params.composeMsg.value;
      assert sent.packet.message[40..72] == sent.packet.message[40..][..32];
      assert sent.packet.message[72..] == sent.packet.message[40..][32..];
    }
  }

  /** A delivery settles exactly the packet of its parameters, and mints to the associated account, owned by the
      recipient that the first 32 bytes name, the amount that the next eight hold times the rate. */
  lemma ReceivedPacket(env: Env, s: Chain, accts: LzReceiveInstruction.ReceiveAccounts,
                       params: LzReceiveInstruction.ReceiveParams)
    requires DoReceive(env, s, accts, params).outcome.Received?
    ensures var t, received := DoReceive(env, s, accts, params).after, DoReceive(env, s, accts, params).outcome.received;
            && received.packet == Packet(params.srcEid, params.sender, env.localEid, env.storeKey, params.nonce, params.guid,
                                         params.message)
            && received.packet in s.mailbox.inFlight
            && t.mailbox.inFlight == s.mailbox.inFlight - multiset{received.packet}
            && |params.message| >= 40
            && DoReceive(env, s, accts, params).outcome.dest
               == env.associatedAccount(params.message[..32], s.store.tokenMint, s.ledger.tokenProgram)
            && t.ledger.Owns(params.message[..32], DoReceive(env, s, accts, params).outcome.dest)
            && exists units: U64 :: Holds(params.message[32..40], units) && received.amountLd == s.store.ld2sdRate * units
  {
    MsgCodec.ReadsLayout(params.message);
    DestinationIsOwned(env, s, accts, params);
    assert Holds(params.message[32..40], MsgCodec.AmountSd(params.message));
  }

  lemma DestinationIsOwned(env: Env, s: Chain, accts: LzReceiveInstruction.ReceiveAccounts,
                           params: LzReceiveInstruction.ReceiveParams)
    requires DoReceive(env, s, accts, params).outcome.Received?
    ensures DoReceive(env, s, accts, params).after.ledger.Owns(accts.toAddress, accts.tokenDest)
    ensures accts.toAddress == MsgCodec.SendTo(params.message)
  {
  }

  // ---- Compose messages ----------------------------------------------------------------------------------------------

  /** The compose message for a wire message: to its recipient, under the delivery's guid and index 0, carrying the
      nonce, the source, the minted amount and everything after the amount on the wire. */
  ghost predicate Composes(params: LzReceiveInstruction.ReceiveParams, amountLd: U64, c: Compose) {
    && |params.message| > 40
    && c.to == params.message[..32] && c.guid == params.guid && c.index == 0
    && ComposeMsgCodec.Carries(c.message, params.nonce, params.srcEid, amountLd, params.message[40..])
  }

  /** A delivery hands the endpoint one compose message if the wire message has more than 40 bytes, and otherwise
      none. */
  lemma ReceiveComposes(env: Env, s: Chain, accts: LzReceiveInstruction.ReceiveAccounts,
                        params: LzReceiveInstruction.ReceiveParams)
    requires DoReceive(env, s, accts, params).outcome.Received?
    ensures var t, received := DoReceive(env, s, accts, params).after, DoReceive(env, s, accts, params).outcome.received;
            && (received.compose.Some? <==> |params.message| > 40)
            && (received.compose.Some? ==> Composes(params, received.amountLd, received.compose.value))
            && t.mailbox.composed
               == s.mailbox.composed + (if received.compose.Some? then multiset{received.compose.value} else multiset{})
  {
    MsgCodec.ReadsLayout(params.message);
    DestinationIsOwned(env, s, accts, params);
    if |params.message| > 40 {
      ComposeMsgCodec.LaysOut(params.nonce, params.srcEid, DoReceive(env, s, accts, params).outcome.received.amountLd,
                              params.message[40..]);
    }
  }

  /** What a step hands to the endpoint for the recipients' programs. */
  function HandedBy(o: Outcome): multiset<Compose> {
    if o.Received? && o.received.compose.Some? then multiset{o.received.compose.value} else multiset{}
  }

  lemma SendComposesNothing(env: Env, s: Chain, accts: SendInstruction.SendAccounts, params: SendInstruction.SendParams)
    ensures DoSend(env, s, accts, params).after.mailbox.composed == s.mailbox.composed
  {
  }

  lemma OthersComposeNothing(env: Env, s: Chain, action: Action)
    requires !action.Send? && !action.LzReceive?
    ensures Act(env, s, action).after.mailbox.composed == s.mailbox.composed && !Act(env, s, action).outcome.Received?
  {
  }

  lemma ActComposes(env: Env, s: Chain, action: Action)
    ensures var t := Act(env, s, action);
            && t.after.mailbox.composed == s.mailbox.composed + HandedBy(t.outcome)
            && (t.outcome.Received? ==>
                  && action.LzReceive?
                  && (t.outcome.received.compose.Some? <==> |action.receiveParams.message| > 40)
                  && (t.outcome.received.compose.Some? ==>
                        Composes(action.receiveParams, t.outcome.received.amountLd, t.outcome.received.compose.value)))
  {
    if action.Send? {
      SendComposesNothing(env, s, action.sendAccounts, action.sendParams);
    } else if action.LzReceive? {
      if DoReceive(env, s, action.receiveAccounts, action.receiveParams).outcome.Received? {
        ReceiveComposes(env, s, action.receiveAccounts, action.receiveParams);
      }
    } else {
      OthersComposeNothing(env, s, action);
    }
  }

  /** Step k of a history hands over exactly what the delivery in it calls for. */
  lemma HistoryComposes(run: Run, k: nat)
    requires k < |run.steps|
    ensures var o, action := run.outcomes[k], run.steps[k].action;
            && run.states[k + 1].mailbox.composed == run.states[k].mailbox.composed + HandedBy(o)
            && (o.Received? ==>
                  && action.LzReceive?
                  && (o.received.compose.Some? <==> |action.receiveParams.message| > 40)
                  && (o.received.compose.Some? ==>
                        Composes(action.receiveParams, o.received.amountLd, o.received.compose.value)))
  {
    ActComposes(run.env, run.states[k].(clock := StepAt(run, k).at), StepAt(run, k).action);
  }

  /** All that these outcomes handed over. */
  function Handed(outcomes: seq<Outcome>): multiset<Compose> {
    if outcomes == [] then multiset{} else Handed(outcomes[..|outcomes| - 1]) + HandedBy(outcomes[|outcomes| - 1])
  }

  lemma HandedTakes(outcomes: seq<Outcome>, n: nat)
    requires n < |outcomes|
    ensures Handed(outcomes[..n + 1]) == Handed(outcomes[..n]) + HandedBy(outcomes[n])
  {
    assert outcomes[..n + 1][..n] == outcomes[..n];
  }

  /** What the endpoint holds at state n is what the steps before it handed over. */
  ghost predicate HoldsHanded(run: Run, n: nat) {
    n <= |run.steps| && run.states[n].mailbox.composed == Handed(run.outcomes[..n])
  }

  lemma HoldsNothingYet(run: History)
    ensures HoldsHanded(run, 0)
  {
  }

  lemma ComposedGrows(run: Run, k: nat, before: multiset<Compose>, after: multiset<Compose>)
    requires k < |run.steps|
    requires before == run.states[k].mailbox.composed && after == run.states[k + 1].mailbox.composed
    ensures after == before + HandedBy(run.outcomes[k])
  {
    HistoryComposes(run, k);
  }

  lemma HandsOver(run: Run, n: nat)
    requires 0 < n <= |run.steps| && HoldsHanded(run, n - 1)
    ensures HoldsHanded(run, n)
  {
    ComposedGrows(run, n - 1, run.states[n - 1].mailbox.composed, run.states[n].mailbox.composed);
    HandedTakes(run.outcomes, n - 1);
  }

  /** In every history the endpoint holds exactly the compose messages of the deliveries received: none is lost,
      none is handed over twice, and nothing else hands one over. */
  lemma {:induction false} ComposedIsHanded(run: History, n: nat)
    requires n <= |run.steps|
    ensures HoldsHanded(run, n)
  {
    if n == 0 {
      HoldsNothingYet(run);
    } else {
      ComposedIsHanded(run, n - 1);
      HandsOver(run, n);
    }
  }
}
