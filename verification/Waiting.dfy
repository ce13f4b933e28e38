/** Progress and refusal through the bridge's limiters: what was refused passes after the right wait, and what
    exceeds the capacity never passes. */
module Waiting {
  import opened Primitives
  import opened Arithmetic
  import opened RateLimiters
  import opened LimiterTheory
  import opened Fees
  import opened Accounts
  import opened Bridge
  import opened Invariants
  import opened NetFlow
  import opened LimiterHistory
  import opened Acceptance
  import MsgCodec
  import SendInstruction
  import LzReceiveInstruction

  // ---- Windows without consumption --------------------------------------------------------------------------------

  /** The step neither consumes from the limiter nor changes its settings. Traffic the other way, refused
      transactions and everything else are allowed. */
  ghost predicate QuietAt(run: Run, k: nat, eid: U32, d: Direction) {
    k < |run.steps| &&
    var o, action := run.outcomes[k], run.steps[k].action;
    && (o.Sent? && o.dstEid == eid ==> d.Inbound?)
    && (o.Received? && o.received.packet.srcEid == eid ==> d.Outbound?)
    && (o.Configured? && action.ConfigurePeer? && action.remoteEid == eid ==>
          if d.Outbound? then !action.peerChange.OutboundRateLimit? else !action.peerChange.InboundRateLimit?)
  }

  ghost predicate OnlyRefills(calls: seq<Call>) {
    forall i | 0 <= i < |calls| :: calls[i].Refill?
  }

  lemma {:induction false} RefillsConsumeNothing(l: Limiter, calls: seq<Call>)
    requires OnlyRefills(calls)
    ensures NothingConsumed(l, calls)
    decreases |calls|
  {
    if calls != [] { RefillsConsumeNothing(LazyCall(l, calls[0]).after, calls[1..]); }
  }

  lemma {:induction false} QuietWindow(run: Run, eid: U32, d: Direction, i: nat, j: nat)
    requires i <= j <= |run.steps|
    requires forall k: nat | i <= k < j :: QuietAt(run, k, eid, d)
    ensures OnlyRefills(WindowCalls(run, eid, d, i, j))
    decreases j
  {
    if i < j {
      QuietWindow(run, eid, d, i, j - 1);
      QuietExtends(run, eid, d, WindowCalls(run, eid, d, i, j - 1), j - 1, WindowCalls(run, eid, d, i, j));
    }
  }

  lemma QuietExtends(run: Run, eid: U32, d: Direction, calls: seq<Call>, k: nat, extended: seq<Call>)
    requires QuietAt(run, k, eid, d) && OnlyRefills(calls)
    requires extended == calls + StepCalls(run.steps[k], run.outcomes[k], eid, d)
    ensures OnlyRefills(extended)
  {
    QuietStep(run, k, eid, d);
  }

  lemma QuietKeepsLimiter(run: Run, eid: U32, d: Direction, i: nat, j: nat)
    requires forall k: nat | i <= k < j :: QuietAt(run, k, eid, d)
    ensures forall k: nat | i <= k < j :: LimiterKeptAt(run, k, eid, d)
  {
    forall k: nat | i <= k < j ensures LimiterKeptAt(run, k, eid, d) { QuietStep(run, k, eid, d); }
  }

  lemma QuietStep(run: Run, k: nat, eid: U32, d: Direction)
    requires QuietAt(run, k, eid, d)
    ensures OnlyRefills(StepCalls(run.steps[k], run.outcomes[k], eid, d)) && LimiterKeptAt(run, k, eid, d)
  {
  }

  // ---- Waiting ------------------------------------------------------------------------------------------------------

  /** What could pass a limiter at time `t`, or 0 without one. */
  function LevelAt(s: Chain, eid: U32, d: Direction, t: nat): int {
    var l := LimiterIn(s.peers, eid, d);
    if l.Some? && l.value.lastRefillTime <= t then Available(l.value, t) else 0
  }

  /** The seconds until a limiter at this level and rate lets `amount` pass. */
  function WaitFor(level: int, rate: nat, amount: nat): nat
    requires rate > 0
  {
    if amount <= level then 0
    else
      CeilBounds(amount - level, rate);
      FloorMonotone(0, amount - level + rate - 1, rate);
      CeilDiv(amount - level, rate)
  }

  lemma WaitSuffices(level: int, rate: nat, capacity: nat, amount: nat, elapsed: nat)
    requires rate > 0 && amount <= capacity && WaitFor(level, rate, amount) <= elapsed
    ensures amount <= Min(capacity, level + rate * elapsed)
  {
    MulMonotone(0, elapsed, rate);
    if level < amount { CeilGalois(amount - level, rate, elapsed); }
  }

  lemma RefillsAllowAfterWait(l: Limiter, calls: seq<Call>, amount: nat, from: nat, t: nat)
    requires Bounded(l) && l.lastRefillTime <= from <= t && OnlyRefills(calls) && CallsWithin(calls, l.lastRefillTime, t)
    requires l.refillPerSecond > 0 && amount <= l.capacity
    requires WaitFor(Available(l, from), l.refillPerSecond, amount) <= t - from
    ensures var final := LazyRun(l, calls).final;
            final.lastRefillTime <= t && amount <= Available(final, t)
  {
    RefillsConsumeNothing(l, calls);
    WithinBounds(calls, l.lastRefillTime, t);
    LevelOnlyGrows(l, calls, t);
    AvailableAdvances(l, from, t);
    WaitSuffices(Available(l, from), l.refillPerSecond, l.capacity, amount, t - from);
  }

  lemma {:induction false} WithinTo(calls: seq<Call>, from: nat, to: nat, later: nat)
    requires CallsWithin(calls, from, to) && to <= later
    ensures CallsWithin(calls, from, later)
    decreases |calls|
  {
    if calls != [] { WithinTo(calls[1..], calls[0].Time(), to, later); }
  }

  /** The limiter at the end of a quiet window, as refills of the one at its start. */
  lemma QuietWindowRan(run: History, eid: U32, d: Direction, i: nat, j: nat, t: nat) returns (calls: seq<Call>)
    requires i <= j <= |run.steps| && Now(run.states[j]) <= t
    requires forall k: nat | i <= k < j :: QuietAt(run, k, eid, d)
    requires CapacityOf(run.states[i], eid, d).Some?
    ensures var l := LimiterIn(run.states[i].peers, eid, d).value;
            && Bounded(l) && l.lastRefillTime <= Now(run.states[i])
            && OnlyRefills(calls) && CallsWithin(calls, l.lastRefillTime, t)
            && LimiterIn(run.states[j].peers, eid, d) == Some(LazyRun(l, calls).final)
  {
    calls := WindowCalls(run, eid, d, i, j);
    LimiterNotAhead(run, i, eid, d);
    QuietWindow(run, eid, d, i, j);
    QuietKeepsLimiter(run, eid, d, i, j);
    WindowRan(run, eid, d, i, j);
    WindowCallsWithin(run, eid, d, i, j);
    WithinFrom(calls, LimiterIn(run.states[i].peers, eid, d).value.lastRefillTime, Now(run.states[i]), Now(run.states[j]));
    WithinTo(calls, LimiterIn(run.states[i].peers, eid, d).value.lastRefillTime, Now(run.states[j]), t);
  }

  /** A limiter that could not let an amount within its capacity pass at time `from` can do so once the wait has
      gone by, whatever happened in between, as long as nothing was consumed and the limiter was not changed. */
  lemma AllowedAfterWait(run: History, eid: U32, d: Direction, i: nat, j: nat, amount: nat, from: nat, t: nat)
    requires i <= j <= |run.steps| && Now(run.states[i]) <= from <= t && Now(run.states[j]) <= t
    requires forall k: nat | i <= k < j :: QuietAt(run, k, eid, d)
    requires CapacityOf(run.states[i], eid, d).Some? && amount <= CapacityOf(run.states[i], eid, d).value
    requires var rate := RateIn(run.states[i].peers, eid, d);
             rate > 0 && WaitFor(LevelAt(run.states[i], eid, d, from), rate, amount) <= t - from
    ensures var m := LimiterIn(run.states[j].peers, eid, d);
            m.Some? && m.value.lastRefillTime <= t && amount <= Available(m.value, t)
  {
    var calls := QuietWindowRan(run, eid, d, i, j, t);
    RefillsAllowAfterWait(LimiterIn(run.states[i].peers, eid, d).value, calls, amount, from, t);
  }

  /** A step of a history, seen from its own time. */
  lemma AtItsTime(run: History, k: nat)
    requires k < |run.steps|
    ensures Now(run.states[k]) <= Seconds(run.steps[k].at) == Now(run.states[k + 1])
    ensures Sane(run.env, run.states[k].(clock := run.steps[k].at))
    ensures run.outcomes[k] == Act(run.env, run.states[k].(clock := run.steps[k].at), run.steps[k].action).outcome
  {
    HistoryIsSane(run, k);
    ClockFollows(run.env, run.states[k], StepAt(run, k));
    TimeKeepsSane(run.env, run.states[k], StepAt(run, k).at);
  }

  /** A delivery of this packet at step j that has everything else in order. */
  ghost predicate OtherwiseReady(run: Run, j: nat, params: LzReceiveInstruction.ReceiveParams, worth: nat) {
    && j < |run.steps| && run.steps[j].action.LzReceive? && params.srcEid in run.states[j].peers
    && var s, accts := run.states[j].(clock := run.steps[j].at), run.steps[j].action.receiveAccounts;
       && ReceiveReady(run.env, s, accts, params)
       && accts.mintAuthority.Some? && s.ledger.supply + worth <= U64_MAX
       && (MsgCodec.ComposeMsg(params.message).Some? ==> accts.composeAccepted)
  }

  /** A delivery that the limiter allows is not refused for the limit. */
  lemma AllowedDelivery(run: History, j: nat, params: LzReceiveInstruction.ReceiveParams, worth: U64)
    requires j < |run.steps| && run.steps[j].action.LzReceive? && run.steps[j].action.receiveParams == params
    requires worth == Worth(run.states[0].store.ld2sdRate, LzReceiveInstruction.ClearedPacket(run.env, params))
    requires var l, t := LimiterIn(run.states[j].peers, params.srcEid, Inbound), Seconds(run.steps[j].at);
             l.Some? && l.value.lastRefillTime <= t && worth <= Available(l.value, t)
    ensures run.outcomes[j] != Rejected(RateLimitExceeded)
    ensures OtherwiseReady(run, j, params, worth) ==> run.outcomes[j].Received?
  {
    RunKeepsFixed(run, 0, j);
    AtItsTime(run, j);
    ReceiveSucceedsWhen(run.env, run.states[j].(clock := run.steps[j].at), run.steps[j].action.receiveAccounts, params);
  }

  /** What delivering the packet of these parameters mints. */
  function WorthOf(run: Run, params: LzReceiveInstruction.ReceiveParams): int {
    Worth(run.states[0].store.ld2sdRate, LzReceiveInstruction.ClearedPacket(run.env, params))
  }

  /** The seconds from step i until its peer's limiter lets `amount` pass in. */
  function WaitFrom(run: Run, i: nat, eid: U32, d: Direction, amount: nat): nat
    requires i < |run.steps| && RateIn(run.states[i].peers, eid, d) > 0
  {
    WaitFor(LevelAt(run.states[i], eid, d, Seconds(run.steps[i].at)), RateIn(run.states[i].peers, eid, d), amount)
  }

  lemma StepIsLater(run: Run, k: nat)
    requires k < |run.steps|
    ensures Now(run.states[k]) <= Seconds(run.steps[k].at)
  {
    assert run.states[k].clock <= StepAt(run, k).at;
  }

  /** Waiting from a refused step i to step j. */
  lemma AllowedAfterRefusal(run: History, i: nat, j: nat, eid: U32, d: Direction, amount: nat)
    requires i < j < |run.steps| && run.outcomes[i].Rejected?
    requires forall k: nat | i < k < j :: QuietAt(run, k, eid, d)
    requires CapacityOf(run.states[i], eid, d).Some? && RateIn(run.states[i].peers, eid, d) > 0
    requires amount <= CapacityOf(run.states[i], eid, d).value
    requires Seconds(run.steps[i].at) + WaitFrom(run, i, eid, d, amount) <= Seconds(run.steps[j].at)
    ensures var l, t := LimiterIn(run.states[j].peers, eid, d), Seconds(run.steps[j].at);
            l.Some? && l.value.lastRefillTime <= t && amount <= Available(l.value, t)
  {
    StepIsLater(run, i);
    StepIsLater(run, j);
    AllowedAfterWait(run, eid, d, i, j, amount, Seconds(run.steps[i].at), Seconds(run.steps[j].at));
  }

  /** A delivery refused as RateLimitExceeded, of an amount within the limiter's capacity, is not refused for that
      again once the missing tokens have accrued, unless other deliveries consumed them or the limiter was
      changed; with everything else in order it is received. */
  lemma RefusedDeliveryPasses(run: History, i: nat, j: nat, params: LzReceiveInstruction.ReceiveParams)
    requires i < j < |run.steps| && run.outcomes[i] == Rejected(RateLimitExceeded)
    requires run.steps[i].action.LzReceive? && run.steps[i].action.receiveParams == params
    requires run.steps[j].action.LzReceive? && run.steps[j].action.receiveParams == params
    requires forall k: nat | i < k < j :: QuietAt(run, k, params.srcEid, Inbound)
    requires CapacityOf(run.states[i], params.srcEid, Inbound).Some? && RateIn(run.states[i].peers, params.srcEid, Inbound) > 0
    requires 0 <= WorthOf(run, params) <= CapacityOf(run.states[i], params.srcEid, Inbound).value
    requires Seconds(run.steps[i].at) + WaitFrom(run, i, params.srcEid, Inbound, WorthOf(run, params))
             <= Seconds(run.steps[j].at)
    ensures run.outcomes[j] != Rejected(RateLimitExceeded)
    ensures OtherwiseReady(run, j, params, WorthOf(run, params)) ==> run.outcomes[j].Received?
  {
    AllowedAfterRefusal(run, i, j, params.srcEid, Inbound, WorthOf(run, params));
    AllowedDelivery(run, j, params, WorthOf(run, params));
  }

  /** Likewise outbound: a send whose received amount is within capacity is sent after the wait, when everything
      else about it is in order. */
  lemma SendPassesAfterWait(run: History, i: nat, j: nat, from: nat)
    requires i <= j < |run.steps| && run.steps[j].action.Send?
    requires var eid := run.steps[j].action.sendParams.dstEid;
             && CapacityOf(run.states[i], eid, Outbound).Some? && eid in run.states[j].peers
             && forall k: nat | i <= k < j :: QuietAt(run, k, eid, Outbound)
    requires var s, accts, params := run.states[j], run.steps[j].action.sendAccounts, run.steps[j].action.sendParams;
             var eid, t := params.dstEid, Seconds(run.steps[j].at);
             var quote := SendInstruction.Quote(s.store, s.peers[eid], s.ledger.transferFee, params.amountLd);
             && SendReady(run.env, s, accts, params) && !s.store.paused && quote.Ok?
             && quote.value.receivedLd >= params.minAmountLd
             && quote.value.sentLd <= s.ledger.accounts[accts.tokenSource].amount
             && quote.value.receivedLd <= CapacityOf(run.states[i], eid, Outbound).value
             && Now(run.states[i]) <= from <= t && RateIn(run.states[i].peers, eid, Outbound) > 0
             && WaitFor(LevelAt(run.states[i], eid, Outbound, from), RateIn(run.states[i].peers, eid, Outbound),
                        quote.value.receivedLd) <= t - from
    ensures run.outcomes[j].Sent?
  {
    var s, params := run.states[j], run.steps[j].action.sendParams;
    var received := SendInstruction.Quote(s.store, s.peers[params.dstEid], s.ledger.transferFee, params.amountLd).value.receivedLd;
    AtItsTime(run, j);
    SignerIsNotStore(run, j);
    AllowedAfterWait(run, params.dstEid, Outbound, i, j, received, from, Seconds(run.steps[j].at));
    SendSucceedsWhen(run.env, s.(clock := run.steps[j].at), run.steps[j].action.sendAccounts, params);
  }

  lemma SignerIsNotStore(run: Run, k: nat)
    requires k < |run.steps| && run.steps[k].action.Send?
    ensures run.steps[k].action.sendAccounts.signer != run.env.storeKey
  {
    assert Assumed(run.env, StepAt(run, k).action);
  }

  // ---- Above capacity -------------------------------------------------------------------------------------------------

  lemma SendWithinCapacity(env: Env, s: Chain, accts: SendInstruction.SendAccounts, params: SendInstruction.SendParams)
    requires params.dstEid in s.peers && LimiterSane(s.peers[params.dstEid].outbound, Now(s))
    requires s.peers[params.dstEid].outbound.Some? && DoSend(env, s, accts, params).outcome.Sent?
    ensures DoSend(env, s, accts, params).outcome.sent.amounts.receivedLd <= s.peers[params.dstEid].outbound.value.capacity
  {
    ConsumeIsExact(s.peers[params.dstEid].outbound.value, Now(s),
                   DoSend(env, s, accts, params).outcome.sent.amounts.receivedLd);
  }

  lemma ReceiveWithinCapacity(env: Env, s: Chain, accts: LzReceiveInstruction.ReceiveAccounts,
                              params: LzReceiveInstruction.ReceiveParams)
    requires params.srcEid in s.peers && LimiterSane(s.peers[params.srcEid].inbound, Now(s))
    requires s.peers[params.srcEid].inbound.Some? && DoReceive(env, s, accts, params).outcome.Received?
    ensures DoReceive(env, s, accts, params).outcome.received.amountLd <= s.peers[params.srcEid].inbound.value.capacity
  {
    ConsumeIsExact(s.peers[params.srcEid].inbound.value, Now(s), DoReceive(env, s, accts, params).outcome.received.amountLd);
  }

  lemma ActWithinCapacity(env: Env, s: Chain, action: Action, eid: U32, d: Direction)
    requires LimiterSane(LimiterIn(s.peers, eid, d), Now(s)) && CapacityOf(s, eid, d).Some?
    ensures Through(Act(env, s, action).outcome, eid, d) <= CapacityOf(s, eid, d).value
  {
    var o := Act(env, s, action).outcome;
    if o.Sent? && o.dstEid == eid && d.Outbound? {
      SendWithinCapacity(env, s, action.sendAccounts, action.sendParams);
    } else if o.Received? && o.received.packet.srcEid == eid && d.Inbound? {
      ReceiveWithinCapacity(env, s, action.receiveAccounts, action.receiveParams);
    }
  }

  /** What passes a limiter in one transaction never exceeds the capacity it has had since it was last set: an
      amount above the capacity is refused at every point of every history that does not change it. */
  lemma NothingAboveCapacityPasses(run: History, eid: U32, d: Direction, i: nat, j: nat)
    requires i <= j < |run.steps| && CapacityOf(run.states[i], eid, d).Some?
    requires forall k: nat | i <= k < j :: KeptAt(run, k, eid, d)
    ensures Through(run.outcomes[j], eid, d) <= CapacityOf(run.states[i], eid, d).value
  {
    WindowKeepsCapacity(run, eid, d, i, j);
    LimiterNotAhead(run, j, eid, d);
    AtItsTime(run, j);
    ActWithinCapacity(run.env, run.states[j].(clock := run.steps[j].at), run.steps[j].action, eid, d);
  }
}
