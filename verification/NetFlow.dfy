/** The rate limiters' promise over whole runs of the bridge: what can pass one peer in one direction, net of
    the traffic coming back, in any window of any interleaving. */
module NetFlow {
  import opened Primitives
  import opened Arithmetic
  import opened RateLimiters
  import opened LimiterTheory
  import opened Fees
  import opened Accounts
  import opened Bridge
  import opened Invariants
  import SendInstruction
  import LzReceiveInstruction
  import SetPeerConfig

  datatype Direction = Outbound | Inbound

  function LimiterIn(peers: map<U32, Peer>, eid: U32, d: Direction): Option<Limiter> {
    if eid !in peers then None else if d.Outbound? then peers[eid].outbound else peers[eid].inbound
  }

  /** What a step moves through a peer in a direction; traffic the other way counts against it. */
  function Through(o: Outcome, eid: U32, d: Direction): int {
    var out :=
      if o.Sent? && o.dstEid == eid then o.sent.amounts.receivedLd
      else if o.Received? && o.received.packet.srcEid == eid then 0 - o.received.amountLd
      else 0;
    if d.Outbound? then out else -out
  }

  /** The step does not set the capacity of, or remove, the limiter in question: a refused attempt to do so
      counts for nothing, and changing the rate is allowed. */
  predicate KeepsCapacity(action: Action, o: Outcome, eid: U32, d: Direction) {
    o.Configured? && action.ConfigurePeer? && action.remoteEid == eid ==>
      match action.peerChange
      case OutboundRateLimit(p) => d.Outbound? ==> p.Some? && p.value.capacity.None?
      case InboundRateLimit(p) => d.Inbound? ==> p.Some? && p.value.capacity.None?
      case _ => true
  }

  function Now(s: Chain): U64 {
    if s.clock < 0 then 0 else s.clock
  }

  // ---- One limiter, one operation ---------------------------------------------------------------------------------

  /** Level with the same limiter before the operation, in terms of what can be consumed at `now`. */
  ghost predicate Follows(before: Option<Limiter>, after: Option<Limiter>, now: U64, net: int) {
    before.Some? && before.value.lastRefillTime <= now ==>
      && after.Some? && after.value.capacity == before.value.capacity
      && after.value.lastRefillTime <= now
      && Available(after.value, now) <= Available(before.value, now) - net
  }

  /** Traffic takes exactly its amount from one limiter and gives exactly that to the other, up to its capacity. */
  lemma PassIsExact(spend: Option<Limiter>, credit: Option<Limiter>, now: U64, amount: U64)
    requires SendInstruction.Pass(spend, credit, now, amount).Ok?
    requires LimiterSane(spend, now) && LimiterSane(credit, now)
    ensures var pair := SendInstruction.Pass(spend, credit, now, amount).value;
            && pair.spent.Some? == spend.Some? && pair.credited.Some? == credit.Some?
            && (spend.Some? ==>
                  && pair.spent.value.lastRefillTime == now
                  && pair.spent.value.tokens == Available(spend.value, now) - amount)
            && (credit.Some? ==>
                  && pair.credited.value.lastRefillTime == now
                  && pair.credited.value.tokens == Min(credit.value.capacity, Available(credit.value, now) + amount))
  {
    if spend.Some? {
      ConsumeIsExact(spend.value, now, amount);
      JustTouched(Consumed(spend.value, now, amount).after);
    }
    if credit.Some? { RefillIsExact(credit.value, now, amount); }
  }

  lemma PassFollows(spend: Option<Limiter>, credit: Option<Limiter>, now: U64, amount: U64)
    requires SendInstruction.Pass(spend, credit, now, amount).Ok?
    ensures var pair := SendInstruction.Pass(spend, credit, now, amount).value;
            Follows(spend, pair.spent, now, amount) && Follows(credit, pair.credited, now, 0 - amount)
  {
    if spend.Some? && spend.value.lastRefillTime <= now {
      ConsumeIsExact(spend.value, now, amount);
    }
    if credit.Some? && credit.value.lastRefillTime <= now {
      RefillIsExact(credit.value, now, amount);
      JustTouched(Refilled(credit.value, now, amount));
    }
  }

  /** Changing only the rate of a limiter leaves exactly what could be consumed now. */
  lemma UpdateFollows(limiter: Option<Limiter>, params: SetPeerConfig.RateLimitParams, now: U64)
    requires params.capacity.None?
    ensures var updated := SetPeerConfig.UpdatedLimiter(limiter, Some(params), now);
            && Follows(limiter, updated, now, 0)
            && (limiter.Some? && LimiterSane(limiter, now) ==>
                  && updated.Some? && updated.value.lastRefillTime <= now
                  && Available(updated.value, now) == Available(limiter.value, now))
  {
    if limiter.Some? && limiter.value.lastRefillTime <= now && params.refillPerSecond.Some? {
      RefillIsExact(limiter.value, now, 0);
      JustTouched(WithRate(limiter.value, now, params.refillPerSecond.value));
    }
  }

  // ---- One step -----------------------------------------------------------------------------------------------------

  lemma SendFollows(env: Env, s: Chain, accts: SendInstruction.SendAccounts, params: SendInstruction.SendParams,
                    eid: U32, d: Direction)
    ensures var t := DoSend(env, s, accts, params);
            Follows(LimiterIn(s.peers, eid, d), LimiterIn(t.after.peers, eid, d), Now(s), Through(t.outcome, eid, d))
  {
    var t := DoSend(env, s, accts, params);
    if t.outcome.Sent? {
      var peer := s.peers[params.dstEid];
      PassFollows(peer.outbound, peer.inbound, Now(s), t.outcome.sent.amounts.receivedLd);
    }
  }

  lemma ReceiveFollows(env: Env, s: Chain, accts: LzReceiveInstruction.ReceiveAccounts,
                       params: LzReceiveInstruction.ReceiveParams, eid: U32, d: Direction)
    ensures var t := DoReceive(env, s, accts, params);
            Follows(LimiterIn(s.peers, eid, d), LimiterIn(t.after.peers, eid, d), Now(s), Through(t.outcome, eid, d))
  {
    var t := DoReceive(env, s, accts, params);
    if t.outcome.Received? {
      var peer := s.peers[params.srcEid];
      PassFollows(peer.inbound, peer.outbound, Now(s), t.outcome.received.amountLd);
    }
  }

  lemma ConfigureFollows(s: Chain, authority: Pubkey, remoteEid: U32, change: SetPeerConfig.PeerChange,
                         eid: U32, d: Direction)
    requires KeepsCapacity(ConfigurePeer(authority, remoteEid, change),
                           DoConfigurePeer(s, authority, remoteEid, change).outcome, eid, d)
    ensures Follows(LimiterIn(s.peers, eid, d), LimiterIn(DoConfigurePeer(s, authority, remoteEid, change).after.peers, eid, d),
                    Now(s), 0)
  {
    if DoConfigurePeer(s, authority, remoteEid, change).outcome.Rejected? {
      return;
    }
    match change {
      case OutboundRateLimit(p) =>
        if d.Outbound? && p.Some? && p.value.capacity.None? { UpdateFollows(PeerOrDefault(s, eid).outbound, p.value, Now(s)); }
      case InboundRateLimit(p) =>
        if d.Inbound? && p.Some? && p.value.capacity.None? { UpdateFollows(PeerOrDefault(s, eid).inbound, p.value, Now(s)); }
      case _ =>
    }
  }

  lemma ActFollows(env: Env, s: Chain, action: Action, eid: U32, d: Direction)
    requires KeepsCapacity(action, Act(env, s, action).outcome, eid, d)
    ensures var t := Act(env, s, action);
            Follows(LimiterIn(s.peers, eid, d), LimiterIn(t.after.peers, eid, d), Now(s), Through(t.outcome, eid, d))
  {
    if action.Send? {
      SendFollows(env, s, action.sendAccounts, action.sendParams, eid, d);
    } else if action.LzReceive? {
      ReceiveFollows(env, s, action.receiveAccounts, action.receiveParams, eid, d);
    } else if action.ConfigurePeer? {
      ConfigureFollows(s, action.authority, action.remoteEid, action.peerChange, eid, d);
    } else {
      assert Act(env, s, action).after.peers == s.peers;
    }
  }

  // ---- Windows of a run ------------------------------------------------------------------------------------------------

  function RateIn(peers: map<U32, Peer>, eid: U32, d: Direction): nat {
    var l := LimiterIn(peers, eid, d);
    if l.Some? then l.value.refillPerSecond else 0
  }

  /** Net traffic of steps i .. j-1. */
  function Net(run: Run, eid: U32, d: Direction, i: nat, j: nat): int
    requires i <= j <= |run.steps|
    decreases j
  {
    if i == j then 0 else Net(run, eid, d, i, j - 1) + Through(run.outcomes[j - 1], eid, d)
  }

  /** The rate in force, integrated from the time of state i to the time of state j. */
  function Accrued(run: Run, eid: U32, d: Direction, i: nat, j: nat): int
    requires i <= j <= |run.steps|
    decreases j
  {
    if i == j then 0
    else Accrued(run, eid, d, i, j - 1)
         + RateIn(run.states[j - 1].peers, eid, d) * (Now(run.states[j]) - Now(run.states[j - 1]))
  }

  /** What could pass right now, or 0 without a limiter. */
  function Level(s: Chain, eid: U32, d: Direction): int {
    var l := LimiterIn(s.peers, eid, d);
    if l.Some? && l.value.lastRefillTime <= Now(s) then Available(l.value, Now(s)) else 0
  }

  function CapacityOf(s: Chain, eid: U32, d: Direction): Option<U64> {
    var l := LimiterIn(s.peers, eid, d);
    if l.Some? then Some(l.value.capacity) else None
  }

  /** One step, as the limiter sees it. */
  lemma StepFollows(env: Env, s: Chain, step: Step, eid: U32, d: Direction)
    requires KeepsCapacity(step.action, Next(env, s, step).outcome, eid, d) && s.clock <= step.at
    requires CapacityOf(s, eid, d).Some? && LimiterIn(s.peers, eid, d).value.lastRefillTime <= Now(s)
    ensures var t := Next(env, s, step);
            && CapacityOf(t.after, eid, d) == CapacityOf(s, eid, d)
            && Level(t.after, eid, d) <= Level(s, eid, d) + RateIn(s.peers, eid, d) * (Now(t.after) - Now(s))
                                         - Through(t.outcome, eid, d)
  {
    ClockFollows(env, s, step);
    ActFollows(env, s.(clock := step.at), step.action, eid, d);
    AvailableAdvances(LimiterIn(s.peers, eid, d).value, Now(s), Seconds(step.at));
  }

  lemma LimiterNotAhead(run: History, k: nat, eid: U32, d: Direction)
    requires k <= |run.steps| && CapacityOf(run.states[k], eid, d).Some?
    ensures LimiterIn(run.states[k].peers, eid, d).value.lastRefillTime <= Now(run.states[k])
    ensures Bounded(LimiterIn(run.states[k].peers, eid, d).value)
  {
    ReachableConfiguration(run, k, eid);
  }

  /** One step of a history, as the limiter sees it. */
  lemma HistoryFollows(run: History, k: nat, eid: U32, d: Direction)
    requires k < |run.steps| && KeepsCapacity(run.steps[k].action, run.outcomes[k], eid, d)
    requires CapacityOf(run.states[k], eid, d).Some?
    ensures CapacityOf(run.states[k + 1], eid, d) == CapacityOf(run.states[k], eid, d)
    ensures Level(run.states[k + 1], eid, d)
         <= Level(run.states[k], eid, d)
            + RateIn(run.states[k].peers, eid, d) * (Now(run.states[k + 1]) - Now(run.states[k]))
            - Through(run.outcomes[k], eid, d)
  {
    LimiterNotAhead(run, k, eid, d);
    StepFollows(run.env, run.states[k], StepAt(run, k), eid, d);
  }

  lemma LevelInRange(s: Chain, eid: U32, d: Direction)
    requires CapacityOf(s, eid, d).Some?
    ensures 0 <= Level(s, eid, d) <= CapacityOf(s, eid, d).value
  {
    var l := LimiterIn(s.peers, eid, d).value;
    if l.lastRefillTime <= Now(s) { MulMonotone(0, Now(s) - l.lastRefillTime, l.refillPerSecond); }
  }

  ghost predicate KeptAt(run: Run, k: nat, eid: U32, d: Direction) {
    k < |run.steps| && KeepsCapacity(run.steps[k].action, run.outcomes[k], eid, d)
  }

  lemma {:induction false} WindowKeepsCapacity(run: History, eid: U32, d: Direction, i: nat, j: nat)
    requires i <= j <= |run.steps|
    requires CapacityOf(run.states[i], eid, d).Some?
    requires forall k: nat | i <= k < j :: KeptAt(run, k, eid, d)
    ensures CapacityOf(run.states[j], eid, d) == CapacityOf(run.states[i], eid, d)
    decreases j
  {
    if i < j {
      WindowKeepsCapacity(run, eid, d, i, j - 1);
      assert KeptAt(run, j - 1, eid, d);
      HistoryFollows(run, j - 1, eid, d);
    }
  }

  /** How far the books of a window are from the bound. */
  function Slack(run: Run, eid: U32, d: Direction, i: nat, j: nat): int
    requires i <= j <= |run.steps|
  {
    Accrued(run, eid, d, i, j) - Net(run, eid, d, i, j) - Level(run.states[j], eid, d)
  }

  lemma SlackGrows(run: History, eid: U32, d: Direction, i: nat, j: nat)
    requires i <= j < |run.steps|
    requires CapacityOf(run.states[j], eid, d).Some? && KeptAt(run, j, eid, d)
    ensures Slack(run, eid, d, i, j) <= Slack(run, eid, d, i, j + 1)
  {
    HistoryFollows(run, j, eid, d);
  }

  lemma {:induction false} WindowFollows(run: History, eid: U32, d: Direction, i: nat, j: nat)
    requires i <= j <= |run.steps|
    requires CapacityOf(run.states[i], eid, d).Some?
    requires forall k: nat | i <= k < j :: KeptAt(run, k, eid, d)
    ensures Slack(run, eid, d, i, i) <= Slack(run, eid, d, i, j)
    decreases j
  {
    if i < j {
      WindowFollows(run, eid, d, i, j - 1);
      WindowKeepsCapacity(run, eid, d, i, j - 1);
      assert KeptAt(run, j - 1, eid, d);
      SlackGrows(run, eid, d, i, j - 1);
    }
  }

  /** Through any peer with a limiter, in any window of any history in which the limiter's capacity is not set
      and the limiter is not removed, what passes in its direction less what passes back is at most the
      capacity plus the rate integrated over the window. */
  lemma NetFlowBound(run: History, eid: U32, d: Direction, i: nat, j: nat)
    requires i <= j <= |run.steps|
    requires CapacityOf(run.states[i], eid, d).Some?
    requires forall k: nat | i <= k < j :: KeptAt(run, k, eid, d)
    ensures Net(run, eid, d, i, j) <= CapacityOf(run.states[i], eid, d).value + Accrued(run, eid, d, i, j)
  {
    WindowFollows(run, eid, d, i, j);
    WindowKeepsCapacity(run, eid, d, i, j);
    LevelInRange(run.states[i], eid, d);
    LevelInRange(run.states[j], eid, d);
  }
}
