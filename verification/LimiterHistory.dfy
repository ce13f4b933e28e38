/** The limiters inside the bridge are the bucket of `LimiterTheory`: over any window of any history, a peer's
    limiter is what the traffic that passed makes of it, second by second. */
module LimiterHistory {
  import opened Primitives
  import opened RateLimiters
  import opened LimiterTheory
  import opened Fees
  import opened Accounts
  import opened Bridge
  import opened Invariants
  import opened NetFlow
  import SendInstruction
  import SetPeerConfig

  // ---- The calls a step makes on one limiter -----------------------------------------------------------------------

  function UpdateCalls(at: I64, p: SetPeerConfig.RateLimitParams): seq<Call> {
    (if p.capacity.Some? then [SetCapacity(at, p.capacity.value)] else [])
    + (if p.refillPerSecond.Some? then [SetRate(at, p.refillPerSecond.value)] else [])
  }

  /** What a step asks of the limiter of a peer in a direction: traffic in that direction consumes, traffic the
      other way refills, configuration sets; everything else asks nothing. */
  function StepCalls(step: Step, o: Outcome, eid: U32, d: Direction): seq<Call> {
    if o.Sent? && o.dstEid == eid then
      [if d.Outbound? then Consume(step.at, o.sent.amounts.receivedLd, true) else Refill(step.at, o.sent.amounts.receivedLd)]
    else if o.Received? && o.received.packet.srcEid == eid then
      [if d.Inbound? then Consume(step.at, o.received.amountLd, true) else Refill(step.at, o.received.amountLd)]
    else if o.Configured? && step.action.ConfigurePeer? && step.action.remoteEid == eid then
      match step.action.peerChange
      case OutboundRateLimit(p) => if d.Outbound? && p.Some? then UpdateCalls(step.at, p.value) else []
      case InboundRateLimit(p) => if d.Inbound? && p.Some? then UpdateCalls(step.at, p.value) else []
      case _ => []
    else []
  }

  /** The step does not remove the limiter; a refused attempt to remove it counts for nothing. */
  predicate KeepsLimiter(action: Action, o: Outcome, eid: U32, d: Direction) {
    o.Configured? && action.ConfigurePeer? && action.remoteEid == eid ==>
      match action.peerChange
      case OutboundRateLimit(p) => d.Outbound? ==> p.Some?
      case InboundRateLimit(p) => d.Inbound? ==> p.Some?
      case _ => true
  }

  ghost predicate AllTrue(answers: seq<bool>) {
    forall i | 0 <= i < |answers| :: answers[i]
  }

  /** `after` is what the calls make of `before`, and every call was accepted. */
  ghost predicate Ran(before: Option<Limiter>, calls: seq<Call>, after: Option<Limiter>) {
    before.Some? ==> after == Some(LazyRun(before.value, calls).final) && AllTrue(LazyRun(before.value, calls).answers)
  }

  lemma RanNothing(before: Option<Limiter>)
    ensures Ran(before, [], before)
  {
  }

  lemma RanOne(l: Limiter, c: Call)
    requires LazyCall(l, c).accepted
    ensures Ran(Some(l), [c], Some(LazyCall(l, c).after))
  {
    assert [c][1..] == [];
    assert LazyRun(LazyCall(l, c).after, []) == Tally(LazyCall(l, c).after, []);
  }

  lemma RunUnfolds(l: Limiter, calls: seq<Call>)
    requires calls != []
    ensures var step := LazyCall(l, calls[0]);
            var rest := LazyRun(step.after, calls[1..]);
            LazyRun(l, calls) == Tally(rest.final, [step.accepted] + rest.answers)
  {
  }

  lemma {:induction false} RunAppends(l: Limiter, first: seq<Call>, second: seq<Call>)
    ensures LazyRun(l, first + second).final == LazyRun(LazyRun(l, first).final, second).final
    ensures LazyRun(l, first + second).answers == LazyRun(l, first).answers + LazyRun(LazyRun(l, first).final, second).answers
    decreases |first|
  {
    if first == [] {
      assert first + second == second;
    } else {
      var all, after := first + second, LazyCall(l, first[0]).after;
      assert all[0] == first[0] && all[1..] == first[1..] + second;
      RunUnfolds(l, all);
      RunUnfolds(l, first);
      RunAppends(after, first[1..], second);
    }
  }

  lemma RanAppends(before: Option<Limiter>, first: seq<Call>, middle: Option<Limiter>, second: seq<Call>, after: Option<Limiter>)
    requires Ran(before, first, middle) && Ran(middle, second, after)
    ensures Ran(before, first + second, after)
  {
    if before.Some? { RunAppends(before.value, first, second); }
  }

  // ---- One step ------------------------------------------------------------------------------------------------------

  lemma PassRan(spend: Option<Limiter>, credit: Option<Limiter>, at: I64, amount: U64)
    requires SendInstruction.Pass(spend, credit, Seconds(at), amount).Ok?
    ensures var pair := SendInstruction.Pass(spend, credit, Seconds(at), amount).value;
            Ran(spend, [Consume(at, amount, true)], pair.spent) && Ran(credit, [Refill(at, amount)], pair.credited)
  {
    if spend.Some? { RanOne(spend.value, Consume(at, amount, true)); }
    if credit.Some? { RanOne(credit.value, Refill(at, amount)); }
  }

  lemma UpdateRan(limiter: Option<Limiter>, p: SetPeerConfig.RateLimitParams, at: I64)
    ensures Ran(limiter, UpdateCalls(at, p), SetPeerConfig.UpdatedLimiter(limiter, Some(p), Seconds(at)))
  {
    if limiter.Some? {
      var l := limiter.value;
      var resized := if p.capacity.Some? then WithCapacity(l, Seconds(at), p.capacity.value) else l;
      var resize := if p.capacity.Some? then [SetCapacity(at, p.capacity.value)] else [];
      if p.capacity.Some? { RanOne(l, SetCapacity(at, p.capacity.value)); } else { RanNothing(limiter); }
      if p.refillPerSecond.Some? { RanOne(resized, SetRate(at, p.refillPerSecond.value)); } else { RanNothing(Some(resized)); }
      RanAppends(limiter, resize, Some(resized),
                 if p.refillPerSecond.Some? then [SetRate(at, p.refillPerSecond.value)] else [],
                 SetPeerConfig.UpdatedLimiter(limiter, Some(p), Seconds(at)));
    }
  }

  lemma SendRan(env: Env, s: Chain, step: Step, eid: U32, d: Direction)
    requires step.action.Send? && s.clock == step.at
    ensures var t := Act(env, s, step.action);
            Ran(LimiterIn(s.peers, eid, d), StepCalls(step, t.outcome, eid, d), LimiterIn(t.after.peers, eid, d))
  {
    RanNothing(LimiterIn(s.peers, eid, d));
    var t := DoSend(env, s, step.action.sendAccounts, step.action.sendParams);
    if t.outcome.Sent? {
      var peer := s.peers[t.outcome.dstEid];
      PassRan(peer.outbound, peer.inbound, step.at, t.outcome.sent.amounts.receivedLd);
    }
  }

  lemma ReceiveRan(env: Env, s: Chain, step: Step, eid: U32, d: Direction)
    requires step.action.LzReceive? && s.clock == step.at
    ensures var t := Act(env, s, step.action);
            Ran(LimiterIn(s.peers, eid, d), StepCalls(step, t.outcome, eid, d), LimiterIn(t.after.peers, eid, d))
  {
    RanNothing(LimiterIn(s.peers, eid, d));
    var t := DoReceive(env, s, step.action.receiveAccounts, step.action.receiveParams);
    if t.outcome.Received? {
      var peer := s.peers[t.outcome.received.packet.srcEid];
      PassRan(peer.inbound, peer.outbound, step.at, t.outcome.received.amountLd);
    }
  }

  lemma ConfigureRan(env: Env, s: Chain, step: Step, eid: U32, d: Direction)
    requires step.action.ConfigurePeer? && s.clock == step.at
    requires KeepsLimiter(step.action, Act(env, s, step.action).outcome, eid, d)
    ensures var t := Act(env, s, step.action);
            Ran(LimiterIn(s.peers, eid, d), StepCalls(step, t.outcome, eid, d), LimiterIn(t.after.peers, eid, d))
  {
    var before := LimiterIn(s.peers, eid, d);
    RanNothing(before);
    if Act(env, s, step.action).outcome.Rejected? {
      return;
    }
    match step.action.peerChange {
      case OutboundRateLimit(p) => if p.Some? && before.Some? { UpdateRan(before, p.value, step.at); }
      case InboundRateLimit(p) => if p.Some? && before.Some? { UpdateRan(before, p.value, step.at); }
      case _ =>
    }
  }

  lemma HistoryRan(run: History, k: nat, eid: U32, d: Direction)
    requires k < |run.steps| && KeepsLimiter(run.steps[k].action, run.outcomes[k], eid, d)
    ensures Ran(LimiterIn(run.states[k].peers, eid, d), StepCalls(run.steps[k], run.outcomes[k], eid, d),
                LimiterIn(run.states[k + 1].peers, eid, d))
  {
    var step := StepAt(run, k);
    var s := run.states[k].(clock := step.at);
    if step.action.Send? {
      SendRan(run.env, s, step, eid, d);
    } else if step.action.LzReceive? {
      ReceiveRan(run.env, s, step, eid, d);
    } else if step.action.ConfigurePeer? {
      ConfigureRan(run.env, s, step, eid, d);
    } else {
      assert Act(run.env, s, step.action).after.peers == s.peers;
      RanNothing(LimiterIn(s.peers, eid, d));
    }
  }

  // ---- Windows ---------------------------------------------------------------------------------------------------------

  /** All calls that steps i .. j-1 make on the limiter. */
  function WindowCalls(run: Run, eid: U32, d: Direction, i: nat, j: nat): seq<Call>
    requires i <= j <= |run.steps|
    decreases j
  {
    if i == j then [] else WindowCalls(run, eid, d, i, j - 1) + StepCalls(run.steps[j - 1], run.outcomes[j - 1], eid, d)
  }

  ghost predicate LimiterKeptAt(run: Run, k: nat, eid: U32, d: Direction) {
    k < |run.steps| && KeepsLimiter(run.steps[k].action, run.outcomes[k], eid, d)
  }

  lemma StepRan(run: History, before: Option<Limiter>, calls: seq<Call>, k: nat, eid: U32, d: Direction)
    requires LimiterKeptAt(run, k, eid, d) && Ran(before, calls, LimiterIn(run.states[k].peers, eid, d))
    ensures Ran(before, calls + StepCalls(run.steps[k], run.outcomes[k], eid, d), LimiterIn(run.states[k + 1].peers, eid, d))
  {
    HistoryRan(run, k, eid, d);
    RanAppends(before, calls, LimiterIn(run.states[k].peers, eid, d),
               StepCalls(run.steps[k], run.outcomes[k], eid, d), LimiterIn(run.states[k + 1].peers, eid, d));
  }

  lemma {:induction false} WindowRan(run: History, eid: U32, d: Direction, i: nat, j: nat)
    requires i <= j <= |run.steps|
    requires forall k: nat | i <= k < j :: LimiterKeptAt(run, k, eid, d)
    ensures Ran(LimiterIn(run.states[i].peers, eid, d), WindowCalls(run, eid, d, i, j), LimiterIn(run.states[j].peers, eid, d))
    decreases j
  {
    if i == j {
      RanNothing(LimiterIn(run.states[i].peers, eid, d));
    } else {
      WindowRan(run, eid, d, i, j - 1);
      assert LimiterKeptAt(run, j - 1, eid, d);
      StepRan(run, LimiterIn(run.states[i].peers, eid, d), WindowCalls(run, eid, d, i, j - 1), j - 1, eid, d);
    }
  }

  /** The times of the calls do not go back and lie between `from` and `to`. */
  ghost predicate CallsWithin(calls: seq<Call>, from: nat, to: nat)
    decreases |calls|
  {
    if calls == [] then from <= to
    else from <= calls[0].Time() && CallsWithin(calls[1..], calls[0].Time(), to)
  }

  lemma {:induction false} WithinBounds(calls: seq<Call>, from: nat, to: nat)
    requires CallsWithin(calls, from, to)
    ensures from <= to && ForwardClock(from, calls)
    ensures forall i | 0 <= i < |calls| :: calls[i].Time() <= to
    decreases |calls|
  {
    if calls != [] {
      var tail := calls[1..];
      WithinBounds(tail, calls[0].Time(), to);
      forall i | 0 < i < |calls|
        ensures from <= calls[i].Time() <= to && calls[i - 1].Time() <= calls[i].Time()
      {
        assert calls[i] == tail[i - 1];
        if i > 1 { assert calls[i - 1] == tail[i - 2]; }
      }
    }
  }

  lemma {:induction false} WithinAppends(first: seq<Call>, second: seq<Call>, from: nat, middle: nat, to: nat)
    requires CallsWithin(first, from, middle) && CallsWithin(second, middle, to)
    ensures CallsWithin(first + second, from, to)
    decreases |first|
  {
    if first == [] {
      assert first + second == second;
      WithinFrom(second, from, middle, to);
    } else {
      assert (first + second)[1..] == first[1..] + second;
      WithinAppends(first[1..], second, first[0].Time(), middle, to);
    }
  }

  lemma WithinFrom(calls: seq<Call>, earlier: nat, from: nat, to: nat)
    requires CallsWithin(calls, from, to) && earlier <= from
    ensures CallsWithin(calls, earlier, to)
  {
  }

  lemma OneCallNow(c: Call, from: nat)
    requires from <= c.Time()
    ensures CallsWithin([c], from, c.Time())
  {
    assert [c][1..] == [];
  }

  lemma UpdateCallsNow(at: I64, p: SetPeerConfig.RateLimitParams, from: nat)
    requires from <= Seconds(at)
    ensures CallsWithin(UpdateCalls(at, p), from, Seconds(at))
  {
    var calls := UpdateCalls(at, p);
    if |calls| == 2 {
      OneCallNow(calls[1], Seconds(at));
      assert calls[1..] == [calls[1]];
    } else if |calls| == 1 {
      OneCallNow(calls[0], from);
      assert calls == [calls[0]];
    }
  }

  lemma StepCallsNow(step: Step, o: Outcome, eid: U32, d: Direction, from: nat)
    requires from <= Seconds(step.at)
    ensures CallsWithin(StepCalls(step, o, eid, d), from, Seconds(step.at))
  {
    var calls := StepCalls(step, o, eid, d);
    if o.Sent? || o.Received? {
      if calls != [] {
        assert calls == [calls[0]];
        OneCallNow(calls[0], from);
      }
    } else if calls != [] {
      match step.action.peerChange {
        case OutboundRateLimit(p) => UpdateCallsNow(step.at, p.value, from);
        case InboundRateLimit(p) => UpdateCallsNow(step.at, p.value, from);
        case _ =>
      }
    }
  }

  lemma HistoryCallsWithin(run: History, k: nat, eid: U32, d: Direction)
    requires k < |run.steps|
    ensures CallsWithin(StepCalls(run.steps[k], run.outcomes[k], eid, d), Now(run.states[k]), Now(run.states[k + 1]))
  {
    var step := StepAt(run, k);
    ClockFollows(run.env, run.states[k], step);
    StepCallsNow(step, run.outcomes[k], eid, d, Now(run.states[k]));
  }

  lemma NoCallsYet(run: Run, eid: U32, d: Direction, i: nat)
    requires i <= |run.steps|
    ensures CallsWithin(WindowCalls(run, eid, d, i, i), Now(run.states[i]), Now(run.states[i]))
  {
  }

  lemma StepCallsExtend(run: History, calls: seq<Call>, from: nat, k: nat, eid: U32, d: Direction, extended: seq<Call>)
    requires k < |run.steps| && CallsWithin(calls, from, Now(run.states[k]))
    requires extended == calls + StepCalls(run.steps[k], run.outcomes[k], eid, d)
    ensures CallsWithin(extended, from, Now(run.states[k + 1]))
  {
    HistoryCallsWithin(run, k, eid, d);
    WithinAppends(calls, StepCalls(run.steps[k], run.outcomes[k], eid, d), from, Now(run.states[k]), Now(run.states[k + 1]));
  }

  lemma WindowCallsExtend(run: History, eid: U32, d: Direction, i: nat, j: nat)
    requires i < j <= |run.steps| && CallsWithin(WindowCalls(run, eid, d, i, j - 1), Now(run.states[i]), Now(run.states[j - 1]))
    ensures CallsWithin(WindowCalls(run, eid, d, i, j), Now(run.states[i]), Now(run.states[j]))
  {
    StepCallsExtend(run, WindowCalls(run, eid, d, i, j - 1), Now(run.states[i]), j - 1, eid, d, WindowCalls(run, eid, d, i, j));
  }

  lemma {:induction false} WindowCallsWithin(run: History, eid: U32, d: Direction, i: nat, j: nat)
    requires i <= j <= |run.steps|
    ensures CallsWithin(WindowCalls(run, eid, d, i, j), Now(run.states[i]), Now(run.states[j]))
    decreases j
  {
    if i == j {
      NoCallsYet(run, eid, d, i);
    } else {
      WindowCallsWithin(run, eid, d, i, j - 1);
      WindowCallsExtend(run, eid, d, i, j);
    }
  }

  /** The bucket a limiter stands for. */
  function BucketOf(l: Limiter): Bucket {
    Bucket(l.capacity, l.tokens, l.refillPerSecond, l.lastRefillTime)
  }

  lemma {:induction false} TickingNow(b: Bucket, calls: seq<Call>, to: nat)
    requires CallsWithin(calls, b.now, to) && b.level <= b.capacity
    ensures TickingRun(b, calls).final.now <= to
    decreases |calls|
  {
    if calls != [] {
      TicksAccumulate(b, calls[0].Time());
      TickingNow(TickingCall(b, calls[0]).after, calls[1..], to);
    }
  }

  /** Over any window of any history in which a peer's limiter is not removed, what could pass it at any time
      from the end of the window on, until it is next used, is exactly the level of the bucket that ticked once
      a second and saw exactly the traffic and the configuration that went through, every consumption accepted. */
  lemma LimiterIsBucket(run: History, eid: U32, d: Direction, i: nat, j: nat, t: nat)
    requires i <= j <= |run.steps| && Now(run.states[j]) <= t
    requires LimiterIn(run.states[i].peers, eid, d).Some?
    requires forall k: nat | i <= k < j :: LimiterKeptAt(run, k, eid, d)
    ensures var ticked := TickingRun(BucketOf(LimiterIn(run.states[i].peers, eid, d).value), WindowCalls(run, eid, d, i, j));
            var m := LimiterIn(run.states[j].peers, eid, d);
            && AllTrue(ticked.answers)
            && m.Some? && m.value.lastRefillTime <= t
            && Available(m.value, t) == TickUntil(ticked.final, t).level
  {
    var l := LimiterIn(run.states[i].peers, eid, d).value;
    var b, calls := BucketOf(l), WindowCalls(run, eid, d, i, j);
    ReachableConfiguration(run, i, eid);
    WindowRan(run, eid, d, i, j);
    WindowCallsWithin(run, eid, d, i, j);
    WithinFrom(calls, b.now, Now(run.states[i]), Now(run.states[j]));
    WithinBounds(calls, b.now, Now(run.states[j]));
    StartsRepresented(l);
    RunsRefine(l, b, calls);
    TickingNow(b, calls, Now(run.states[j]));
    RepresentsLater(LazyRun(l, calls).final, TickingRun(b, calls).final, t);
  }
}
