/** The life of a peer's limiter in a history: a write of limits installs it, from then on it is a ticking bucket,
    a write of no limits removes it. */
module LimiterLife {
  import opened Primitives
  import opened RateLimiters
  import opened LimiterTheory
  import opened Accounts
  import opened Bridge
  import opened Invariants
  import opened NetFlow
  import opened LimiterHistory
  import Configuration
  import SetPeerConfig

  /** The limits that an action writes for a peer in a direction, if it writes any: `Some(None)` removes them. */
  function LimitsWritten(action: Action, eid: U32, d: Direction): Option<Option<SetPeerConfig.RateLimitParams>> {
    match action
    case ConfigurePeer(_, remoteEid, OutboundRateLimit(limits)) =>
      if remoteEid == eid && d.Outbound? then Some(limits) else None
    case ConfigurePeer(_, remoteEid, InboundRateLimit(limits)) =>
      if remoteEid == eid && d.Inbound? then Some(limits) else None
    case _ => None
  }

  /** The bucket that first limits make: full, of the capacity given or 0, filling at the rate given or 0, from
      the time of the write, or from 0 when neither was given. */
  function NewBucket(at: I64, p: SetPeerConfig.RateLimitParams): Bucket {
    var capacity := p.capacity.GetOr(0);
    Bucket(capacity, capacity, p.refillPerSecond.GetOr(0),
           if (p.capacity.Some? || p.refillPerSecond.Some?) && at >= 0 then at else 0)
  }

  lemma FirstLimits(p: SetPeerConfig.RateLimitParams, at: I64)
    ensures var l := SetPeerConfig.UpdatedLimiter(None, Some(p), Seconds(at));
            l.Some? && BucketOf(l.value) == NewBucket(at, p)
  {
  }

  /** Step k gave the peer a limiter that had none. */
  ghost predicate InstallsAt(run: Run, k: nat, eid: U32, d: Direction) {
    && k < |run.steps| && run.outcomes[k].Configured?
    && LimiterIn(run.states[k].peers, eid, d).None?
    && LimitsWritten(run.steps[k].action, eid, d).Some? && LimitsWritten(run.steps[k].action, eid, d).value.Some?
  }

  lemma ConfigureInstalls(s: Chain, authority: Pubkey, remoteEid: U32, change: SetPeerConfig.PeerChange, eid: U32, d: Direction)
    requires DoConfigurePeer(s, authority, remoteEid, change).outcome.Configured? && LimiterIn(s.peers, eid, d).None?
    requires var limits := LimitsWritten(ConfigurePeer(authority, remoteEid, change), eid, d); limits.Some? && limits.value.Some?
    ensures var l := LimiterIn(DoConfigurePeer(s, authority, remoteEid, change).after.peers, eid, d);
            l.Some? && BucketOf(l.value)
                       == NewBucket(s.clock, LimitsWritten(ConfigurePeer(authority, remoteEid, change), eid, d).value.value)
  {
    FirstLimits(LimitsWritten(ConfigurePeer(authority, remoteEid, change), eid, d).value.value, s.clock);
  }

  lemma RunInstalls(run: Run, k: nat, eid: U32, d: Direction)
    requires InstallsAt(run, k, eid, d)
    ensures var l := LimiterIn(run.states[k + 1].peers, eid, d);
            l.Some? && BucketOf(l.value) == NewBucket(run.steps[k].at, LimitsWritten(run.steps[k].action, eid, d).value.value)
  {
    var step := StepAt(run, k);
    ConfigureInstalls(run.states[k].(clock := step.at), step.action.authority, step.action.remoteEid,
                      step.action.peerChange, eid, d);
  }

  /** A limiter appears only by installation, and disappears only by removal. */
  lemma LimiterComesAndGoes(run: Run, k: nat, eid: U32, d: Direction)
    requires k < |run.steps| && LimiterIn(run.states[k + 1].peers, eid, d).Some?
    ensures if LimiterIn(run.states[k].peers, eid, d).None? then InstallsAt(run, k, eid, d) else LimiterKeptAt(run, k, eid, d)
  {
    Configuration.RunWrites(run, k, Configuration.HasLimiter(eid, d));
  }

  /** Every limiter in a history was installed by some step and not removed since. */
  lemma {:induction false} WasInstalled(run: History, eid: U32, d: Direction, j: nat) returns (i: nat)
    requires j <= |run.steps| && LimiterIn(run.states[j].peers, eid, d).Some?
    ensures i < j && InstallsAt(run, i, eid, d)
    ensures forall k: nat | i < k < j :: LimiterKeptAt(run, k, eid, d)
    decreases j
  {
    i := 0;
    if j == 0 {
      assert false;
    } else {
      LimiterComesAndGoes(run, j - 1, eid, d);
      if LimiterIn(run.states[j - 1].peers, eid, d).None? {
        i := j - 1;
      } else {
        i := WasInstalled(run, eid, d, j - 1);
      }
    }
  }

  /** What may pass a peer's limiter follows from the history alone: it is the level of a bucket that the
      installing step made, that ticked once a second since, and that saw exactly the traffic and the changes of
      limits that went through, every consumption accepted. */
  lemma LimiterIsBucketSinceInstalled(run: History, eid: U32, d: Direction, j: nat, t: nat) returns (i: nat)
    requires j <= |run.steps| && Now(run.states[j]) <= t && LimiterIn(run.states[j].peers, eid, d).Some?
    ensures i < j && InstallsAt(run, i, eid, d)
    ensures var made := NewBucket(run.steps[i].at, LimitsWritten(run.steps[i].action, eid, d).value.value);
            var ticked := TickingRun(made, WindowCalls(run, eid, d, i + 1, j));
            var l := LimiterIn(run.states[j].peers, eid, d).value;
            && AllTrue(ticked.answers) && l.lastRefillTime <= t
            && Available(l, t) == TickUntil(ticked.final, t).level
  {
    i := WasInstalled(run, eid, d, j);
    RunInstalls(run, i, eid, d);
    LimiterIsBucket(run, eid, d, i + 1, j, t);
  }
}
