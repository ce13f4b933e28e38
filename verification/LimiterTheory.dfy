/** What the rate limiter means: it is a bucket over unbounded integers that ticks once a second,
    its level has an exact closed form over any history of traffic, and its answers are predictable. */
module LimiterTheory {
  import opened Primitives
  import opened Arithmetic
  import opened RateLimiters

  ghost predicate Bounded(l: Limiter) {
    l.tokens <= l.capacity
  }

  // ---- One refill, without the saturation ----------------------------------------------------

  /** The tokens a consumer could find at time `t`, in unbounded integers. */
  function Available(l: Limiter, t: int): int
    requires l.lastRefillTime <= t
  {
    Min(l.capacity, l.tokens + l.refillPerSecond * (t - l.lastRefillTime))
  }

  /** Every saturation in `refill` is absorbed by the capacity. */
  lemma RefillIsExact(l: Limiter, now: U64, extra: U64)
    requires l.lastRefillTime <= now
    ensures Refilled(l, now, extra).tokens
         == Min(l.capacity, l.tokens + l.refillPerSecond * (now - l.lastRefillTime) + extra)
  {
    var elapsed := now - l.lastRefillTime;
    var earned := l.refillPerSecond * elapsed;
    assert earned == elapsed * l.refillPerSecond;
    MulMonotone(0, elapsed, l.refillPerSecond);
  }

  lemma AvailableAdvances(l: Limiter, t: int, u: int)
    requires l.lastRefillTime <= t <= u
    ensures Available(l, u) == Min(l.capacity, Available(l, t) + l.refillPerSecond * (u - t))
  {
    var r, a, b := l.refillPerSecond, t - l.lastRefillTime, u - t;
    assert r * (a + b) == r * a + r * b;
    MulMonotone(0, b, r);
  }

  /** Every operation leaves at most `capacity` tokens, whatever the clock does. */
  lemma EveryOperationBounds(l: Limiter, now: U64, x: U64)
    ensures Bounded(Refilled(l, now, x))
    ensures Bounded(Consumed(l, now, x).after)
    ensures Bounded(WithRate(l, now, x))
    ensures Bounded(WithCapacity(l, now, x))
  {
  }

  /** `try_consume` answers by the unbounded level, and takes exactly `amount` when it accepts. */
  lemma ConsumeIsExact(l: Limiter, now: U64, amount: U64)
    requires l.lastRefillTime <= now
    ensures Consumed(l, now, amount).accepted <==> amount <= Available(l, now)
    ensures Available(Consumed(l, now, amount).after, now)
         == Available(l, now) - (if amount <= Available(l, now) then amount else 0)
  {
    RefillIsExact(l, now, 0);
    MulMonotone(0, now - l.lastRefillTime, l.refillPerSecond);
  }

  // ---- Splitting an idle interval ----------------------------------------------------------------

  /** The seconds a refill at `to` credits a limiter last touched at `from`. */
  function Elapsed(from: int, to: int): nat {
    if to > from then to - from else 0
  }

  lemma RefillAnyClock(l: Limiter, now: U64)
    ensures Refilled(l, now, 0).tokens
         == Min(l.capacity, l.tokens + l.refillPerSecond * Elapsed(l.lastRefillTime, now))
  {
    if now >= l.lastRefillTime {
      RefillIsExact(l, now, 0);
    } else {
      assert l.refillPerSecond * 0 == 0;
    }
  }

  lemma SplitTokens(l: Limiter, mid: U64, now: U64)
    requires Bounded(l)
    ensures Refilled(Refilled(l, mid, 0), now, 0).tokens
         == Min(l.capacity, l.tokens + l.refillPerSecond * (Elapsed(l.lastRefillTime, mid) + Elapsed(mid, now)))
  {
    var first, second := Elapsed(l.lastRefillTime, mid), Elapsed(mid, now);
    var gain, more := l.refillPerSecond * first, l.refillPerSecond * second;
    assert 0 <= gain && 0 <= more by {
      MulMonotone(0, first, l.refillPerSecond);
      MulMonotone(0, second, l.refillPerSecond);
    }
    var split := Refilled(l, mid, 0);
    assert split.tokens == Min(l.capacity, l.tokens + gain) by { RefillAnyClock(l, mid); }
    assert Refilled(split, now, 0).tokens == Min(l.capacity, split.tokens + more) by { RefillAnyClock(split, now); }
    Distribute(l.refillPerSecond, first, second);
  }

  lemma CappedGainsDiffer(cap: int, level: int, r: nat, more: nat, less: nat)
    requires level <= cap && less <= more
    ensures Min(cap, level + r * more) == Min(cap, level + r * less)
       <==> more == less || r == 0 || cap <= level + r * less
  {
    if less < more && r > 0 {
      MulMonotone(less + 1, more, r);
      assert r * (less + 1) == r * less + r;
    } else if r == 0 {
      assert r * more == 0 == r * less;
    }
  }

  /** Refilling at `mid` on the way to `now` changes nothing exactly when the clock did not turn round
      between the last refill, `mid` and `now`, or when there is nothing to gain. A clock that goes back
      moves `last_refill_time` back and the same seconds are credited twice. */
  lemma SplitIdleExact(l: Limiter, mid: U64, now: U64)
    requires Bounded(l)
    ensures Refilled(Refilled(l, mid, 0), now, 0) == Refilled(l, now, 0)
       <==> || l.lastRefillTime <= mid <= now
            || now <= mid <= l.lastRefillTime
            || l.refillPerSecond == 0
            || l.capacity <= l.tokens + l.refillPerSecond * Elapsed(l.lastRefillTime, now)
  {
    var twice := Elapsed(l.lastRefillTime, mid) + Elapsed(mid, now);
    SplitTokens(l, mid, now);
    RefillAnyClock(l, now);
    CappedGainsDiffer(l.capacity, l.tokens, l.refillPerSecond, twice, Elapsed(l.lastRefillTime, now));
  }

  /** A clock that steps back from 10 to 4 and returns credits six seconds that had been credited before. */
  lemma BackwardClockCreditsTwice()
    ensures var l := Limiter(100, 0, 1, 10);
            Refilled(l, 10, 0).tokens == 0 && Refilled(Refilled(l, 4, 0), 10, 0).tokens == 6
  {
  }

  function RefilledAtEach(l: Limiter, times: seq<U64>): Limiter
    decreases |times|
  {
    if times == [] then l else RefilledAtEach(Refilled(l, times[0], 0), times[1..])
  }

  /** Any number of idle refills on a forward clock amounts to the last one alone. */
  lemma {:induction false} IdleRefillsCollapse(l: Limiter, times: seq<U64>)
    requires Bounded(l) && times != []
    requires l.lastRefillTime <= times[0]
    requires forall i, j | 0 <= i <= j < |times| :: times[i] <= times[j]
    ensures RefilledAtEach(l, times) == Refilled(l, times[|times| - 1], 0)
    decreases |times|
  {
    var next := Refilled(l, times[0], 0);
    if |times| > 1 {
      IdleRefillsCollapse(next, times[1..]);
      SplitIdleExact(l, times[0], times[|times| - 1]);
    } else {
      assert RefilledAtEach(next, times[1..]) == next;
    }
  }

  /** The level at a clock reading, given `extra` tokens: one second a second counts since the last refill, at the
      rate, up to the capacity. */
  function LevelAtClock(l: Limiter, at: I64, extra: U64): U64 {
    var now := if at < 0 then 0 else at;
    var elapsed := if now > l.lastRefillTime then now - l.lastRefillTime else 0;
    MulMonotone(0, elapsed, l.refillPerSecond);
    Min(l.capacity, l.tokens + l.refillPerSecond * elapsed + extra)
  }

  lemma RefillsOnAnyClock(l: Limiter, at: I64, extra: U64)
    ensures Refilled(l, UnixSeconds(at), extra)
         == Limiter(l.capacity, LevelAtClock(l, at, extra), l.refillPerSecond, if at < 0 then 0 else at)
  {
    if UnixSeconds(at) > l.lastRefillTime {
      RefillIsExact(l, UnixSeconds(at), extra);
    } else {
      assert l.refillPerSecond * 0 == 0;
    }
  }

  /** Each method in unbounded integers, on any clock: it starts from the level at the clock's reading, which
      becomes the limiter's time. */
  lemma OnAnyClock(l: Limiter, at: I64, x: U64)
    ensures var now, level := if at < 0 then 0 else at, LevelAtClock(l, at, 0);
            && Refilled(l, UnixSeconds(at), x) == Limiter(l.capacity, LevelAtClock(l, at, x), l.refillPerSecond, now)
            && Consumed(l, UnixSeconds(at), x)
               == (if x <= level then Attempt(Limiter(l.capacity, level - x, l.refillPerSecond, now), true)
                   else Attempt(Limiter(l.capacity, level, l.refillPerSecond, now), false))
            && WithRate(l, UnixSeconds(at), x) == Limiter(l.capacity, level, x, now)
            && WithCapacity(l, UnixSeconds(at), x) == Limiter(x, x, l.refillPerSecond, now)
  {
    RefillsOnAnyClock(l, at, x);
    RefillsOnAnyClock(l, at, 0);
  }

  // ---- The bucket that ticks once a second --------------------------------------------------------

  datatype Bucket = Bucket(capacity: nat, level: nat, rate: nat, now: nat)

  function Tick(b: Bucket): Bucket {
    b.(level := Min(b.capacity, b.level + b.rate), now := b.now + 1)
  }

  function TickUntil(b: Bucket, t: nat): Bucket
    decreases t - b.now
  {
    if t <= b.now then b else TickUntil(Tick(b), t)
  }

  /** A call on the limiter at a clock reading. A rejected `Consume` fails its transaction, which either
      keeps the in-memory refill (no rollback) or discards it (`rolledBack`). */
  datatype Call =
    | Refill(at: I64, extra: U64)
    | Consume(at: I64, amount: U64, rolledBack: bool)
    | SetRate(at: I64, rate: U64)
    | SetCapacity(at: I64, capacity: U64)
  {
    function Time(): U64 {
      if at < 0 then 0 else at
    }
  }

  /** One call on the program's limiter; the answer is false only for a rejected `Consume`. */
  function LazyCall(l: Limiter, c: Call): Attempt {
    match c
    case Refill(_, extra) => Attempt(Refilled(l, UnixSeconds(c.at), extra), true)
    case Consume(_, amount, rolledBack) =>
      var attempt := Consumed(l, UnixSeconds(c.at), amount);
      if !attempt.accepted && rolledBack then attempt.(after := l) else attempt
    case SetRate(_, rate) => Attempt(WithRate(l, UnixSeconds(c.at), rate), true)
    case SetCapacity(_, capacity) => Attempt(WithCapacity(l, UnixSeconds(c.at), capacity), true)
  }

  datatype BucketAttempt = BucketAttempt(after: Bucket, accepted: bool)

  /** The same call on the ticking bucket, in unbounded integers. */
  function TickingCall(b: Bucket, c: Call): BucketAttempt {
    var ticked := TickUntil(b, c.Time());
    match c
    case Refill(_, extra) => BucketAttempt(ticked.(level := Min(ticked.capacity, ticked.level + extra)), true)
    case Consume(_, amount, _) =>
      if amount <= ticked.level
      then BucketAttempt(ticked.(level := ticked.level - amount), true)
      else BucketAttempt(ticked, false)
    case SetRate(_, rate) => BucketAttempt(ticked.(rate := rate), true)
    case SetCapacity(_, capacity) => BucketAttempt(ticked.(capacity := capacity, level := capacity), true)
  }

  lemma {:induction false} TicksAccumulate(b: Bucket, t: nat)
    requires b.level <= b.capacity && b.now <= t
    ensures TickUntil(b, t) == b.(level := Min(b.capacity, b.level + b.rate * (t - b.now)), now := t)
    decreases t - b.now
  {
    if b.now < t {
      TicksAccumulate(Tick(b), t);
      assert b.rate * (t - b.now) == b.rate * (t - b.now - 1) + b.rate;
      MulMonotone(0, t - b.now - 1, b.rate);
    }
  }

  /** The lazy limiter and the ticking bucket agree on everything a consumer can see. */
  ghost predicate Represents(l: Limiter, b: Bucket) {
    && Bounded(l)
    && l.lastRefillTime <= b.now
    && b.capacity == l.capacity
    && b.rate == l.refillPerSecond
    && b.level == Available(l, b.now)
  }

  /** Every bounded limiter starts out as the bucket with its own numbers. */
  lemma StartsRepresented(l: Limiter)
    requires Bounded(l)
    ensures Represents(l, Bucket(l.capacity, l.tokens, l.refillPerSecond, l.lastRefillTime))
  {
    JustTouched(l);
  }

  lemma RepresentsLater(l: Limiter, b: Bucket, t: nat)
    requires Represents(l, b) && b.now <= t
    ensures Represents(l, TickUntil(b, t)) && TickUntil(b, t).now == t
  {
    TicksAccumulate(b, t);
    AvailableAdvances(l, b.now, t);
    MulMonotone(0, t - l.lastRefillTime, l.refillPerSecond);
  }

  lemma CallRefines(l: Limiter, b: Bucket, c: Call)
    requires Represents(l, b) && b.now <= c.Time()
    ensures LazyCall(l, c).accepted == TickingCall(b, c).accepted
    ensures Represents(LazyCall(l, c).after, TickingCall(b, c).after)
    ensures TickingCall(b, c).after.now == c.Time()
  {
    RepresentsLater(l, b, c.Time());
    RefillIsExact(l, c.Time(), if c.Refill? then c.extra else 0);
    JustTouched(LazyCall(l, c).after);
    if c.Consume? {
      ConsumeIsExact(l, c.Time(), c.amount);
    } else {
      MulMonotone(0, c.Time() - l.lastRefillTime, l.refillPerSecond);
    }
  }

  lemma JustTouched(l: Limiter)
    ensures Available(l, l.lastRefillTime) == Min(l.capacity, l.tokens)
  {
    assert l.refillPerSecond * 0 == 0;
  }

  datatype Tally<T> = Tally(final: T, answers: seq<bool>)

  function LazyRun(l: Limiter, calls: seq<Call>): Tally<Limiter>
    decreases |calls|
  {
    if calls == [] then Tally(l, [])
    else
      var first := LazyCall(l, calls[0]);
      var rest := LazyRun(first.after, calls[1..]);
      Tally(rest.final, [first.accepted] + rest.answers)
  }

  function TickingRun(b: Bucket, calls: seq<Call>): Tally<Bucket>
    decreases |calls|
  {
    if calls == [] then Tally(b, [])
    else
      var first := TickingCall(b, calls[0]);
      var rest := TickingRun(first.after, calls[1..]);
      Tally(rest.final, [first.accepted] + rest.answers)
  }

  ghost predicate ForwardClock(from: nat, calls: seq<Call>) {
    forall i | 0 <= i < |calls| :: from <= calls[i].Time() && (i > 0 ==> calls[i - 1].Time() <= calls[i].Time())
  }

  lemma ForwardTail(from: nat, calls: seq<Call>)
    requires ForwardClock(from, calls) && calls != []
    ensures from <= calls[0].Time() && ForwardClock(calls[0].Time(), calls[1..])
  {
    var from', tail := calls[0].Time(), calls[1..];
    forall i | 0 <= i < |tail|
      ensures from' <= tail[i].Time() && (i > 0 ==> tail[i - 1].Time() <= tail[i].Time())
    {
      assert tail[i] == calls[i + 1];
      TimesOrdered(from, calls, 0, i + 1);
    }
  }

  lemma {:induction false} TimesOrdered(from: nat, calls: seq<Call>, i: nat, j: nat)
    requires ForwardClock(from, calls) && i <= j < |calls|
    ensures calls[i].Time() <= calls[j].Time()
    decreases j
  {
    if i < j { TimesOrdered(from, calls, i, j - 1); }
  }

  lemma {:induction false} RunsRefine(l: Limiter, b: Bucket, calls: seq<Call>)
    requires Represents(l, b) && ForwardClock(b.now, calls)
    ensures LazyRun(l, calls).answers == TickingRun(b, calls).answers
    ensures Represents(LazyRun(l, calls).final, TickingRun(b, calls).final)
    decreases |calls|
  {
    if calls != [] {
      ForwardTail(b.now, calls);
      CallRefines(l, b, calls[0]);
      RunsRefine(LazyCall(l, calls[0]).after, TickingCall(b, calls[0]).after, calls[1..]);
    }
  }

  /** The lazy saturating limiter refines the ticking bucket: over any schedule of calls on a forward
      clock both give the same answers, and a refill at any later time finds the bucket's level. */
  lemma LazyRefinesTicking(l: Limiter, b: Bucket, calls: seq<Call>, t: U64)
    requires Represents(l, b) && ForwardClock(b.now, calls)
    requires TickingRun(b, calls).final.now <= t
    ensures LazyRun(l, calls).answers == TickingRun(b, calls).answers
    ensures Refilled(LazyRun(l, calls).final, t, 0).tokens == TickUntil(TickingRun(b, calls).final, t).level
  {
    RunsRefine(l, b, calls);
    RepresentsLater(LazyRun(l, calls).final, TickingRun(b, calls).final, t);
    RefillIsExact(LazyRun(l, calls).final, t, 0);
  }

  // ---- Closed form over a history of traffic -------------------------------------------------------

  /** `ls[i+1]` is the limiter after call `i`; every call is a refill or an attempt to consume. */
  ghost predicate IsTraffic(ls: seq<Limiter>, cs: seq<Call>) {
    && |ls| == |cs| + 1
    && Bounded(ls[0])
    && ForwardClock(ls[0].lastRefillTime, cs)
    && forall i | 0 <= i < |cs| :: (cs[i].Refill? || cs[i].Consume?) && ls[i + 1] == LazyCall(ls[i], cs[i]).after
  }

  /** When the limiter was last touched: the initial refill time, or the time of call `k - 1`. */
  function TouchTime(ls: seq<Limiter>, cs: seq<Call>, k: nat): nat
    requires |ls| == |cs| + 1 && k <= |cs|
  {
    if k == 0 then ls[0].lastRefillTime else cs[k - 1].Time()
  }

  /** What a call takes out: the amount if it was accepted. */
  function Taken(l: Limiter, c: Call): nat {
    if c.Consume? && LazyCall(l, c).accepted then c.amount else 0
  }

  function Given(c: Call): nat {
    if c.Refill? then c.extra else 0
  }

  /** All that calls k .. n-1 gave minus all they took. */
  function NetGiven(ls: seq<Limiter>, cs: seq<Call>, k: nat, n: nat): int
    requires |ls| == |cs| + 1 && k <= n <= |cs|
    decreases n
  {
    if k == n then 0
    else NetGiven(ls, cs, k, n - 1) + Given(cs[n - 1]) - Taken(ls[n - 1], cs[n - 1])
  }

  /** The level a window starting at point k allows at time t: the initial tokens, or a full bucket less
      what call k - 1 took; plus everything accrued and given since, less everything taken since. */
  function WindowLevel(ls: seq<Limiter>, cs: seq<Call>, k: nat, n: nat, t: int): int
    requires |ls| == |cs| + 1 && k <= n <= |cs|
  {
    (if k == 0 then ls[0].tokens else ls[0].capacity - Taken(ls[k - 1], cs[k - 1]))
    + ls[0].refillPerSecond * (t - TouchTime(ls, cs, k))
    + NetGiven(ls, cs, k, n)
  }

  lemma TrafficStep(l: Limiter, c: Call, t: int)
    requires Bounded(l) && (c.Refill? || c.Consume?) && l.lastRefillTime <= c.Time() <= t
    ensures var after := LazyCall(l, c).after;
            && Bounded(after) && after.lastRefillTime <= c.Time()
            && after.capacity == l.capacity && after.refillPerSecond == l.refillPerSecond
            && Available(after, t)
               == Min(l.capacity, Min(l.capacity, Available(l, c.Time()) + Given(c)) - Taken(l, c)
                                  + l.refillPerSecond * (t - c.Time()))
  {
    RefillIsExact(l, c.Time(), Given(c));
    ConsumeIsExact(l, c.Time(), if c.Consume? then c.amount else 0);
    AvailableAdvances(LazyCall(l, c).after, c.Time(), t);
    MulMonotone(0, c.Time() - l.lastRefillTime, l.refillPerSecond);
  }

  lemma {:induction false} TrafficKeepsShape(ls: seq<Limiter>, cs: seq<Call>, n: nat)
    requires IsTraffic(ls, cs) && n <= |cs|
    ensures Bounded(ls[n]) && ls[n].lastRefillTime <= TouchTime(ls, cs, n)
    ensures ls[n].capacity == ls[0].capacity && ls[n].refillPerSecond == ls[0].refillPerSecond
  {
    if n > 0 {
      TrafficKeepsShape(ls, cs, n - 1);
      TrafficStep(ls[n - 1], cs[n - 1], cs[n - 1].Time());
    }
  }

  lemma WindowExtends(ls: seq<Limiter>, cs: seq<Call>, k: nat, n: nat, t: int)
    requires IsTraffic(ls, cs) && k < n <= |cs|
    ensures WindowLevel(ls, cs, k, n, t)
         == WindowLevel(ls, cs, k, n - 1, cs[n - 1].Time()) + Given(cs[n - 1]) - Taken(ls[n - 1], cs[n - 1])
            + ls[0].refillPerSecond * (t - cs[n - 1].Time())
  {
    var r, touched, last := ls[0].refillPerSecond, TouchTime(ls, cs, k), cs[n - 1].Time();
    assert r * (t - touched) == r * (last - touched) + r * (t - last);
  }

  /** What could be consumed after n calls is the least window level or the capacity; `tight` names the window
      that attains it, with n + 1 for the capacity itself. */
  lemma {:induction false} ClosedForm(ls: seq<Limiter>, cs: seq<Call>, n: nat, t: int) returns (tight: nat)
    requires IsTraffic(ls, cs) && n <= |cs| && TouchTime(ls, cs, n) <= t
    ensures ls[n].lastRefillTime <= t
    ensures Available(ls[n], t) <= ls[0].capacity
    ensures forall k: nat | k <= n :: Available(ls[n], t) <= WindowLevel(ls, cs, k, n, t)
    ensures tight <= n + 1
    ensures Available(ls[n], t) == if tight <= n then WindowLevel(ls, cs, tight, n, t) else ls[0].capacity
    decreases n
  {
    TrafficKeepsShape(ls, cs, n);
    if n == 0 {
      tight := if Available(ls[0], t) == ls[0].capacity then 1 else 0;
      return;
    }
    var c, l, last := cs[n - 1], ls[n - 1], cs[n - 1].Time();
    var r, cap := ls[0].refillPerSecond, ls[0].capacity;
    TrafficKeepsShape(ls, cs, n - 1);
    var before := ClosedForm(ls, cs, n - 1, last);
    TrafficStep(l, c, t);
    MulMonotone(0, t - last, r);
    assert NetGiven(ls, cs, n, n) == 0;
    forall k: nat | k < n
      ensures Available(ls[n], t) <= WindowLevel(ls, cs, k, n, t)
    {
      WindowExtends(ls, cs, k, n, t);
    }
    if Available(ls[n], t) == cap {
      tight := n + 1;
    } else if cap <= Available(l, last) + Given(c) {
      tight := n;
    } else {
      tight := before;
      WindowExtends(ls, cs, before, n, t);
    }
  }

  /** An attempt to consume is rejected exactly when the amount exceeds the capacity or some window is exhausted. */
  lemma RejectionMeansExhaustion(ls: seq<Limiter>, cs: seq<Call>, now: U64, amount: U64)
    requires IsTraffic(ls, cs) && TouchTime(ls, cs, |cs|) <= now
    ensures !Consumed(ls[|cs|], now, amount).accepted
       <==> || amount > ls[0].capacity
            || exists k: nat | k <= |cs| :: WindowLevel(ls, cs, k, |cs|, now) < amount
  {
    var tight := ClosedForm(ls, cs, |cs|, now);
    ConsumeIsExact(ls[|cs|], now, amount);
    if Available(ls[|cs|], now) < amount && tight <= |cs| {
      assert WindowLevel(ls, cs, tight, |cs|, now) < amount;
    }
  }

  /** `tokens` itself: after any call that is not undone by a rollback, it is the least of the window levels at
      the time of that call, one for each point of the history. */
  lemma TokensAreLeastWindow(ls: seq<Limiter>, cs: seq<Call>, n: nat, t: int) returns (tight: nat)
    requires IsTraffic(ls, cs) && 0 < n <= |cs| && t == cs[n - 1].Time()
    requires cs[n - 1].Consume? && cs[n - 1].rolledBack ==> LazyCall(ls[n - 1], cs[n - 1]).accepted
    ensures forall k: nat | k <= n :: ls[n].tokens <= WindowLevel(ls, cs, k, n, t)
    ensures tight <= n && ls[n].tokens == WindowLevel(ls, cs, tight, n, t)
  {
    TrafficKeepsShape(ls, cs, n);
    tight := ClosedForm(ls, cs, n, t);
    JustTouched(ls[n]);
    if tight == n + 1 {
      assert ls[0].refillPerSecond * (t - TouchTime(ls, cs, n)) == 0;
      tight := n;
    }
  }

  // ---- Progress --------------------------------------------------------------------------------------

  lemma CeilGalois(n: nat, d: nat, x: nat)
    requires 0 < d
    ensures CeilDiv(n, d) <= x <==> n <= d * x
  {
    CeilBounds(n, d);
    if CeilDiv(n, d) <= x {
      MulMonotone(CeilDiv(n, d), x, d);
    } else {
      MulMonotone(x + 1, CeilDiv(n, d), d);
      assert d * (x + 1) == d * x + d;
    }
  }

  /** With a positive rate an amount within capacity is accepted exactly once the missing tokens, divided
      by the rate and rounded up, have elapsed without traffic. */
  lemma WaitingTime(l: Limiter, now: U64, amount: U64)
    requires Bounded(l) && l.lastRefillTime <= now && l.refillPerSecond > 0
    ensures Consumed(l, now, amount).accepted
       <==> && amount <= l.capacity
            && CeilDiv(if amount <= l.tokens then 0 else amount - l.tokens, l.refillPerSecond) <= now - l.lastRefillTime
  {
    ConsumeIsExact(l, now, amount);
    CeilGalois(if amount <= l.tokens then 0 else amount - l.tokens, l.refillPerSecond, now - l.lastRefillTime);
    MulMonotone(0, now - l.lastRefillTime, l.refillPerSecond);
  }

  /** No call of the schedule takes anything or sets anything: refills of any size and rejected attempts. */
  ghost predicate NothingConsumed(l: Limiter, calls: seq<Call>)
    decreases |calls|
  {
    calls != [] ==>
      && (calls[0].Refill? || (calls[0].Consume? && !LazyCall(l, calls[0]).accepted))
      && NothingConsumed(LazyCall(l, calls[0]).after, calls[1..])
  }

  /** While nothing is consumed, what could be consumed at a given time only grows. */
  lemma {:induction false} LevelOnlyGrows(l: Limiter, calls: seq<Call>, t: nat)
    requires Bounded(l) && l.lastRefillTime <= t && NothingConsumed(l, calls)
    requires ForwardClock(l.lastRefillTime, calls) && forall i | 0 <= i < |calls| :: calls[i].Time() <= t
    ensures var final := LazyRun(l, calls).final;
            && final.lastRefillTime <= t && final.capacity == l.capacity && final.refillPerSecond == l.refillPerSecond
            && Available(l, t) <= Available(final, t)
    decreases |calls|
  {
    if calls != [] {
      var c, after := calls[0], LazyCall(l, calls[0]).after;
      ForwardTail(l.lastRefillTime, calls);
      TrafficStep(l, c, t);
      AvailableAdvances(l, c.Time(), t);
      MulMonotone(0, t - c.Time(), l.refillPerSecond);
      LevelOnlyGrows(after, calls[1..], t);
    }
  }

  /** Progress on any schedule: with a positive rate, an amount within capacity is accepted once the missing
      tokens, divided by the rate and rounded up, have elapsed without consumption, whatever refills and refused
      attempts came in between. */
  lemma AcceptedAfterWait(l: Limiter, calls: seq<Call>, now: U64, amount: U64)
    requires Bounded(l) && l.lastRefillTime <= now && NothingConsumed(l, calls)
    requires ForwardClock(l.lastRefillTime, calls) && forall i | 0 <= i < |calls| :: calls[i].Time() <= now
    requires l.refillPerSecond > 0 && amount <= l.capacity
    requires CeilDiv(if amount <= l.tokens then 0 else amount - l.tokens, l.refillPerSecond) <= now - l.lastRefillTime
    ensures Consumed(LazyRun(l, calls).final, now, amount).accepted
  {
    WaitingTime(l, now, amount);
    ConsumeIsExact(l, now, amount);
    LevelOnlyGrows(l, calls, now);
    ConsumeIsExact(LazyRun(l, calls).final, now, amount);
  }

  /** An amount above the capacity is refused at every point of every schedule, on any clock, that does
      not change the capacity. */
  lemma {:induction false} NeverAboveCapacity(l: Limiter, calls: seq<Call>, now: U64, amount: U64)
    requires Bounded(l) && amount > l.capacity
    requires forall c | c in calls :: !c.SetCapacity?
    ensures !Consumed(LazyRun(l, calls).final, now, amount).accepted
    decreases |calls|
  {
    if calls != [] {
      assert calls[0] in calls;
      NeverAboveCapacity(LazyCall(l, calls[0]).after, calls[1..], now, amount);
    }
  }
}
