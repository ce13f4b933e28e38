/** `RateLimiter` (programs/paye-oft/src/state/peer_config.rs): a lazily refilled token bucket in
    saturating 64-bit arithmetic. The functions give each method's effect on a limiter value; the
    class updates the four fields in place, as the program does. */
module RateLimiters {
  import opened Primitives

  datatype Limiter = Limiter(capacity: U64, tokens: U64, refillPerSecond: U64, lastRefillTime: U64)

  /** `RateLimiter::default()` */
  const DEFAULT_LIMITER := Limiter(0, 0, 0, 0)

  /** `unix_timestamp.try_into().unwrap_or(0)` */
  function UnixSeconds(timestamp: I64): U64 {
    TryIntoU64(timestamp).GetOr(0)
  }

  function Refilled(l: Limiter, now: U64, extraTokens: U64): Limiter {
    var newTokens :=
      if now > l.lastRefillTime
      then SaturatingAdd(extraTokens, SaturatingMul(now - l.lastRefillTime, l.refillPerSecond))
      else extraTokens;
    l.(tokens := Min(l.capacity, SaturatingAdd(l.tokens, newTokens)), lastRefillTime := now)
  }

  datatype Attempt = Attempt(after: Limiter, accepted: bool)

  /** A rejected attempt has already refilled the limiter in memory. */
  function Consumed(l: Limiter, now: U64, amount: U64): Attempt {
    var refilled := Refilled(l, now, 0);
    if amount <= refilled.tokens
    then Attempt(refilled.(tokens := refilled.tokens - amount), true)
    else Attempt(refilled, false)
  }

  function WithRate(l: Limiter, now: U64, refillPerSecond: U64): Limiter {
    Refilled(l, now, 0).(refillPerSecond := refillPerSecond)
  }

  function WithCapacity(l: Limiter, now: U64, capacity: U64): Limiter {
    l.(capacity := capacity, tokens := capacity, lastRefillTime := now)
  }

  class RateLimiter {
    var capacity: U64
    var tokens: U64
    var refillPerSecond: U64
    var lastRefillTime: U64

    function State(): Limiter
      reads this
    {
      Limiter(capacity, tokens, refillPerSecond, lastRefillTime)
    }

    constructor Load(l: Limiter)
      ensures State() == l
    {
      capacity, tokens := l.capacity, l.tokens;
      refillPerSecond, lastRefillTime := l.refillPerSecond, l.lastRefillTime;
    }

    method SetRate(timestamp: I64, refillPerSecond: U64)
      modifies this
      ensures State() == WithRate(old(State()), Seconds(timestamp), refillPerSecond)
    {
      Refill(timestamp, 0);
      this.refillPerSecond := refillPerSecond;
    }

    method SetCapacity(timestamp: I64, capacity: U64)
      modifies this
      ensures State() == WithCapacity(old(State()), Seconds(timestamp), capacity)
    {
      this.capacity := capacity;
      tokens := capacity;
      lastRefillTime := UnixSeconds(timestamp);
    }

    method Refill(timestamp: I64, extraTokens: U64)
      modifies this
      ensures State() == Refilled(old(State()), Seconds(timestamp), extraTokens)
    {
      var newTokens := extraTokens;
      var currentTime := UnixSeconds(timestamp);
      if currentTime > lastRefillTime {
        var elapsed: U64 := currentTime - lastRefillTime;
        newTokens := SaturatingAdd(newTokens, SaturatingMul(elapsed, refillPerSecond));
      }
      tokens := Min(capacity, SaturatingAdd(tokens, newTokens));
      lastRefillTime := currentTime;
    }

    method TryConsume(timestamp: I64, amount: U64) returns (r: Result<()>)
      modifies this
      ensures var attempt := Consumed(old(State()), Seconds(timestamp), amount);
              && State() == attempt.after
              && r == if attempt.accepted then Ok(()) else Err(RateLimitExceeded)
    {
      Refill(timestamp, 0);
      if amount <= tokens {
        tokens := tokens - amount;
        return Ok(());
      }
      return Err(RateLimitExceeded);
    }
  }
}
