/** `set_peer_config` (programs/paye-oft/src/instructions/set_peer_config.rs). */
module SetPeerConfig {
  import opened Primitives
  import opened RateLimiters
  import opened Fees
  import opened Accounts

  datatype RateLimitParams = RateLimitParams(refillPerSecond: Option<U64>, capacity: Option<U64>)

  /** One configuration change. The option strings carry the verdict of the unmodelled option parser. */
  datatype PeerChange =
    | PeerAddress(address: Bytes32)
    | FeeBps(feeBps: Option<U16>)
    | EnforcedOptions(send: Bytes, sendAccepted: bool, sendAndCall: Bytes, sendAndCallAccepted: bool)
    | OutboundRateLimit(outbound: Option<RateLimitParams>)
    | InboundRateLimit(inbound: Option<RateLimitParams>)

  predicate IsAuthorized(caller: Pubkey, store: Store) {
    caller == store.admin || (store.developerEnabled && caller == store.developer)
  }

  function UpdatedLimiter(limiter: Option<Limiter>, params: Option<RateLimitParams>, now: U64): Option<Limiter> {
    match params
    case None => None
    case Some(p) =>
      var l := limiter.GetOr(DEFAULT_LIMITER);
      var resized := if p.capacity.Some? then WithCapacity(l, now, p.capacity.value) else l;
      Some(if p.refillPerSecond.Some? then WithRate(resized, now, p.refillPerSecond.value) else resized)
  }

  function Configure(store: Store, peer: Peer, authority: Pubkey, change: PeerChange, now: U64): Result<Peer> {
    if !IsAuthorized(authority, store) then Err(Unauthorized)
    else
      match change
      case PeerAddress(address) => Ok(peer.(peerAddress := address))
      case FeeBps(feeBps) =>
        if feeBps.Some? && feeBps.value >= MAX_FEE_BASIS_POINTS then Err(InvalidFee)
        else Ok(peer.(feeBps := feeBps))
      case EnforcedOptions(send, sendAccepted, sendAndCall, sendAndCallAccepted) =>
        if !sendAccepted || !sendAndCallAccepted then Err(Error.Endpoint)
        else Ok(peer.(enforcedSend := send, enforcedSendAndCall := sendAndCall))
      case OutboundRateLimit(params) => Ok(peer.(outbound := UpdatedLimiter(peer.outbound, params, now)))
      case InboundRateLimit(params) => Ok(peer.(inbound := UpdatedLimiter(peer.inbound, params, now)))
  }

  /** The program works on a clone of the limiter and stores it back. */
  method UpdateRateLimiter(limiter: RateLimiter?, params: Option<RateLimitParams>, timestamp: I64)
    returns (updated: RateLimiter?)
    ensures updated != null ==> fresh(updated)
    ensures (if updated == null then None else Some(updated.State()))
         == UpdatedLimiter(if limiter == null then None else Some(limiter.State()), params, Seconds(timestamp))
  {
    if params.None? {
      return null;
    }
    var clone := new RateLimiter.Load(if limiter == null then DEFAULT_LIMITER else limiter.State());
    if params.value.capacity.Some? {
      clone.SetCapacity(timestamp, params.value.capacity.value);
    }
    if params.value.refillPerSecond.Some? {
      clone.SetRate(timestamp, params.value.refillPerSecond.value);
    }
    return clone;
  }

  method Apply(store: OftStore, peer: PeerConfig, authority: Pubkey, change: PeerChange, timestamp: I64)
    returns (r: Result<()>)
    requires peer.Valid()
    modifies peer
    ensures peer.Valid()
    ensures var configured := Configure(store.State(), old(peer.State()), authority, change, Seconds(timestamp));
            && r == (if configured.Ok? then Ok(()) else Err(configured.error))
            && (configured.Ok? ==> peer.State() == configured.value)
  {
    if !IsAuthorized(authority, store.State()) {
      return Err(Unauthorized);
    }
    match change {
      case PeerAddress(address) =>
        peer.peerAddress := address;
      case FeeBps(feeBps) =>
        if feeBps.Some? && feeBps.value >= MAX_FEE_BASIS_POINTS {
          return Err(InvalidFee);
        }
        peer.feeBps := feeBps;
      case EnforcedOptions(send, sendAccepted, sendAndCall, sendAndCallAccepted) =>
        if !sendAccepted {
          return Err(Error.Endpoint);
        }
        peer.enforcedSend := send;
        if !sendAndCallAccepted {
          return Err(Error.Endpoint);
        }
        peer.enforcedSendAndCall := sendAndCall;
      case OutboundRateLimit(params) =>
        var updated := UpdateRateLimiter(peer.outbound, params, timestamp);
        peer.outbound := updated;
      case InboundRateLimit(params) =>
        var updated := UpdateRateLimiter(peer.inbound, params, timestamp);
        peer.inbound := updated;
    }
    return Ok(());
  }
}
