/** The accounts an instruction works on. Each comes twice: as a value, which is what the chain stores, and
    as an object loaded from that value, which an instruction updates in place. */
module Accounts {
  import opened Primitives
  import opened RateLimiters
  import opened Fees

  // ---- The OFT store (programs/paye-oft/src/state/oft.rs) -------------------------------------------------

  datatype Store = Store(
    oftType: OftType,
    ld2sdRate: Rate,
    tokenMint: Pubkey,
    tokenEscrow: Pubkey,
    endpointProgram: Pubkey,
    tvlLd: U64,
    admin: Pubkey,
    defaultFeeBps: U16,
    paused: bool,
    pauser: Option<Pubkey>,
    unpauser: Option<Pubkey>,
    pendingAdmin: Option<Pubkey>,
    developer: Pubkey,
    developerEnabled: bool)

  class OftStore {
    var oftType: OftType
    var ld2sdRate: Rate
    var tokenMint: Pubkey
    var tokenEscrow: Pubkey
    var endpointProgram: Pubkey
    var tvlLd: U64
    var admin: Pubkey
    var defaultFeeBps: U16
    var paused: bool
    var pauser: Option<Pubkey>
    var unpauser: Option<Pubkey>
    var pendingAdmin: Option<Pubkey>
    var developer: Pubkey
    var developerEnabled: bool

    function State(): Store
      reads this
    {
      Store(oftType, ld2sdRate, tokenMint, tokenEscrow, endpointProgram, tvlLd, admin, defaultFeeBps,
            paused, pauser, unpauser, pendingAdmin, developer, developerEnabled)
    }

    constructor Load(s: Store)
      ensures State() == s
    {
      oftType, ld2sdRate, tokenMint, tokenEscrow := s.oftType, s.ld2sdRate, s.tokenMint, s.tokenEscrow;
      endpointProgram, tvlLd, admin, defaultFeeBps := s.endpointProgram, s.tvlLd, s.admin, s.defaultFeeBps;
      paused, pauser, unpauser, pendingAdmin := s.paused, s.pauser, s.unpauser, s.pendingAdmin;
      developer, developerEnabled := s.developer, s.developerEnabled;
    }
  }

  // ---- A peer (programs/paye-oft/src/state/peer_config.rs) ------------------------------------------------

  datatype Peer = Peer(
    peerAddress: Bytes32,
    enforcedSend: Bytes,
    enforcedSendAndCall: Bytes,
    outbound: Option<Limiter>,
    inbound: Option<Limiter>,
    feeBps: Option<U16>)
  {
    /** `get_enforced_options`: the options that a send of this kind is held to. */
    function EnforcedOptions(composeMsg: Option<Bytes>): Bytes {
      if composeMsg.None? then enforcedSend else enforcedSendAndCall
    }
  }

  /** A peer account that `set_peer_config` has just created. */
  const DEFAULT_PEER := Peer(ZERO32, [], [], None, None, None)

  class PeerConfig {
    var peerAddress: Bytes32
    var enforcedSend: Bytes
    var enforcedSendAndCall: Bytes
    var outbound: RateLimiter?
    var inbound: RateLimiter?
    var feeBps: Option<U16>

    /** The two limiters are stored inline, so they never share memory. */
    ghost predicate Valid()
      reads this
    {
      outbound != null ==> outbound != inbound
    }

    function State(): Peer
      reads this, outbound, inbound
    {
      Peer(peerAddress, enforcedSend, enforcedSendAndCall,
           if outbound == null then None else Some(outbound.State()),
           if inbound == null then None else Some(inbound.State()),
           feeBps)
    }

    constructor Load(p: Peer)
      ensures Valid() && State() == p
      ensures outbound != null ==> fresh(outbound)
      ensures inbound != null ==> fresh(inbound)
    {
      peerAddress, feeBps := p.peerAddress, p.feeBps;
      enforcedSend, enforcedSendAndCall := p.enforcedSend, p.enforcedSendAndCall;
      if p.outbound.Some? {
        var limiter := new RateLimiter.Load(p.outbound.value);
        outbound := limiter;
      } else {
        outbound := null;
      }
      if p.inbound.Some? {
        var limiter := new RateLimiter.Load(p.inbound.value);
        inbound := limiter;
      } else {
        inbound := null;
      }
    }
  }

  // ---- The token program: one mint and its accounts ---------------------------------------------------------

  datatype TokenAccount = TokenAccount(owner: Pubkey, amount: U64)

  datatype Ledger = Ledger(
    accounts: map<Pubkey, TokenAccount>,
    supply: U64,
    mintAuthority: Option<Pubkey>,
    tokenProgram: Pubkey,
    transferFee: Option<TransferFee>)
  {
    predicate Owns(owner: Pubkey, key: Pubkey) {
      key in accounts && accounts[key].owner == owner
    }

    function Balance(key: Pubkey): nat {
      if key in accounts then accounts[key].amount else 0
    }

    function WithBalance(key: Pubkey, amount: U64): Ledger
      requires key in accounts
    {
      this.(accounts := accounts[key := accounts[key].(amount := amount)])
    }

    function Burn(from: Pubkey, signer: Pubkey, amount: U64): Result<Ledger> {
      if !Owns(signer, from) || amount > accounts[from].amount || amount > supply then Err(TokenProgram)
      else Ok(WithBalance(from, accounts[from].amount - amount).(supply := supply - amount))
    }

    function Transfer(from: Pubkey, to: Pubkey, signer: Pubkey, amount: U64): Result<Ledger> {
      if !Owns(signer, from) || to !in accounts || amount > accounts[from].amount then Err(TokenProgram)
      else if from == to then Ok(this)
      else if accounts[to].amount + amount > U64_MAX then Err(TokenProgram)
      else Ok(WithBalance(from, accounts[from].amount - amount).WithBalance(to, accounts[to].amount + amount))
    }

    function Mint(to: Pubkey, authority: Pubkey, amount: U64): Result<Ledger> {
      if mintAuthority != Some(authority) || to !in accounts then Err(TokenProgram)
      else if supply + amount > U64_MAX || accounts[to].amount + amount > U64_MAX then Err(TokenProgram)
      else Ok(WithBalance(to, accounts[to].amount + amount).(supply := supply + amount))
    }

    /** `init_if_needed`: an existing account must belong to the expected owner. */
    function OpenIfNeeded(key: Pubkey, owner: Pubkey): Result<Ledger> {
      if key !in accounts then Ok(this.(accounts := accounts[key := TokenAccount(owner, 0)]))
      else if accounts[key].owner == owner then Ok(this)
      else Err(AccountConstraint)
    }
  }

  /** The token program's side of an instruction: accounts and supply change in place. */
  class TokenLedger {
    var accounts: map<Pubkey, TokenAccount>
    var supply: U64
    const mintAuthority: Option<Pubkey>
    const tokenProgram: Pubkey
    const transferFee: Option<TransferFee>

    function State(): Ledger
      reads this
    {
      Ledger(accounts, supply, mintAuthority, tokenProgram, transferFee)
    }

    constructor Load(l: Ledger)
      ensures State() == l
    {
      accounts, supply := l.accounts, l.supply;
      mintAuthority, tokenProgram, transferFee := l.mintAuthority, l.tokenProgram, l.transferFee;
    }

    method Burn(from: Pubkey, signer: Pubkey, amount: U64) returns (r: Result<()>)
      modifies this
      ensures var after := old(State()).Burn(from, signer, amount);
              && r == (if after.Ok? then Ok(()) else Err(after.error))
              && State() == (if after.Ok? then after.value else old(State()))
    {
      if from !in accounts || accounts[from].owner != signer || amount > accounts[from].amount || amount > supply {
        return Err(TokenProgram);
      }
      accounts := accounts[from := TokenAccount(signer, accounts[from].amount - amount)];
      supply := supply - amount;
      return Ok(());
    }

    method Transfer(from: Pubkey, to: Pubkey, signer: Pubkey, amount: U64) returns (r: Result<()>)
      modifies this
      ensures var after := old(State()).Transfer(from, to, signer, amount);
              && r == (if after.Ok? then Ok(()) else Err(after.error))
              && State() == (if after.Ok? then after.value else old(State()))
    {
      if from !in accounts || accounts[from].owner != signer || to !in accounts || amount > accounts[from].amount {
        return Err(TokenProgram);
      }
      if from != to {
        if accounts[to].amount + amount > U64_MAX {
          return Err(TokenProgram);
        }
        accounts := accounts[from := TokenAccount(signer, accounts[from].amount - amount)];
        accounts := accounts[to := TokenAccount(accounts[to].owner, accounts[to].amount + amount)];
      }
      return Ok(());
    }

    method Mint(to: Pubkey, authority: Pubkey, amount: U64) returns (r: Result<()>)
      modifies this
      ensures var after := old(State()).Mint(to, authority, amount);
              && r == (if after.Ok? then Ok(()) else Err(after.error))
              && State() == (if after.Ok? then after.value else old(State()))
    {
      if mintAuthority != Some(authority) || to !in accounts {
        return Err(TokenProgram);
      }
      if supply + amount > U64_MAX || accounts[to].amount + amount > U64_MAX {
        return Err(TokenProgram);
      }
      accounts := accounts[to := TokenAccount(accounts[to].owner, accounts[to].amount + amount)];
      supply := supply + amount;
      return Ok(());
    }

    method OpenIfNeeded(key: Pubkey, owner: Pubkey) returns (r: Result<()>)
      modifies this
      ensures var after := old(State()).OpenIfNeeded(key, owner);
              && r == (if after.Ok? then Ok(()) else Err(after.error))
              && State() == (if after.Ok? then after.value else old(State()))
    {
      if key !in accounts {
        accounts := accounts[key := TokenAccount(owner, 0)];
      } else if accounts[key].owner != owner {
        return Err(AccountConstraint);
      }
      return Ok(());
    }
  }

  // ---- The LayerZero endpoint ------------------------------------------------------------------------------

  datatype Packet = Packet(
    srcEid: U32, sender: Bytes32, dstEid: U32, receiver: Bytes32, nonce: U64, guid: Bytes32, message: Bytes)

  datatype Compose = Compose(to: Pubkey, guid: Bytes32, index: nat, message: Bytes)

  /** Packets in flight and compose messages waiting for their recipients. */
  datatype Mailbox = Mailbox(inFlight: multiset<Packet>, composed: multiset<Compose>)

  class Endpoint {
    var inFlight: multiset<Packet>
    var composed: multiset<Compose>

    function State(): Mailbox
      reads this
    {
      Mailbox(inFlight, composed)
    }

    constructor Load(m: Mailbox)
      ensures State() == m
    {
      inFlight, composed := m.inFlight, m.composed;
    }

    /** Assumed of the endpoint: only a packet in flight can be cleared, and it is removed. */
    method Clear(packet: Packet) returns (r: Result<()>)
      modifies this
      ensures r == if packet in old(inFlight) then Ok(()) else Err(Error.Endpoint)
      ensures inFlight == old(inFlight) - multiset{packet} && composed == old(composed)
    {
      if packet !in inFlight {
        assert inFlight - multiset{packet} == inFlight;
        return Err(Error.Endpoint);
      }
      inFlight := inFlight - multiset{packet};
      return Ok(());
    }

    method Dispatch(packet: Packet)
      modifies this
      ensures inFlight == old(inFlight) + multiset{packet} && composed == old(composed)
    {
      inFlight := inFlight + multiset{packet};
    }

    method SendCompose(compose: Compose)
      modifies this
      ensures composed == old(composed) + multiset{compose} && inFlight == old(inFlight)
    {
      composed := composed + multiset{compose};
    }
  }

  datatype LzAccount = LzAccount(pubkey: Pubkey, isSigner: bool, isWritable: bool)

  /** What surrounds the program and never changes: its own address and the store's, the chain's endpoint
      id, the addresses of the members of the mesh (this store included), and the functions of Solana and
      of the endpoint library that derive addresses and combine message options. */
  datatype Env = Env(
    programId: Pubkey,
    storeKey: Pubkey,
    localEid: U32,
    mesh: map<U32, Bytes32>,
    associatedAccount: (Pubkey, Pubkey, Pubkey) -> Pubkey,
    peerAccount: U32 -> Pubkey,
    eventAuthority: Pubkey,
    systemProgram: Pubkey,
    associatedTokenProgram: Pubkey,
    clearAccounts: (U32, Bytes32, U64) -> seq<LzAccount>,
    composeAccounts: (Pubkey, Bytes32, nat, Bytes) -> seq<LzAccount>,
    combineOptions: (Bytes, Bytes) -> Option<Bytes>)
}
