/** `init_oft` (programs/paye-oft/src/instructions/init_oft.rs): the store's first state. */
module InitOft {
  import opened Primitives
  import opened Arithmetic
  import opened Fees
  import opened Accounts

  datatype InitAccounts = InitAccounts(
    payer: Pubkey, tokenMint: Pubkey, mintDecimals: U8, tokenEscrow: Pubkey, defaultEndpoint: Pubkey, registered: bool)

  datatype InitParams = InitParams(oftType: OftType, admin: Pubkey, sharedDecimals: U8, endpointProgram: Option<Pubkey>)

  function Pow10(k: nat): (p: nat)
    ensures p >= 1
  {
    if k == 0 then 1 else 10 * Pow10(k - 1)
  }

  /** `10u64.pow(k)` with overflow checks on. */
  function CheckedPow10(k: nat): Result<Rate> {
    var p := Pow10(k);
    if p <= U64_MAX then Ok(p) else Err(Panic)
  }

  function InitialStore(rate: Rate, accts: InitAccounts, params: InitParams): Store {
    Store(params.oftType, rate, accts.tokenMint, accts.tokenEscrow, params.endpointProgram.GetOr(accts.defaultEndpoint),
          0, params.admin, 0, false, None, None, None, accts.payer, true)
  }

  function Init(accts: InitAccounts, params: InitParams): Result<Store> {
    if accts.mintDecimals < params.sharedDecimals then Err(InvalidDecimals)
    else
      var rate :- CheckedPow10(accts.mintDecimals - params.sharedDecimals);
      if !accts.registered then Err(Error.Endpoint) else Ok(InitialStore(rate, accts, params))
  }

  method WriteStore(store: OftStore, rate: Rate, accts: InitAccounts, params: InitParams)
    modifies store
    ensures store.State() == InitialStore(rate, accts, params)
  {
    store.ld2sdRate := rate;
    store.oftType := params.oftType;
    store.tokenMint := accts.tokenMint;
    store.tokenEscrow := accts.tokenEscrow;
    store.endpointProgram := params.endpointProgram.GetOr(accts.defaultEndpoint);
    store.tvlLd := 0;
    store.admin := params.admin;
    store.defaultFeeBps := 0;
    store.paused := false;
    store.pauser := None;
    store.unpauser := None;
    store.pendingAdmin := None;
    store.developer := accts.payer;
    store.developerEnabled := true;
  }

  method Apply(store: OftStore, accts: InitAccounts, params: InitParams) returns (r: Result<()>)
    modifies store
    ensures var s := Init(accts, params);
            && r == (if s.Ok? then Ok(()) else Err(s.error))
            && (s.Ok? ==> store.State() == s.value)
  {
    if accts.mintDecimals < params.sharedDecimals {
      return Err(InvalidDecimals);
    }
    var rate :- CheckedPow10(accts.mintDecimals - params.sharedDecimals);
    WriteStore(store, rate, accts, params);
    if !accts.registered {
      return Err(Error.Endpoint);
    }
    return Ok(());
  }

  lemma Pow10Small()
    ensures Pow10(19) == 10_000_000_000_000_000_000
    ensures Pow10(20) == 100_000_000_000_000_000_000
  {
    assert Pow10(4) == 10_000;
    assert Pow10(8) == 100_000_000;
    assert Pow10(12) == 1_000_000_000_000;
    assert Pow10(16) == 10_000_000_000_000_000;
  }

  lemma {:induction false} Pow10Monotone(j: nat, k: nat)
    requires j <= k
    ensures Pow10(j) <= Pow10(k)
    decreases k
  {
    if j < k { Pow10Monotone(j, k - 1); }
  }

  /** Initialisation succeeds exactly when the mint has at least the shared decimals, at most 19 more, and
      the endpoint registers the store; the rate is then the power of ten between the two scales. */
  lemma InitSucceedsWhen(accts: InitAccounts, params: InitParams)
    ensures Init(accts, params).Ok? <==>
              0 <= accts.mintDecimals - params.sharedDecimals <= 19 && accts.registered
    ensures Init(accts, params).Ok? ==>
              Init(accts, params).value.ld2sdRate * Pow10(params.sharedDecimals) == Pow10(accts.mintDecimals)
  {
    var k := accts.mintDecimals - params.sharedDecimals;
    if 0 <= k {
      Pow10Small();
      if k <= 19 { Pow10Monotone(k, 19); } else { Pow10Monotone(20, k); }
      Pow10Adds(k, params.sharedDecimals);
    }
  }

  /** Every answer of `init_oft`, and everything it writes: type, mint, escrow and admin as given, the endpoint
      given or the default one, the payer as enabled developer, and no fee, pause, lock, role or nomination. */
  lemma InitAnswers(accts: InitAccounts, params: InitParams)
    ensures var r, gap := Init(accts, params), accts.mintDecimals - params.sharedDecimals;
            && (r == Err(InvalidDecimals) <==> gap < 0)
            && (r == Err(Panic) <==> gap > 19)
            && (r == Err(Error.Endpoint) <==> 0 <= gap <= 19 && !accts.registered)
            && (r.Ok? <==> 0 <= gap <= 19 && accts.registered)
            && (r.Ok? ==>
                  var s := r.value;
                  && s.oftType == params.oftType && s.admin == params.admin && s.tokenMint == accts.tokenMint
                  && s.tokenEscrow == accts.tokenEscrow && s.developer == accts.payer && s.developerEnabled
                  && (params.endpointProgram.Some? ==> s.endpointProgram == params.endpointProgram.value)
                  && (params.endpointProgram.None? ==> s.endpointProgram == accts.defaultEndpoint)
                  && s.ld2sdRate == Pow10(gap) && s.tvlLd == 0 && s.defaultFeeBps == 0 && !s.paused
                  && s.pauser == None && s.unpauser == None && s.pendingAdmin == None)
  {
    InitSucceedsWhen(accts, params);
    var k := accts.mintDecimals - params.sharedDecimals;
    if 0 <= k {
      Pow10Small();
      if k <= 19 { Pow10Monotone(k, 19); } else { Pow10Monotone(20, k); }
    }
  }

  lemma {:induction false} Pow10Adds(j: nat, k: nat)
    ensures Pow10(j) * Pow10(k) == Pow10(j + k)
  {
    if j > 0 {
      Pow10Adds(j - 1, k);
      assert 10 * Pow10(j - 1) * Pow10(k) == 10 * (Pow10(j - 1) * Pow10(k));
    }
  }
}
