/** The instructions that write the store after initialisation: `set_oft_config`, `set_pause` and
    `accept_admin` (programs/paye-oft/src/instructions/). */
module StoreConfig {
  import opened Primitives
  import opened Fees
  import opened Accounts

  datatype StoreChange =
    | Admin(nominee: Pubkey)
    | Delegate(delegate: Pubkey, accepted: bool)
    | DefaultFee(feeBps: U16)
    | Paused(paused: bool)
    | Pauser(pauser: Option<Pubkey>)
    | Unpauser(unpauser: Option<Pubkey>)
    | Developer(developer: Pubkey)
    | DeveloperEnabled(enabled: bool)

  function SetConfig(store: Store, signer: Pubkey, change: StoreChange): Result<Store> {
    if signer != store.admin then Err(Unauthorized)
    else
      match change
      case Admin(nominee) => Ok(store.(pendingAdmin := Some(nominee)))
      case Delegate(_, accepted) => if accepted then Ok(store) else Err(Error.Endpoint)
      case DefaultFee(feeBps) =>
        if feeBps >= MAX_FEE_BASIS_POINTS then Err(InvalidFee) else Ok(store.(defaultFeeBps := feeBps))
      case Paused(paused) => Ok(store.(paused := paused))
      case Pauser(pauser) => Ok(store.(pauser := pauser))
      case Unpauser(unpauser) => Ok(store.(unpauser := unpauser))
      case Developer(developer) =>
        Ok(store.(developer := developer,
                  developerEnabled := if developer == ZERO32 then false else store.developerEnabled))
      case DeveloperEnabled(enabled) => Ok(store.(developerEnabled := enabled))
  }

  method ApplySetConfig(store: OftStore, signer: Pubkey, change: StoreChange) returns (r: Result<()>)
    modifies store
    ensures var after := SetConfig(old(store.State()), signer, change);
            && r == (if after.Ok? then Ok(()) else Err(after.error))
            && store.State() == (if after.Ok? then after.value else old(store.State()))
  {
    if signer != store.admin {
      return Err(Unauthorized);
    }
    match change {
      case Admin(nominee) =>
        store.pendingAdmin := Some(nominee);
      case Delegate(_, accepted) =>
        if !accepted {
          return Err(Error.Endpoint);
        }
      case DefaultFee(feeBps) =>
        if feeBps >= MAX_FEE_BASIS_POINTS {
          return Err(InvalidFee);
        }
        store.defaultFeeBps := feeBps;
      case Paused(paused) =>
        store.paused := paused;
      case Pauser(pauser) =>
        store.pauser := pauser;
      case Unpauser(unpauser) =>
        store.unpauser := unpauser;
      case Developer(developer) =>
        store.developer := developer;
        if developer == ZERO32 {
          store.developerEnabled := false;
        }
      case DeveloperEnabled(enabled) =>
        store.developerEnabled := enabled;
    }
    return Ok(());
  }

  /** Who may pause is the pauser, or the admin while there is none; likewise for unpausing. */
  predicate IsValidSigner(signer: Pubkey, store: Store, paused: bool) {
    signer == (if paused then store.pauser.GetOr(store.admin) else store.unpauser.GetOr(store.admin))
  }

  function SetPause(store: Store, signer: Pubkey, paused: bool): Result<Store> {
    if !IsValidSigner(signer, store, paused) then Err(Unauthorized) else Ok(store.(paused := paused))
  }

  method ApplySetPause(store: OftStore, signer: Pubkey, paused: bool) returns (r: Result<()>)
    modifies store
    ensures var after := SetPause(old(store.State()), signer, paused);
            && r == (if after.Ok? then Ok(()) else Err(after.error))
            && store.State() == (if after.Ok? then after.value else old(store.State()))
  {
    if !IsValidSigner(signer, store.State(), paused) {
      return Err(Unauthorized);
    }
    store.paused := paused;
    return Ok(());
  }

  function AcceptAdmin(store: Store, signer: Pubkey): Result<Store> {
    if store.pendingAdmin != Some(signer) then Err(Unauthorized)
    else Ok(store.(admin := signer, pendingAdmin := None))
  }

  method ApplyAcceptAdmin(store: OftStore, signer: Pubkey) returns (r: Result<()>)
    modifies store
    ensures var after := AcceptAdmin(old(store.State()), signer);
            && r == (if after.Ok? then Ok(()) else Err(after.error))
            && store.State() == (if after.Ok? then after.value else old(store.State()))
  {
    if store.pendingAdmin != Some(signer) {
      return Err(Unauthorized);
    }
    store.admin := signer;
    store.pendingAdmin := None;
    return Ok(());
  }
}
