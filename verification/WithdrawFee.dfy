/** `withdraw_fee` (programs/paye-oft/src/instructions/withdraw_fee.rs). */
module WithdrawFee {
  import opened Primitives
  import opened Accounts

  datatype WithdrawAccounts = WithdrawAccounts(admin: Pubkey, tokenEscrow: Pubkey, tokenDest: Pubkey)

  function Withdraw(env: Env, store: Store, ledger: Ledger, accts: WithdrawAccounts, feeLd: U64): Result<Ledger> {
    if accts.admin != store.admin then Err(Unauthorized)
    else if accts.tokenEscrow != store.tokenEscrow || !ledger.Owns(env.storeKey, accts.tokenEscrow)
            || accts.tokenDest !in ledger.accounts
    then Err(AccountConstraint)
    else if ledger.accounts[accts.tokenEscrow].amount < store.tvlLd then Err(InvalidFee)
    else if ledger.accounts[accts.tokenEscrow].amount - store.tvlLd < feeLd then Err(InvalidFee)
    else ledger.Transfer(accts.tokenEscrow, accts.tokenDest, env.storeKey, feeLd)
  }

  method Apply(env: Env, store: OftStore, ledger: TokenLedger, accts: WithdrawAccounts, feeLd: U64) returns (r: Result<()>)
    modifies ledger
    ensures var after := Withdraw(env, store.State(), old(ledger.State()), accts, feeLd);
            && r == (if after.Ok? then Ok(()) else Err(after.error))
            && (after.Ok? ==> ledger.State() == after.value)
  {
    if accts.admin != store.admin {
      return Err(Unauthorized);
    }
    if accts.tokenEscrow != store.tokenEscrow || !ledger.State().Owns(env.storeKey, accts.tokenEscrow)
       || accts.tokenDest !in ledger.accounts
    {
      return Err(AccountConstraint);
    }
    var available := ledger.accounts[accts.tokenEscrow].amount - store.tvlLd;
    if available < 0 || available < feeLd {
      return Err(InvalidFee);
    }
    r := ledger.Transfer(accts.tokenEscrow, accts.tokenDest, env.storeKey, feeLd);
  }
}
