/** Sums over the token accounts of a ledger and over the packets in flight, and how each operation moves them. */
module Balances {
  import opened Primitives
  import opened Arithmetic
  import opened Fees
  import opened Accounts
  import opened Bridge

  // ---- Sums over a map ---------------------------------------------------------------------------------------

  ghost function SumBalances(m: map<Pubkey, TokenAccount>): nat
    decreases |m|
  {
    if m == map[] then 0
    else
      var k :| k in m;
      SizeWithout(m, k);
      m[k].amount + SumBalances(m - {k})
  }

  lemma SizeWithout(m: map<Pubkey, TokenAccount>, k: Pubkey)
    requires k in m
    ensures |m - {k}| == |m| - 1
  {
    assert (m - {k}).Keys == m.Keys - {k};
    assert |m.Keys| == |m| && |(m - {k}).Keys| == |m - {k}|;
  }

  lemma {:induction false} SumWithout(m: map<Pubkey, TokenAccount>, k: Pubkey)
    requires k in m
    ensures SumBalances(m) == m[k].amount + SumBalances(m - {k})
    decreases |m|
  {
    var j :| j in m && SumBalances(m) == m[j].amount + SumBalances(m - {j});
    if j != k {
      SizeWithout(m, j);
      SizeWithout(m, k);
      SumWithout(m - {j}, k);
      SumWithout(m - {k}, j);
      assert (m - {j}) - {k} == (m - {k}) - {j};
    }
  }

  lemma SumAfterWrite(m: map<Pubkey, TokenAccount>, k: Pubkey, a: TokenAccount)
    ensures SumBalances(m[k := a]) == SumBalances(m) - (if k in m then m[k].amount else 0) + a.amount
  {
    SumWithout(m[k := a], k);
    assert m[k := a] - {k} == m - {k};
    if k in m { SumWithout(m, k); } else { assert m - {k} == m; }
  }

  lemma {:induction false} SumOfZeros(m: map<Pubkey, TokenAccount>)
    requires forall k | k in m :: m[k].amount == 0
    ensures SumBalances(m) == 0
    decreases |m|
  {
    if m != map[] {
      var k :| k in m && SumBalances(m) == m[k].amount + SumBalances(m - {k});
      SizeWithout(m, k);
      SumOfZeros(m - {k});
    }
  }

  // ---- What each token operation does to the supply, the sum and the owners --------------------------------

  /** The supply is the sum of all accounts. */
  ghost predicate Balanced(l: Ledger) {
    l.supply == SumBalances(l.accounts)
  }

  /** No account disappears or changes hands, and the mint's own data stays. */
  ghost predicate KeepsOwners(l: Ledger, m: Ledger) {
    && (forall k | k in l.accounts :: k in m.accounts && m.accounts[k].owner == l.accounts[k].owner)
    && m.mintAuthority == l.mintAuthority && m.tokenProgram == l.tokenProgram && m.transferFee == l.transferFee
  }

  lemma BurnMoves(l: Ledger, from: Pubkey, signer: Pubkey, amount: U64)
    requires Balanced(l) && l.Burn(from, signer, amount).Ok?
    ensures var m := l.Burn(from, signer, amount).value;
            && Balanced(m) && KeepsOwners(l, m) && m.supply == l.supply - amount
            && forall k :: m.Balance(k) == l.Balance(k) - (if k == from then amount else 0)
  {
    SumAfterWrite(l.accounts, from, l.accounts[from].(amount := l.accounts[from].amount - amount));
  }

  lemma TransferMoves(l: Ledger, from: Pubkey, to: Pubkey, signer: Pubkey, amount: U64)
    requires Balanced(l) && l.Transfer(from, to, signer, amount).Ok?
    ensures var m := l.Transfer(from, to, signer, amount).value;
            && Balanced(m) && KeepsOwners(l, m) && m.supply == l.supply
            && forall k :: m.Balance(k) == l.Balance(k) - (if k == from then amount else 0) + (if k == to then amount else 0)
  {
    if from != to {
      var debited := l.WithBalance(from, l.accounts[from].amount - amount);
      SumAfterWrite(l.accounts, from, debited.accounts[from]);
      SumAfterWrite(debited.accounts, to, l.accounts[to].(amount := l.accounts[to].amount + amount));
    }
  }

  lemma MintMoves(l: Ledger, to: Pubkey, authority: Pubkey, amount: U64)
    requires Balanced(l) && l.Mint(to, authority, amount).Ok?
    ensures var m := l.Mint(to, authority, amount).value;
            && Balanced(m) && KeepsOwners(l, m) && m.supply == l.supply + amount
            && forall k :: m.Balance(k) == l.Balance(k) + (if k == to then amount else 0)
  {
    SumAfterWrite(l.accounts, to, l.accounts[to].(amount := l.accounts[to].amount + amount));
  }

  lemma OpenMoves(l: Ledger, key: Pubkey, owner: Pubkey)
    requires Balanced(l) && l.OpenIfNeeded(key, owner).Ok?
    ensures var m := l.OpenIfNeeded(key, owner).value;
            && Balanced(m) && KeepsOwners(l, m) && m.supply == l.supply
            && forall k :: m.Balance(k) == l.Balance(k)
  {
    SumAfterWrite(l.accounts, key, TokenAccount(owner, 0));
  }

  // ---- The worth of the packets in flight ------------------------------------------------------------------

  ghost function BackedWorth(env: Env, rate: Rate, p: Packet): int {
    if Backed(env, p) then Worth(rate, p) else 0
  }

  ghost function InFlightWorth(env: Env, rate: Rate, packets: multiset<Packet>): int
    decreases |packets|
  {
    if packets == multiset{} then 0
    else
      var p :| p in packets;
      BackedWorth(env, rate, p) + InFlightWorth(env, rate, packets - multiset{p})
  }

  lemma {:induction false} WorthWithout(env: Env, rate: Rate, packets: multiset<Packet>, p: Packet)
    requires p in packets
    ensures InFlightWorth(env, rate, packets)
         == BackedWorth(env, rate, p) + InFlightWorth(env, rate, packets - multiset{p})
    decreases |packets|
  {
    var q :| q in packets
          && InFlightWorth(env, rate, packets) == BackedWorth(env, rate, q) + InFlightWorth(env, rate, packets - multiset{q});
    if q != p {
      WorthWithout(env, rate, packets - multiset{q}, p);
      WorthWithout(env, rate, packets - multiset{p}, q);
      assert packets - multiset{q} - multiset{p} == packets - multiset{p} - multiset{q};
    }
  }

  lemma WorthWith(env: Env, rate: Rate, packets: multiset<Packet>, p: Packet)
    ensures InFlightWorth(env, rate, packets + multiset{p})
         == InFlightWorth(env, rate, packets) + BackedWorth(env, rate, p)
  {
    WorthWithout(env, rate, packets + multiset{p}, p);
    assert packets + multiset{p} - multiset{p} == packets;
  }
}
