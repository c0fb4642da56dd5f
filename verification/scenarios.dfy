/** The concrete runs the repository's test suites walk through, stated as
    lemmas about the model. The values of constants.rs are not part of this
    model, so each lemma assumes only that the limits admit the values the
    suites use. */
module Scenarios {
  import opened Primitives
  import opened Errors
  import opened Constants
  import opened Vaults
  import opened UserAccounts
  import InitializeVault
  import InitializeProtocolAdapter
  import ProtocolAdapters
  import Deposit
  import Withdraw
  import UpdateVaultConfig
  import UpdateYieldData
  import Rebalance

  /** The first deposit into an empty vault, by a depositor without a
      record, mints one share per token and opens the record in the
      depositor's name. */
  lemma FirstDepositMintsOnePerUnit(v: Vault, depositor: Pubkey, vaultKey: Pubkey,
                                    amount: U64, now: I64)
    requires v.totalDeposits == 0 && v.totalSharesMinted == 0
    requires Deposit.Admissible(v, amount)
    ensures var r := Deposit.Handler(v, NEW_ACCOUNT, depositor, vaultKey, amount, now);
      && r.Ok?
      && r.value.sharesMinted == amount
      && r.value.vault.totalDeposits == amount && r.value.vault.totalSharesMinted == amount
      && r.value.user.sharesOwned == amount && r.value.user.totalDeposited == amount
      && r.value.user.owner == depositor && r.value.user.vault == vaultKey
      && r.value.user.createdAt == now && r.value.user.depositCount == 1
  {
  }

  /** The main test suite: a vault created with fees 50 and 1000, minimum
      deposit 1 USDC and capacity 1M USDC; a 5,000 USDC deposit; a rejected
      deposit of 100 base units; a 2,000-share withdrawal leaving 3,000 on
      each side; and a fee update to 100 and 1500 that leaves the deposit
      limits alone. */
  lemma TestSuiteScenario(authority: Pubkey, bump: U8, mint: Pubkey, sharesMint: Pubkey,
                          vaultKey: Pubkey, depositor: Pubkey, t0: I64, t1: I64, t2: I64, t3: I64, t4: I64)
    requires 100 <= MAX_MANAGEMENT_FEE && 1500 <= MAX_PERFORMANCE_FEE
    ensures var init := InitializeVault.Handler(authority, bump, mint, sharesMint, 50, 1000,
                                                1000000, 1000000000000, t0);
      && init.Ok?
      && init.value.totalDeposits == 0 && init.value.totalSharesMinted == 0 && !init.value.isPaused
      && var d := Deposit.Handler(init.value, NEW_ACCOUNT, depositor, vaultKey, 5000000000, t1);
      && d.Ok?
      && d.value.vault.totalDeposits == 5000000000 && d.value.vault.totalSharesMinted == 5000000000
      && d.value.user.owner == depositor
      && d.value.user.sharesOwned == 5000000000 && d.value.user.totalDeposited == 5000000000
      && Deposit.Handler(d.value.vault, d.value.user, depositor, vaultKey, 100, t2) == Err(DepositBelowMinimum)
      && var w := Withdraw.Handler(d.value.vault, d.value.user, 2000000000, t3);
      && w.Ok?
      && w.value.tokensReturned == 2000000000
      && w.value.vault.totalDeposits == 3000000000 && w.value.vault.totalSharesMinted == 3000000000
      && w.value.user.sharesOwned == 3000000000 && w.value.user.totalWithdrawn == 2000000000
      && var c := UpdateVaultConfig.Handler(w.value.vault, authority, Some(100), Some(1500), None, None, t4);
      && c.Ok?
      && c.value.managementFee == 100 && c.value.performanceFee == 1500
      && c.value.minimumDeposit == 1000000 && c.value.maximumTotalDeposit == 1000000000000
  {
    var init := InitializeVault.Handler(authority, bump, mint, sharesMint, 50, 1000,
                                        1000000, 1000000000000, t0);
    var d := Deposit.Handler(init.value, NEW_ACCOUNT, depositor, vaultKey, 5000000000, t1);
    assert d.value.vault.totalDeposits == d.value.vault.totalSharesMinted;
  }

  /** The devnet suite: an adapter registered with type code 0 and a 30%
      cap is an active Kamino adapter offering nothing; a yield report of
      1200 at 100,000 USDC of liquidity is then what it advertises. */
  lemma DevnetAdapterScenario(v: Vault, vaultKey: Pubkey, program: Pubkey, t0: I64, t1: I64)
    requires 30 <= MAX_REBALANCING_PERCENTAGE
    ensures var a := InitializeProtocolAdapter.Handler(v, vaultKey, program, v.authority, 0, 30, t0);
      && a.Ok?
      && a.value.vault == vaultKey && a.value.protocolType == ProtocolAdapters.Kamino
      && a.value.isActive && a.value.maxAllocationPercentage == 30
      && a.value.currentApy == 0 && a.value.availableLiquidity == 0
      && var y := UpdateYieldData.Handler(v, a.value, v.authority, 1200, 100000000000, t1);
      && y.Ok?
      && y.value.currentApy == 1200 && y.value.availableLiquidity == 100000000000
      && ProtocolAdapters.EffectiveApy(y.value) == 1200
  {
  }

  /** The authority cannot rebalance a vault within REBALANCING_COOLDOWN
      seconds of creating it (the devnet suite expects exactly this error
      right after initialisation). */
  lemma RebalanceRightAfterInitFails(authority: Pubkey, bump: U8, mint: Pubkey, sharesMint: Pubkey,
                                     managementFee: U16, performanceFee: U16,
                                     minimumDeposit: U64, maximumTotalDeposit: U64, now: I64, later: I64)
    requires InitializeVault.Handler(authority, bump, mint, sharesMint, managementFee, performanceFee,
                                     minimumDeposit, maximumTotalDeposit, now).Ok?
    requires later - now < REBALANCING_COOLDOWN
    ensures var v := InitializeVault.Handler(authority, bump, mint, sharesMint, managementFee,
                                             performanceFee, minimumDeposit, maximumTotalDeposit, now).value;
      Rebalance.Handler(v, authority, later) == Err(RebalancingCooldownActive)
  {
  }
}
