/** The emergency stop (instructions/emergency_withdraw.rs). Draining the
    adapters is not implemented by the program; the instruction pauses the
    vault, which halts deposits, withdrawals, rebalancing and compounding. */
module EmergencyWithdraw {
  import opened Primitives
  import opened Errors
  import opened Vaults
  import Deposit
  import Withdraw
  import Rebalance
  import CompoundRewards
  import UserAccounts

  /** `handler`: only the vault's authority may trigger it
      (EmergencyWithdrawUnauthorized). It does not look at the current pause
      state: it sets the pause flag, stamps `updatedAt`, and changes nothing
      else. */
  function Handler(v: Vault, signer: Pubkey, now: I64): (r: Result<Vault>)
    ensures signer != v.authority ==> r == Err(EmergencyWithdrawUnauthorized)
    ensures r.Ok? <==> signer == v.authority
    ensures r.Ok? ==> r.value.isPaused && r.value.updatedAt == now
    ensures r.Ok? ==> r.value == v.(isPaused := true, updatedAt := now)
  {
    if signer != v.authority then Err(EmergencyWithdrawUnauthorized)
    else Ok(v.(isPaused := true, updatedAt := now))
  }

  /** Triggering the stop a second time has the same effect as triggering it
      once. */
  lemma EmergencyStopIsIdempotent(v: Vault, signer: Pubkey, now1: I64, now2: I64)
    requires Handler(v, signer, now1).Ok?
    ensures Handler(Handler(v, signer, now1).value, signer, now2) == Handler(v, signer, now2)
  {
  }

  /** After the stop, every deposit, withdrawal and compound fails with
      VaultPaused, and every rebalance fails, whoever signs and whatever the
      arguments. */
  lemma EmergencyStopHaltsVault(v: Vault, signer: Pubkey, now: I64,
                                user: UserAccounts.UserAccount, depositor: Pubkey, vaultKey: Pubkey,
                                amount: U64, anySigner: Pubkey, later: I64)
    requires Handler(v, signer, now).Ok?
    ensures var stopped := Handler(v, signer, now).value;
      && Deposit.Handler(stopped, user, depositor, vaultKey, amount, later) == Err(VaultPaused)
      && Withdraw.Handler(stopped, user, amount, later) == Err(VaultPaused)
      && (anySigner == v.authority ==> CompoundRewards.Handler(stopped, anySigner, later) == Err(VaultPaused))
      && Rebalance.Handler(stopped, anySigner, later).Err?
  {
  }
}
