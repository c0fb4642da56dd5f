/** The withdraw instruction (instructions/withdraw.rs) as a state transition
    on the vault and the withdrawer's record. Burning the shares and
    transferring the tokens out are external calls assumed to move exactly
    `sharesAmount` and `tokensReturned`. */
module Withdraw {
  import opened Primitives
  import opened Errors
  import opened Vaults
  import opened UserAccounts

  /** The outcome of a successful withdrawal. */
  datatype Withdrawn = Withdrawn(vault: Vault, user: UserAccount, tokensReturned: U64)

  /** The three guards the handler checks before any arithmetic. */
  predicate Admissible(v: Vault, user: UserAccount, sharesAmount: U64)
  {
    !v.isPaused && sharesAmount > 0 && user.sharesOwned >= sharesAmount
  }

  /** `handler`: rejects a paused vault, then a zero amount, then a request
      for more shares than the withdrawer holds, in that order. Past the
      guards it fails only with MathOverflow: when the payout computation
      overflows or no shares exist, or when the vault has fewer shares
      outstanding than are being redeemed. On success the vault's deposits
      drop by exactly the tokens returned, its shares by exactly the shares
      redeemed, and the withdrawer's record is debited and credited with the
      same two quantities. */
  function Handler(v: Vault, user: UserAccount, sharesAmount: U64, now: I64): (r: Result<Withdrawn>)
    ensures v.isPaused ==> r == Err(VaultPaused)
    ensures !v.isPaused && sharesAmount == 0 ==> r == Err(InvalidWithdrawalAmount)
    ensures !v.isPaused && sharesAmount > 0 && user.sharesOwned < sharesAmount ==>
      r == Err(InsufficientShares)
    ensures Admissible(v, user, sharesAmount) ==>
      (r.Ok? <==> WithdrawalAmount(v, sharesAmount).Ok? && sharesAmount <= v.totalSharesMinted)
    ensures Admissible(v, user, sharesAmount) && r.Err? ==> r.error == MathOverflow
    ensures r.Ok? ==> Admissible(v, user, sharesAmount)
    ensures r.Ok? ==> r.value.tokensReturned == WithdrawalAmount(v, sharesAmount).value
    ensures r.Ok? ==> r.value.vault.totalDeposits + r.value.tokensReturned == v.totalDeposits
    ensures r.Ok? ==> r.value.vault.totalSharesMinted + sharesAmount == v.totalSharesMinted
    ensures r.Ok? ==> r.value.vault == v.(totalDeposits := r.value.vault.totalDeposits,
                                          totalSharesMinted := r.value.vault.totalSharesMinted,
                                          updatedAt := now)
    ensures r.Ok? ==> r.value.user.sharesOwned + sharesAmount == user.sharesOwned
    ensures r.Ok? ==> r.value.user == UpdateWithdrawal(user, sharesAmount, r.value.tokensReturned, now)
  {
    if v.isPaused then Err(VaultPaused)
    else if sharesAmount == 0 then Err(InvalidWithdrawalAmount)
    else if user.sharesOwned < sharesAmount then Err(InsufficientShares)
    else
      var amount :- WithdrawalAmount(v, sharesAmount);
      var deposits :- OkOr(CheckedSub(v.totalDeposits, amount), MathOverflow);
      var outstanding :- OkOr(CheckedSub(v.totalSharesMinted, sharesAmount), MathOverflow);
      var vault := v.(totalDeposits := deposits, totalSharesMinted := outstanding, updatedAt := now);
      Ok(Withdrawn(vault, UpdateWithdrawal(user, sharesAmount, amount, now), amount))
  }

  /** A withdrawal keeps shares and deposits zero together. Redeeming every
      outstanding share pays out exactly the recorded deposits, and redeeming
      fewer pays out strictly less, so deposits reach zero exactly when
      shares do. */
  lemma WithdrawKeepsZeroTogether(v: Vault, user: UserAccount, sharesAmount: U64, now: I64)
    requires ZeroTogether(v)
    requires Handler(v, user, sharesAmount, now).Ok?
    ensures ZeroTogether(Handler(v, user, sharesAmount, now).value.vault)
    ensures sharesAmount == v.totalSharesMinted ==>
      Handler(v, user, sharesAmount, now).value.tokensReturned == v.totalDeposits
    ensures sharesAmount < v.totalSharesMinted ==>
      Handler(v, user, sharesAmount, now).value.tokensReturned < v.totalDeposits
  {
    var q := Handler(v, user, sharesAmount, now).value.tokensReturned;
    RedeemAllOrLess(v.totalDeposits, v.totalSharesMinted, sharesAmount, q);
  }

  /** A withdrawal never lowers the value of the shares left outstanding:
      the deposits-per-share ratio after it is at least the ratio before it,
      because the payout is rounded down. */
  lemma WithdrawNeverDilutes(v: Vault, user: UserAccount, sharesAmount: U64, now: I64)
    requires Handler(v, user, sharesAmount, now).Ok?
    ensures var after := Handler(v, user, sharesAmount, now).value.vault;
      v.totalDeposits * after.totalSharesMinted <= after.totalDeposits * v.totalSharesMinted
  {
    var q := Handler(v, user, sharesAmount, now).value.tokensReturned;
    RedeemKeepsRatio(v.totalDeposits, v.totalSharesMinted, sharesAmount, q);
  }
}
