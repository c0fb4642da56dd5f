/** The deposit instruction (instructions/deposit.rs) as a state transition on
    the vault and the depositor's record. The token transfer into the vault and
    the minting of shares are external calls that are assumed to move exactly
    the amounts computed here; `sharesMinted` is the amount handed to the mint. */
module Deposit {
  import opened Primitives
  import opened Errors
  import opened Vaults
  import opened UserAccounts

  /** The outcome of a successful deposit. */
  datatype Deposited = Deposited(vault: Vault, user: UserAccount, sharesMinted: U64)

  /** The three guards the handler checks before any arithmetic. */
  predicate Admissible(v: Vault, amount: U64)
  {
    !v.isPaused && amount >= v.minimumDeposit && v.totalDeposits + amount <= v.maximumTotalDeposit
  }

  /** First-use initialisation of the depositor's record: a record whose
      creation time is zero is stamped with its owner, vault and creation
      time; any other record is left as it is. */
  function Opened(user: UserAccount, depositor: Pubkey, vaultKey: Pubkey, now: I64): (r: UserAccount)
    ensures user.createdAt == 0 ==> r.owner == depositor && r.vault == vaultKey && r.createdAt == now
    ensures user.createdAt != 0 ==> r == user
    ensures r == user.(owner := r.owner, vault := r.vault, createdAt := r.createdAt)
  {
    if user.createdAt == 0 then user.(owner := depositor, vault := vaultKey, createdAt := now)
    else user
  }

  /** `handler`: rejects a paused vault, then a deposit below the minimum,
      then a deposit that would take the vault past its capacity, in that
      order. Past the guards only the share computation and the share total
      can overflow; the deposit total cannot, because the capacity guard
      already bounds it. On success the vault's deposits grow by exactly
      `amount`, its shares by exactly the shares minted (one per unit for the
      first deposit), and the depositor's record is credited with the same
      two quantities. */
  function Handler(v: Vault, user: UserAccount, depositor: Pubkey, vaultKey: Pubkey,
                   amount: U64, now: I64): (r: Result<Deposited>)
    ensures v.isPaused ==> r == Err(VaultPaused)
    ensures !v.isPaused && amount < v.minimumDeposit ==> r == Err(DepositBelowMinimum)
    ensures (!v.isPaused && amount >= v.minimumDeposit
             && v.totalDeposits + amount > v.maximumTotalDeposit) ==> r == Err(VaultCapacityReached)
    ensures Admissible(v, amount) ==>
      (r.Ok? <==> SharesToMint(v, amount).Ok?
                  && v.totalSharesMinted + SharesToMint(v, amount).value <= U64_MAX)
    ensures Admissible(v, amount) && r.Err? ==> r.error == MathOverflow
    ensures r.Ok? ==> Admissible(v, amount)
    ensures r.Ok? ==> r.value.sharesMinted == SharesToMint(v, amount).value
    ensures r.Ok? && v.totalSharesMinted == 0 ==> r.value.sharesMinted == amount
    ensures r.Ok? ==> r.value.vault.totalDeposits == v.totalDeposits + amount
    ensures r.Ok? ==> r.value.vault.totalSharesMinted == v.totalSharesMinted + r.value.sharesMinted
    ensures r.Ok? ==> r.value.vault == v.(totalDeposits := r.value.vault.totalDeposits,
                                          totalSharesMinted := r.value.vault.totalSharesMinted,
                                          updatedAt := now)
    ensures r.Ok? ==> r.value.user == UpdateDeposit(Opened(user, depositor, vaultKey, now),
                                                    r.value.sharesMinted, amount, now)
  {
    if v.isPaused then Err(VaultPaused)
    else if amount < v.minimumDeposit then Err(DepositBelowMinimum)
    else if v.totalDeposits + amount > v.maximumTotalDeposit then Err(VaultCapacityReached)
    else
      var shares :- SharesToMint(v, amount);
      // The capacity guard bounds this sum by a u64, so None cannot occur here.
      match CheckedAdd(v.totalDeposits, amount)
      case None => Err(MathOverflow)
      case Some(deposits) =>
        var outstanding :- OkOr(CheckedAdd(v.totalSharesMinted, shares), MathOverflow);
        var vault := v.(totalDeposits := deposits, totalSharesMinted := outstanding, updatedAt := now);
        Ok(Deposited(vault, UpdateDeposit(Opened(user, depositor, vaultKey, now), shares, amount, now), shares))
  }

  /** The depositor's record gains exactly the shares the vault recorded as
      minted. The record's share count cannot saturate here: it holds no more
      than the whole vault, and the vault's own checked total did not overflow. */
  lemma DepositorReceivesMintedShares(v: Vault, user: UserAccount, depositor: Pubkey,
                                      vaultKey: Pubkey, amount: U64, now: I64)
    requires Handler(v, user, depositor, vaultKey, amount, now).Ok?
    requires user.sharesOwned <= v.totalSharesMinted
    ensures var d := Handler(v, user, depositor, vaultKey, amount, now).value;
      d.user.sharesOwned - user.sharesOwned == d.vault.totalSharesMinted - v.totalSharesMinted
  {
  }

  /** A deposit keeps shares and deposits both zero or both positive. */
  lemma DepositKeepsZeroTogether(v: Vault, user: UserAccount, depositor: Pubkey,
                                 vaultKey: Pubkey, amount: U64, now: I64)
    requires ZeroTogether(v)
    requires Handler(v, user, depositor, vaultKey, amount, now).Ok?
    ensures ZeroTogether(Handler(v, user, depositor, vaultKey, amount, now).value.vault)
  {
  }

  /** A deposit into a vault whose shares and deposits are zero together
      never lowers the value of the shares already outstanding: the deposits-per-share ratio after the deposit is
      at least the ratio before it, because the minted shares are rounded
      down. */
  lemma DepositNeverDilutes(v: Vault, user: UserAccount, depositor: Pubkey,
                            vaultKey: Pubkey, amount: U64, now: I64)
    requires ZeroTogether(v)
    requires Handler(v, user, depositor, vaultKey, amount, now).Ok?
    ensures var after := Handler(v, user, depositor, vaultKey, amount, now).value.vault;
      v.totalDeposits * after.totalSharesMinted <= after.totalDeposits * v.totalSharesMinted
  {
    var s := Handler(v, user, depositor, vaultKey, amount, now).value.sharesMinted;
    if v.totalSharesMinted > 0 {
      MintKeepsRatio(v.totalDeposits, v.totalSharesMinted, s, amount);
    }
  }
}
