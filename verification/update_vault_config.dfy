/** The configuration update (instructions/update_vault_config.rs): each of
    the four settings is optional and changed only when present. */
module UpdateVaultConfig {
  import opened Primitives
  import opened Errors
  import opened Constants
  import opened Vaults

  /** A present value replaces the current one; an absent one keeps it. */
  function Override<T>(update: Option<T>, current: T): (r: T)
    ensures update.Some? ==> r == update.value
    ensures update.None? ==> r == current
  {
    match update
    case Some(x) => x
    case None => current
  }

  /** A proposed fee passes when absent or within its maximum. */
  predicate FeeAcceptable(fee: Option<U16>, maximum: U16)
  {
    fee.None? || fee.value <= maximum
  }

  /** `handler`: only the vault's authority may update the configuration
      (Unauthorized otherwise). A present management fee above its maximum,
      or a present performance fee above its maximum, rejects the whole
      update with InvalidFeeConfiguration, so nothing is kept, not even a
      fee that was already accepted. The deposit limits are taken as given.
      On success exactly the present settings change, `updatedAt` becomes
      `now`, and every other field (totals, shares, pause flag, allocations)
      is untouched. */
  function Handler(v: Vault, signer: Pubkey,
                   newManagementFee: Option<U16>, newPerformanceFee: Option<U16>,
                   newMinimumDeposit: Option<U64>, newMaximumTotalDeposit: Option<U64>,
                   now: I64): (r: Result<Vault>)
    ensures signer != v.authority ==> r == Err(Unauthorized)
    ensures signer == v.authority ==>
      (r.Ok? <==> FeeAcceptable(newManagementFee, MAX_MANAGEMENT_FEE)
                  && FeeAcceptable(newPerformanceFee, MAX_PERFORMANCE_FEE))
    ensures signer == v.authority && r.Err? ==> r.error == InvalidFeeConfiguration
    ensures r.Ok? ==>
      && (newManagementFee.None? ==> r.value.managementFee == v.managementFee)
      && (newManagementFee.Some? ==> r.value.managementFee == newManagementFee.value)
      && (newPerformanceFee.None? ==> r.value.performanceFee == v.performanceFee)
      && (newPerformanceFee.Some? ==> r.value.performanceFee == newPerformanceFee.value)
      && (newMinimumDeposit.None? ==> r.value.minimumDeposit == v.minimumDeposit)
      && (newMinimumDeposit.Some? ==> r.value.minimumDeposit == newMinimumDeposit.value)
      && (newMaximumTotalDeposit.None? ==> r.value.maximumTotalDeposit == v.maximumTotalDeposit)
      && (newMaximumTotalDeposit.Some? ==> r.value.maximumTotalDeposit == newMaximumTotalDeposit.value)
    ensures r.Ok? ==> r.value == v.(managementFee := r.value.managementFee,
                                    performanceFee := r.value.performanceFee,
                                    minimumDeposit := r.value.minimumDeposit,
                                    maximumTotalDeposit := r.value.maximumTotalDeposit,
                                    updatedAt := now)
  {
    if signer != v.authority then Err(Unauthorized)
    else if newManagementFee.Some? && newManagementFee.value > MAX_MANAGEMENT_FEE then
      Err(InvalidFeeConfiguration)
    else if newPerformanceFee.Some? && newPerformanceFee.value > MAX_PERFORMANCE_FEE then
      Err(InvalidFeeConfiguration)
    else
      Ok(v.(managementFee := Override(newManagementFee, v.managementFee),
            performanceFee := Override(newPerformanceFee, v.performanceFee),
            minimumDeposit := Override(newMinimumDeposit, v.minimumDeposit),
            maximumTotalDeposit := Override(newMaximumTotalDeposit, v.maximumTotalDeposit),
            updatedAt := now))
  }

  /** Applying the same update twice is the same as applying it once (apart
      from the later timestamp). */
  lemma UpdateIsIdempotent(v: Vault, signer: Pubkey,
                           newManagementFee: Option<U16>, newPerformanceFee: Option<U16>,
                           newMinimumDeposit: Option<U64>, newMaximumTotalDeposit: Option<U64>,
                           now1: I64, now2: I64)
    requires Handler(v, signer, newManagementFee, newPerformanceFee,
                     newMinimumDeposit, newMaximumTotalDeposit, now1).Ok?
    ensures Handler(Handler(v, signer, newManagementFee, newPerformanceFee,
                            newMinimumDeposit, newMaximumTotalDeposit, now1).value,
                    signer, newManagementFee, newPerformanceFee,
                    newMinimumDeposit, newMaximumTotalDeposit, now2)
         == Handler(v, signer, newManagementFee, newPerformanceFee,
                    newMinimumDeposit, newMaximumTotalDeposit, now2)
  {
  }
}
