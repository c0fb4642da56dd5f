/** The vault initialiser (instructions/initialize_vault.rs). The new vault's
    own address and its token accounts are created by the runtime; the model
    receives the keys it records. */
module InitializeVault {
  import opened Primitives
  import opened Errors
  import opened Constants
  import opened Vaults

  /** Every slot of the allocation table is the zeroed default. */
  predicate NoAllocations(s: seq<ProtocolAllocation>)
  {
    forall i :: 0 <= i < |s| ==> s[i] == EMPTY_ALLOCATION
  }

  /** `handler`: rejects a management fee above MAX_MANAGEMENT_FEE and then a
      performance fee above MAX_PERFORMANCE_FEE, both as
      InvalidFeeConfiguration. Otherwise the new vault holds nothing, has
      issued no shares, earned no yield, is not paused, has every allocation
      slot zeroed, and stamps all four timestamps with `now`. Fees and deposit
      limits are stored as given: nothing relates the minimum to the
      maximum. */
  function Handler(authority: Pubkey, vaultBump: U8, stablecoinMint: Pubkey, vaultSharesMint: Pubkey,
                   managementFee: U16, performanceFee: U16,
                   minimumDeposit: U64, maximumTotalDeposit: U64, now: I64): (r: Result<Vault>)
    ensures r.Ok? <==> managementFee <= MAX_MANAGEMENT_FEE && performanceFee <= MAX_PERFORMANCE_FEE
    ensures r.Err? ==> r.error == InvalidFeeConfiguration
    ensures r.Ok? ==>
      && r.value.authority == authority && r.value.vaultBump == vaultBump
      && r.value.stablecoinMint == stablecoinMint && r.value.vaultSharesMint == vaultSharesMint
      && r.value.totalDeposits == 0 && r.value.totalSharesMinted == 0 && r.value.totalYieldEarned == 0
      && !r.value.isPaused
      && r.value.managementFee == managementFee && r.value.performanceFee == performanceFee
      && r.value.minimumDeposit == minimumDeposit && r.value.maximumTotalDeposit == maximumTotalDeposit
      && r.value.lastRebalanceTimestamp == now && r.value.lastCompoundTimestamp == now
      && r.value.createdAt == now && r.value.updatedAt == now
    ensures r.Ok? ==> NoAllocations(r.value.currentAllocation)
  {
    if managementFee > MAX_MANAGEMENT_FEE then Err(InvalidFeeConfiguration)
    else if performanceFee > MAX_PERFORMANCE_FEE then Err(InvalidFeeConfiguration)
    else
      Ok(Vault(
        authority := authority,
        vaultBump := vaultBump,
        stablecoinMint := stablecoinMint,
        vaultSharesMint := vaultSharesMint,
        totalDeposits := 0,
        totalSharesMinted := 0,
        managementFee := managementFee,
        performanceFee := performanceFee,
        minimumDeposit := minimumDeposit,
        maximumTotalDeposit := maximumTotalDeposit,
        lastRebalanceTimestamp := now,
        lastCompoundTimestamp := now,
        totalYieldEarned := 0,
        currentAllocation := seq(MAX_PROTOCOL_ADAPTERS, _ => EMPTY_ALLOCATION),
        isPaused := false,
        createdAt := now,
        updatedAt := now))
  }

  /** A new vault is in the shape every later operation preserves (no shares
      and no deposits), and quotes one whole stablecoin unit per share. */
  lemma NewVaultIsEmptyAtPar(authority: Pubkey, vaultBump: U8, stablecoinMint: Pubkey,
                             vaultSharesMint: Pubkey, managementFee: U16, performanceFee: U16,
                             minimumDeposit: U64, maximumTotalDeposit: U64, now: I64)
    requires managementFee <= MAX_MANAGEMENT_FEE && performanceFee <= MAX_PERFORMANCE_FEE
    ensures var r := Handler(authority, vaultBump, stablecoinMint, vaultSharesMint, managementFee,
                             performanceFee, minimumDeposit, maximumTotalDeposit, now);
      r.Ok? && ZeroTogether(r.value) && SharePrice(r.value) == Ok(Pow10(USDC_DECIMALS))
  {
  }
}
