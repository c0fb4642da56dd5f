/** Registration of a yield source with a vault
    (instructions/initialize_protocol_adapter.rs). The runtime derives the
    adapter's address from the vault and the external program, which is what
    keeps one adapter per pair; the model receives the keys it records. */
module InitializeProtocolAdapter {
  import opened Primitives
  import opened Errors
  import opened Constants
  import opened Vaults
  import opened ProtocolAdapters

  /** `handler`: only the vault's authority may register an adapter
      (Unauthorized otherwise), and its allocation cap may not exceed
      MAX_REBALANCING_PERCENTAGE (AllocationExceedsMaximum). The type code
      never fails: unknown codes become Other. The new adapter is active,
      advertises no APY and no liquidity, holds no principal, has an all-zero
      extension buffer, stores the cap as given and stamps its times with
      `now`. */
  function Handler(v: Vault, vaultKey: Pubkey, protocolProgramId: Pubkey, signer: Pubkey,
                   protocolType: U8, maxAllocationPercentage: U8, now: I64): (r: Result<ProtocolAdapter>)
    ensures signer != v.authority ==> r == Err(Unauthorized)
    ensures signer == v.authority ==> (r.Ok? <==> maxAllocationPercentage <= MAX_REBALANCING_PERCENTAGE)
    ensures signer == v.authority && r.Err? ==> r.error == AllocationExceedsMaximum
    ensures r.Ok? ==>
      && r.value.vault == vaultKey && r.value.protocolProgramId == protocolProgramId
      && r.value.protocolType == ProtocolTypeFromCode(protocolType)
      && r.value.isActive
      && r.value.currentApy == 0 && r.value.availableLiquidity == 0 && r.value.depositedAmount == 0
      && r.value.maxAllocationPercentage == maxAllocationPercentage
      && r.value.lastUpdateTimestamp == now && r.value.createdAt == now && r.value.updatedAt == now
    ensures r.Ok? ==> forall i :: 0 <= i < 64 ==> r.value.protocolSpecificData[i] == 0
  {
    if signer != v.authority then Err(Unauthorized)
    else if maxAllocationPercentage > MAX_REBALANCING_PERCENTAGE then Err(AllocationExceedsMaximum)
    else
      Ok(ProtocolAdapter(
        vault := vaultKey,
        protocolProgramId := protocolProgramId,
        protocolType := ProtocolTypeFromCode(protocolType),
        currentApy := 0,
        availableLiquidity := 0,
        depositedAmount := 0,
        lastUpdateTimestamp := now,
        maxAllocationPercentage := maxAllocationPercentage,
        isActive := true,
        protocolSpecificData := ZeroBytes(64),
        createdAt := now,
        updatedAt := now))
  }

  /** A freshly registered adapter is active but, having no liquidity yet,
      reports an effective APY of zero and cannot take any deposit. */
  lemma NewAdapterOffersNothing(v: Vault, vaultKey: Pubkey, protocolProgramId: Pubkey, signer: Pubkey,
                                protocolType: U8, maxAllocationPercentage: U8, now: I64, amount: U64)
    requires Handler(v, vaultKey, protocolProgramId, signer, protocolType, maxAllocationPercentage, now).Ok?
    ensures var a := Handler(v, vaultKey, protocolProgramId, signer, protocolType,
                             maxAllocationPercentage, now).value;
      EffectiveApy(a) == 0 && (CanDeposit(a, amount) <==> amount == 0)
  {
  }
}
