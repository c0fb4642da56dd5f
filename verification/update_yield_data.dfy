/** The yield report (instructions/update_yield_data.rs): the authority
    overwrites one adapter's advertised APY and liquidity. The vault itself
    is only consulted for its authority and is not changed, so the handler
    returns only the adapter. */
module UpdateYieldData {
  import opened Primitives
  import opened Errors
  import opened Vaults
  import ProtocolAdapters

  /** `handler`: succeeds exactly when the signer is the vault's authority,
      whether or not the vault is paused, and then the adapter advertises
      exactly the reported APY and liquidity, both its timestamps read `now`,
      and every other field (keys, type, principal, activity flag, allocation
      cap, extension buffer, creation time) is unchanged. */
  function Handler(v: Vault, adapter: ProtocolAdapters.ProtocolAdapter, signer: Pubkey,
                   currentApy: U32, availableLiquidity: U64, now: I64): (r: Result<ProtocolAdapters.ProtocolAdapter>)
    ensures r.Ok? <==> signer == v.authority
    ensures r.Err? ==> r.error == Unauthorized
    ensures r.Ok? ==> r.value.currentApy == currentApy && r.value.availableLiquidity == availableLiquidity
    ensures r.Ok? ==> r.value.lastUpdateTimestamp == now && r.value.updatedAt == now
    ensures r.Ok? ==> r.value.isActive == adapter.isActive && r.value.depositedAmount == adapter.depositedAmount
    ensures r.Ok? ==> r.value.maxAllocationPercentage == adapter.maxAllocationPercentage
    ensures r.Ok? ==> r.value == adapter.(currentApy := currentApy, availableLiquidity := availableLiquidity,
                                          lastUpdateTimestamp := now, updatedAt := now)
    ensures r.Ok? ==> r.value == ProtocolAdapters.UpdateYieldData(adapter, currentApy, availableLiquidity, now)
  {
    if signer != v.authority then Err(Unauthorized)
    else Ok(ProtocolAdapters.UpdateYieldData(adapter, currentApy, availableLiquidity, now))
  }

  /** After a report, the effective APY is the reported APY when the adapter
      is active and the reported liquidity is positive, and zero otherwise. */
  lemma ReportedYieldIsEffective(v: Vault, adapter: ProtocolAdapters.ProtocolAdapter, signer: Pubkey,
                                 currentApy: U32, availableLiquidity: U64, now: I64)
    requires signer == v.authority
    ensures var a := Handler(v, adapter, signer, currentApy, availableLiquidity, now).value;
      ProtocolAdapters.EffectiveApy(a)
        == if adapter.isActive && availableLiquidity > 0 then currentApy else 0
  {
  }
}
