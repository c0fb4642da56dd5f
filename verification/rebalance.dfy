/** The rebalance instruction (instructions/rebalance.rs). The program does
    not compute or move any allocation yet: the instruction only enforces its
    gates and records the time. */
module Rebalance {
  import opened Primitives
  import opened Errors
  import opened Constants
  import opened Vaults

  /** `handler`: only the vault's authority may rebalance (Unauthorized).
      The cooldown is checked before the pause flag, so a paused vault inside
      its cooldown reports RebalancingCooldownActive; outside the cooldown a
      paused vault reports VaultPaused. On success only the rebalance time
      and `updatedAt` change, both to `now`. */
  function Handler(v: Vault, signer: Pubkey, now: I64): (r: Result<Vault>)
    ensures signer != v.authority ==> r == Err(Unauthorized)
    ensures signer == v.authority && !CanRebalance(v, now) ==> r == Err(RebalancingCooldownActive)
    ensures signer == v.authority && CanRebalance(v, now) && v.isPaused ==> r == Err(VaultPaused)
    ensures r.Ok? <==> signer == v.authority && now - v.lastRebalanceTimestamp >= REBALANCING_COOLDOWN
                       && !v.isPaused
    ensures r.Ok? ==> r.value.lastRebalanceTimestamp == now && r.value.updatedAt == now
    ensures r.Ok? ==> r.value == v.(lastRebalanceTimestamp := now, updatedAt := now)
  {
    if signer != v.authority then Err(Unauthorized)
    else if !CanRebalance(v, now) then Err(RebalancingCooldownActive)
    else if v.isPaused then Err(VaultPaused)
    else Ok(v.(lastRebalanceTimestamp := now, updatedAt := now))
  }

  /** A second rebalance less than REBALANCING_COOLDOWN seconds after a
      successful one is refused. */
  lemma RebalanceTooSoonFails(v: Vault, signer: Pubkey, now: I64, later: I64)
    requires Handler(v, signer, now).Ok?
    requires later - now < REBALANCING_COOLDOWN
    ensures Handler(Handler(v, signer, now).value, signer, later) == Err(RebalancingCooldownActive)
  {
  }

  /** With a positive cooldown, the authority cannot rebalance twice at the
      same instant. */
  lemma RebalanceTwiceAtOnceFails(v: Vault, signer: Pubkey, now: I64)
    requires REBALANCING_COOLDOWN > 0
    requires Handler(v, signer, now).Ok?
    ensures Handler(Handler(v, signer, now).value, signer, now) == Err(RebalancingCooldownActive)
  {
    RebalanceTooSoonFails(v, signer, now, now);
  }

  /** Once the cooldown has elapsed, the authority can rebalance again. */
  lemma RebalanceAfterCooldownSucceeds(v: Vault, signer: Pubkey, now: I64, later: I64)
    requires Handler(v, signer, now).Ok?
    requires later - now >= REBALANCING_COOLDOWN
    ensures Handler(Handler(v, signer, now).value, signer, later).Ok?
  {
  }
}
