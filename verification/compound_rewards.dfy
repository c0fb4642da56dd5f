/** The compounding instruction (instructions/compound_rewards.rs). Claiming
    and reinvesting rewards is not implemented by the program; the
    instruction only checks its gates and records the time. */
module CompoundRewards {
  import opened Primitives
  import opened Errors
  import opened Vaults

  /** `handler`: only the vault's authority may compound (Unauthorized), and
      not while the vault is paused (VaultPaused). On success only the
      compound time and `updatedAt` change, both to `now`; in particular the
      yield earned, deposits and shares stay as they were. */
  function Handler(v: Vault, signer: Pubkey, now: I64): (r: Result<Vault>)
    ensures signer != v.authority ==> r == Err(Unauthorized)
    ensures signer == v.authority && v.isPaused ==> r == Err(VaultPaused)
    ensures r.Ok? <==> signer == v.authority && !v.isPaused
    ensures r.Ok? ==> r.value.lastCompoundTimestamp == now && r.value.updatedAt == now
    ensures r.Ok? ==> r.value == v.(lastCompoundTimestamp := now, updatedAt := now)
  {
    if signer != v.authority then Err(Unauthorized)
    else if v.isPaused then Err(VaultPaused)
    else Ok(v.(lastCompoundTimestamp := now, updatedAt := now))
  }

  /** There is no cooldown: after a successful compound, compounding again
      at any time succeeds. */
  lemma CompoundIsRepeatable(v: Vault, signer: Pubkey, now: I64, later: I64)
    requires Handler(v, signer, now).Ok?
    ensures Handler(Handler(v, signer, now).value, signer, later).Ok?
  {
  }
}
