/** The program's tunable constants. Their values live in a file that is not
    part of this model, so each one is declared without a value: every
    property proved here holds whatever value it has. A lemma that needs
    more about a constant (a positive cooldown, say) states it as a
    precondition. */
module Constants {
  import opened Primitives

  /** Decimal places of the stablecoin and of the share mint. Declared at most
      19 so that `10_u64.pow(USDC_DECIMALS)` is a u64, as the program needs. */
  type Decimals = d: nat | d <= 19

  const USDC_DECIMALS: Decimals

  /** Capacity of a vault's allocation array. */
  const MAX_PROTOCOL_ADAPTERS: nat

  /** Seconds that must elapse between two rebalances. */
  const REBALANCING_COOLDOWN: I64

  /** Upper bounds (in basis points) on the two vault fees. */
  const MAX_MANAGEMENT_FEE: U16
  const MAX_PERFORMANCE_FEE: U16

  /** Upper bound on an adapter's `max_allocation_percentage`. */
  const MAX_REBALANCING_PERCENTAGE: U8

  /** Price of one share while no shares exist: one whole stablecoin unit. */
  function OneUnit(): (r: U64)
    ensures r == Pow10(USDC_DECIMALS)
  {
    Pow10FitsU64(USDC_DECIMALS);
    Pow10(USDC_DECIMALS)
  }
}
