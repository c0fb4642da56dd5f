/** The vault account and its share arithmetic (state/vault.rs). Shares are
    priced by the ratio of recorded deposits to outstanding shares; every
    conversion multiplies before it divides and rounds down. */
module Vaults {
  import opened Primitives
  import opened Errors
  import opened Constants

  /** One slot of a vault's allocation table. */
  datatype ProtocolAllocation = ProtocolAllocation(
    protocolAdapter: Pubkey,
    allocatedAmount: U64,
    allocationPercentage: U8)

  /** The zeroed slot a new vault starts with. */
  const EMPTY_ALLOCATION: ProtocolAllocation := ProtocolAllocation(DEFAULT_PUBKEY, 0, 0)

  /** The fixed-length array `[ProtocolAllocation; MAX_PROTOCOL_ADAPTERS]`. */
  type Allocations = s: seq<ProtocolAllocation> | |s| == MAX_PROTOCOL_ADAPTERS
    witness seq(MAX_PROTOCOL_ADAPTERS, _ => EMPTY_ALLOCATION)

  datatype Vault = Vault(
    authority: Pubkey,
    vaultBump: U8,
    stablecoinMint: Pubkey,
    vaultSharesMint: Pubkey,
    totalDeposits: U64,
    totalSharesMinted: U64,
    managementFee: U16,
    performanceFee: U16,
    minimumDeposit: U64,
    maximumTotalDeposit: U64,
    lastRebalanceTimestamp: I64,
    lastCompoundTimestamp: I64,
    totalYieldEarned: U64,
    currentAllocation: Allocations,
    isPaused: bool,
    createdAt: I64,
    updatedAt: I64)

  /** `calculate_share_price`: the value of one whole share in stablecoin base
      units. With no shares outstanding a share is worth one whole unit;
      otherwise the price is the deposits-to-shares ratio scaled by 10^D and
      rounded down, and the only failure is the scaled deposits overflowing. */
  function SharePrice(v: Vault): (r: Result<U64>)
    ensures v.totalSharesMinted == 0 ==> r == Ok(Pow10(USDC_DECIMALS))
    ensures v.totalSharesMinted > 0 ==>
      (r.Ok? <==> v.totalDeposits * Pow10(USDC_DECIMALS) <= U64_MAX)
    ensures r.Ok? && v.totalSharesMinted > 0 ==>
      r.value * v.totalSharesMinted <= v.totalDeposits * Pow10(USDC_DECIMALS)
      < (r.value + 1) * v.totalSharesMinted
    ensures r.Err? ==> r.error == MathOverflow
  {
    if v.totalSharesMinted == 0 then
      Ok(OneUnit())
    else
      OkOr(MulDiv(v.totalDeposits, OneUnit(), v.totalSharesMinted), MathOverflow)
  }

  /** `calculate_shares_to_mint`: the first deposit into a vault without
      shares mints one share per base unit; later deposits mint shares in
      proportion, amount * shares / deposits rounded down. The result is
      MathOverflow when that product overflows and also when shares exist but
      the recorded deposits are zero (a division by zero). */
  function SharesToMint(v: Vault, amount: U64): (r: Result<U64>)
    ensures v.totalSharesMinted == 0 ==> r == Ok(amount)
    ensures v.totalSharesMinted > 0 ==>
      (r.Ok? <==> amount * v.totalSharesMinted <= U64_MAX && v.totalDeposits > 0)
    ensures r.Ok? && v.totalSharesMinted > 0 ==>
      r.value * v.totalDeposits <= amount * v.totalSharesMinted
      < (r.value + 1) * v.totalDeposits
    ensures r.Err? ==> r.error == MathOverflow
  {
    if v.totalSharesMinted == 0 then
      Ok(amount)
    else
      OkOr(MulDiv(amount, v.totalSharesMinted, v.totalDeposits), MathOverflow)
  }

  /** `calculate_withdrawal_amount`: the tokens owed for `shares`, namely
      shares * deposits / outstanding shares rounded down. It fails with
      MathOverflow when the product overflows or no shares exist. Redeeming
      no more than the outstanding shares never pays out more than the
      recorded deposits, and at a 1:1 ratio a share is worth exactly one
      base unit. */
  function WithdrawalAmount(v: Vault, shares: U64): (r: Result<U64>)
    ensures r.Ok? <==> shares * v.totalDeposits <= U64_MAX && v.totalSharesMinted > 0
    ensures r.Ok? ==>
      r.value * v.totalSharesMinted <= shares * v.totalDeposits
      < (r.value + 1) * v.totalSharesMinted
    ensures r.Err? ==> r.error == MathOverflow
    ensures r.Ok? && shares <= v.totalSharesMinted ==> r.value <= v.totalDeposits
    ensures r.Ok? && v.totalDeposits == v.totalSharesMinted ==> r.value == shares
  {
    var r := OkOr(MulDiv(shares, v.totalDeposits, v.totalSharesMinted), MathOverflow);
    if r.Ok? then
      RedeemBounds(r.value, v.totalSharesMinted, v.totalDeposits, shares);
      r
    else
      r
  }

  /** The two bounds on a rounded-down redemption quotient q of
      shares * deposits / outstanding. */
  lemma RedeemBounds(q: nat, outstanding: nat, deposits: nat, shares: nat)
    requires outstanding > 0
    requires q * outstanding <= shares * deposits < (q + 1) * outstanding
    ensures shares <= outstanding ==> q <= deposits
    ensures deposits == outstanding ==> q == shares
  {
    if shares <= outstanding {
      MulMonotone(deposits, shares, outstanding);
      QuotientAtMost(q, outstanding, shares * deposits, deposits);
    }
    if deposits == outstanding {
      QuotientAtMost(q, outstanding, shares * deposits, shares);
      QuotientAtLeast(q, outstanding, shares * deposits, shares);
    }
  }

  /** `can_rebalance`: true exactly when at least REBALANCING_COOLDOWN
      seconds have passed since the last rebalance, that is, from the
      instant last_rebalance_timestamp + REBALANCING_COOLDOWN on. The
      subtraction is exact here (see README). */
  function CanRebalance(v: Vault, now: I64): (b: bool)
    ensures b <==> v.lastRebalanceTimestamp + REBALANCING_COOLDOWN <= now
  {
    now - v.lastRebalanceTimestamp >= REBALANCING_COOLDOWN
  }

  /** Once the cooldown has elapsed it stays elapsed: a rebalance allowed at
      `now` is allowed at every later instant. */
  lemma CanRebalanceStaysOpen(v: Vault, now: I64, later: I64)
    requires CanRebalance(v, now) && now <= later
    ensures CanRebalance(v, later)
  {
  }

  /** `update_allocations`: copies the new entries positionally into the
      allocation array. Slots past the end of the new list keep their value,
      entries past the array's capacity are dropped without error, and no
      other field of the vault changes. */
  method UpdateAllocations(v: Vault, newAllocations: seq<ProtocolAllocation>) returns (r: Vault)
    ensures r == v.(currentAllocation := r.currentAllocation)
    ensures forall i :: 0 <= i < |newAllocations| && i < MAX_PROTOCOL_ADAPTERS ==>
      r.currentAllocation[i] == newAllocations[i]
    ensures forall i :: |newAllocations| <= i < MAX_PROTOCOL_ADAPTERS ==>
      r.currentAllocation[i] == v.currentAllocation[i]
  {
    var slots: Allocations := v.currentAllocation;
    var i := 0;
    while i < |newAllocations|
      invariant 0 <= i <= |newAllocations|
      invariant forall k :: 0 <= k < i && k < MAX_PROTOCOL_ADAPTERS ==> slots[k] == newAllocations[k]
      invariant forall k :: i <= k < MAX_PROTOCOL_ADAPTERS ==> slots[k] == v.currentAllocation[k]
    {
      if i < MAX_PROTOCOL_ADAPTERS {
        slots := slots[i := newAllocations[i]];
      }
      i := i + 1;
    }
    r := v.(currentAllocation := slots);
  }

  /** A vault whose shares and deposits are either both zero or both
      positive: the shape every reachable vault has. */
  predicate ZeroTogether(v: Vault)
  {
    v.totalSharesMinted == 0 <==> v.totalDeposits == 0
  }

  /** Depositing `amount` and then redeeming every share that deposit minted
      returns at most `amount`: rounding only ever favours the vault. */
  lemma RoundTripNeverProfits(v: Vault, amount: U64, after: Vault)
    requires ZeroTogether(v)
    requires SharesToMint(v, amount).Ok?
    requires after.totalDeposits == v.totalDeposits + amount
    requires after.totalSharesMinted == v.totalSharesMinted + SharesToMint(v, amount).value
    ensures var back := WithdrawalAmount(after, SharesToMint(v, amount).value);
      back.Ok? ==> back.value <= amount
  {
    var s := SharesToMint(v, amount).value;
    var back := WithdrawalAmount(after, s);
    if back.Ok? {
      var q, td, ts := back.value, v.totalDeposits, v.totalSharesMinted;
      if ts == 0 {
        assert after.totalDeposits == after.totalSharesMinted;
      } else {
        // s * td <= amount * ts, so s * (td + amount) <= amount * (ts + s).
        assert s * td <= amount * ts;
        assert s * (td + amount) == s * td + s * amount;
        assert amount * (ts + s) == amount * ts + amount * s;
        QuotientAtMost(q, ts + s, s * (td + amount), amount);
      }
    }
  }

  /** Minting `s` shares for `a` tokens at a rate rounded in the vault's
      favour (s * td <= a * ts) keeps the deposits-per-share ratio from
      falling. */
  lemma MintKeepsRatio(td: nat, ts: nat, s: nat, a: nat)
    requires s * td <= a * ts
    ensures td * (ts + s) <= (td + a) * ts
  {
    assert td * (ts + s) == td * ts + s * td;
    assert (td + a) * ts == td * ts + a * ts;
  }

  /** Paying `q` tokens for `s` shares at a rate rounded in the vault's
      favour (q * ts <= s * td) keeps the deposits-per-share ratio from
      falling. */
  lemma RedeemKeepsRatio(td: nat, ts: nat, s: nat, q: nat)
    requires s <= ts && q <= td
    requires q * ts <= s * td
    ensures td * (ts - s) <= (td - q) * ts
  {
    assert td * (ts - s) == td * ts - s * td;
    assert (td - q) * ts == td * ts - q * ts;
  }

  /** A rounded-down redemption of fewer than all `ts` shares pays out
      strictly less than the deposits `td`; of exactly all of them, exactly
      `td`. */
  lemma RedeemAllOrLess(td: nat, ts: nat, s: nat, q: nat)
    requires 0 < ts && s <= ts
    requires q * ts <= s * td < (q + 1) * ts
    ensures s == ts ==> q == td
    ensures s < ts && td > 0 ==> q < td
  {
    if s == ts {
      QuotientAtMost(q, ts, s * td, td);
      QuotientAtLeast(q, ts, s * td, td);
    } else if td > 0 {
      MulMonotone(td, s, ts - 1);
      assert s * td <= td * ts - td;
      if q >= td {
        MulMonotone(ts, td, q);
      }
    }
  }
}
