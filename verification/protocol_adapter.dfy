/** The record a vault keeps for one external yield source
    (state/protocol_adapter.rs): its advertised APY and liquidity, and the
    principal the vault has placed with it. */
module ProtocolAdapters {
  import opened Primitives
  import opened Errors

  datatype ProtocolType = Kamino | Drift | Meteora | Marinade | Jito | Sanctum | Other

  /** The adapter's reserved `[u8; 64]` extension buffer. */
  type Bytes64 = s: seq<U8> | |s| == 64 witness seq(64, _ => 0)

  datatype ProtocolAdapter = ProtocolAdapter(
    vault: Pubkey,
    protocolProgramId: Pubkey,
    protocolType: ProtocolType,
    currentApy: U32,
    availableLiquidity: U64,
    depositedAmount: U64,
    lastUpdateTimestamp: I64,
    maxAllocationPercentage: U8,
    isActive: bool,
    protocolSpecificData: Bytes64,
    createdAt: I64,
    updatedAt: I64)

  /** The one-byte tag under which a ProtocolType is serialised: its position
      in the declaration. */
  function Tag(t: ProtocolType): (code: U8)
    ensures code <= 6
  {
    match t
    case Kamino => 0
    case Drift => 1
    case Meteora => 2
    case Marinade => 3
    case Jito => 4
    case Sanctum => 5
    case Other => 6
  }

  /** The code-to-variant mapping of the adapter initialiser: codes 0 to 5 name
      the six known protocols and every other byte means Other, so decoding
      never fails. */
  function ProtocolTypeFromCode(code: U8): (t: ProtocolType)
    ensures t == Other <==> code >= 6
    ensures code <= 6 ==> Tag(t) == code
  {
    match code
    case 0 => Kamino
    case 1 => Drift
    case 2 => Meteora
    case 3 => Marinade
    case 4 => Jito
    case 5 => Sanctum
    case _ => Other
  }

  /** Decoding the tag of any protocol type gives that type back. */
  lemma ProtocolTypeRoundTrip(t: ProtocolType)
    ensures ProtocolTypeFromCode(Tag(t)) == t
  {
  }

  /** `update_yield_data`: overwrites the advertised APY and liquidity and
      stamps the time; the principal, the activity flag, the allocation cap
      and the identity fields are untouched. */
  function UpdateYieldData(a: ProtocolAdapter, apy: U32, liquidity: U64, timestamp: I64): (r: ProtocolAdapter)
    ensures r.currentApy == apy && r.availableLiquidity == liquidity
    ensures r.lastUpdateTimestamp == timestamp && r.updatedAt == timestamp
    ensures r.depositedAmount == a.depositedAmount && r.isActive == a.isActive
    ensures r.maxAllocationPercentage == a.maxAllocationPercentage
    ensures r.vault == a.vault && r.protocolProgramId == a.protocolProgramId
    ensures r.protocolType == a.protocolType && r.protocolSpecificData == a.protocolSpecificData
    ensures r.createdAt == a.createdAt
  {
    a.(currentApy := apy, availableLiquidity := liquidity,
       lastUpdateTimestamp := timestamp, updatedAt := timestamp)
  }

  /** A later yield report completely replaces an earlier one. */
  lemma LatestYieldReportWins(a: ProtocolAdapter, apy1: U32, liquidity1: U64, t1: I64,
                              apy2: U32, liquidity2: U64, t2: I64)
    ensures UpdateYieldData(UpdateYieldData(a, apy1, liquidity1, t1), apy2, liquidity2, t2)
         == UpdateYieldData(a, apy2, liquidity2, t2)
  {
  }

  /** `deposit`: records `amount` more principal placed with the adapter;
      MathOverflow when the total would leave the u64 range. */
  function Deposit(a: ProtocolAdapter, amount: U64): (r: Result<ProtocolAdapter>)
    ensures r.Ok? <==> a.depositedAmount + amount <= U64_MAX
    ensures r.Ok? ==> r.value == a.(depositedAmount := a.depositedAmount + amount)
    ensures r.Err? ==> r.error == MathOverflow
  {
    var total :- OkOr(CheckedAdd(a.depositedAmount, amount), MathOverflow);
    Ok(a.(depositedAmount := total))
  }

  /** `withdraw`: records `amount` less principal; MathOverflow when more is
      withdrawn than was recorded. */
  function Withdraw(a: ProtocolAdapter, amount: U64): (r: Result<ProtocolAdapter>)
    ensures r.Ok? <==> amount <= a.depositedAmount
    ensures r.Ok? ==> r.value.depositedAmount + amount == a.depositedAmount
    ensures r.Ok? ==> r.value == a.(depositedAmount := r.value.depositedAmount)
    ensures r.Err? ==> r.error == MathOverflow
  {
    var total :- OkOr(CheckedSub(a.depositedAmount, amount), MathOverflow);
    Ok(a.(depositedAmount := total))
  }

  /** Withdrawing what was just deposited restores the adapter exactly. */
  lemma DepositThenWithdrawRestores(a: ProtocolAdapter, amount: U64)
    requires Deposit(a, amount).Ok?
    ensures Withdraw(Deposit(a, amount).value, amount) == Ok(a)
  {
  }

  /** Depositing back what was just withdrawn restores the adapter exactly. */
  lemma WithdrawThenDepositRestores(a: ProtocolAdapter, amount: U64)
    requires Withdraw(a, amount).Ok?
    ensures Deposit(Withdraw(a, amount).value, amount) == Ok(a)
  {
  }

  /** `get_effective_apy`: the APY a strategy should see. Inactive adapters
      and adapters without liquidity report zero; it never exceeds the
      advertised APY. */
  function EffectiveApy(a: ProtocolAdapter): (r: U32)
    ensures r <= a.currentApy
    ensures !a.isActive || a.availableLiquidity == 0 ==> r == 0
    ensures a.isActive && a.availableLiquidity > 0 ==> r == a.currentApy
  {
    if !a.isActive || a.availableLiquidity == 0 then 0 else a.currentApy
  }

  /** `can_deposit`: the adapter is active and has room for `amount`. An
      inactive adapter takes nothing, not even a zero amount. */
  function CanDeposit(a: ProtocolAdapter, amount: U64): (b: bool)
    ensures b <==> a.isActive && amount <= a.availableLiquidity
    ensures !a.isActive ==> !b
  {
    a.isActive && a.availableLiquidity >= amount
  }

  /** An adapter that can take `amount` can take any smaller amount. */
  lemma CanDepositLess(a: ProtocolAdapter, amount: U64, smaller: U64)
    requires CanDeposit(a, amount) && smaller <= amount
    ensures CanDeposit(a, smaller)
  {
  }

  /** An adapter reports its full APY exactly when it could take a one-unit
      deposit, and reports zero otherwise. */
  lemma EffectiveApyMatchesCanDeposit(a: ProtocolAdapter)
    ensures CanDeposit(a, 1) ==> EffectiveApy(a) == a.currentApy
    ensures !CanDeposit(a, 1) ==> EffectiveApy(a) == 0
  {
  }
}
