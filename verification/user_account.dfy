/** A depositor's position in one vault (state/user_account.rs). Its counters
    saturate instead of failing: they are bookkeeping, and a full counter must
    not abort a deposit or withdrawal the vault itself accepted. */
module UserAccounts {
  import opened Primitives

  datatype UserAccount = UserAccount(
    owner: Pubkey,
    vault: Pubkey,
    sharesOwned: U64,
    totalDeposited: U64,
    totalWithdrawn: U64,
    lastDepositTimestamp: I64,
    lastWithdrawalTimestamp: I64,
    realizedGains: I64,
    depositCount: U32,
    withdrawalCount: U32,
    createdAt: I64,
    updatedAt: I64)

  /** The all-zero record a first deposit finds: the account is created
      zero-filled, and `created_at == 0` is how the program recognises it. */
  const NEW_ACCOUNT: UserAccount :=
    UserAccount(DEFAULT_PUBKEY, DEFAULT_PUBKEY, 0, 0, 0, 0, 0, 0, 0, 0, 0, 0)

  /** `update_deposit`: credits the shares and the deposited amount, counts
      the deposit and stamps its time. It never fails: the share and amount
      totals stop at u64::MAX and the count at u32::MAX. Withdrawal history,
      identity and creation time are untouched. */
  function UpdateDeposit(a: UserAccount, shares: U64, amount: U64, timestamp: I64): (r: UserAccount)
    ensures r == a.(sharesOwned := r.sharesOwned, totalDeposited := r.totalDeposited,
                    depositCount := r.depositCount,
                    lastDepositTimestamp := timestamp, updatedAt := timestamp)
    ensures r.lastDepositTimestamp == timestamp && r.updatedAt == timestamp
    ensures a.sharesOwned + shares <= U64_MAX ==> r.sharesOwned == a.sharesOwned + shares
    ensures a.sharesOwned + shares > U64_MAX ==> r.sharesOwned == U64_MAX
    ensures a.totalDeposited + amount <= U64_MAX ==> r.totalDeposited == a.totalDeposited + amount
    ensures a.totalDeposited + amount > U64_MAX ==> r.totalDeposited == U64_MAX
    ensures a.depositCount < U32_MAX ==> r.depositCount == a.depositCount + 1
    ensures a.depositCount == U32_MAX ==> r.depositCount == U32_MAX
  {
    a.(sharesOwned := SaturatingAdd(a.sharesOwned, shares),
       totalDeposited := SaturatingAdd(a.totalDeposited, amount),
       depositCount := SaturatingIncrement(a.depositCount),
       lastDepositTimestamp := timestamp,
       updatedAt := timestamp)
  }

  /** `net_amount` of `update_withdrawal`: the withdrawal minus the lifetime
      deposits, both read as i64. The casts reinterpret the bits; the
      subtraction is exact (see RealizedGainsRule for the range where this is
      the program's own i64 arithmetic). */
  function NetAmount(amount: U64, totalDeposited: U64): int
  {
    AsI64(amount) - AsI64(totalDeposited)
  }

  /** `update_withdrawal`: debits the shares (stopping at zero), credits the
      amount withdrawn, counts the withdrawal and stamps its time. When the
      net amount is positive it is added to the realized gains, which stop at
      i64::MAX; realized gains never decrease. Deposit history, identity and
      creation time are untouched. */
  function UpdateWithdrawal(a: UserAccount, shares: U64, amount: U64, timestamp: I64): (r: UserAccount)
    ensures r == a.(sharesOwned := r.sharesOwned, totalWithdrawn := r.totalWithdrawn,
                    withdrawalCount := r.withdrawalCount, realizedGains := r.realizedGains,
                    lastWithdrawalTimestamp := timestamp, updatedAt := timestamp)
    ensures r.lastWithdrawalTimestamp == timestamp && r.updatedAt == timestamp
    ensures shares <= a.sharesOwned ==> r.sharesOwned + shares == a.sharesOwned
    ensures shares > a.sharesOwned ==> r.sharesOwned == 0
    ensures a.totalWithdrawn + amount <= U64_MAX ==> r.totalWithdrawn == a.totalWithdrawn + amount
    ensures a.totalWithdrawn + amount > U64_MAX ==> r.totalWithdrawn == U64_MAX
    ensures a.withdrawalCount < U32_MAX ==> r.withdrawalCount == a.withdrawalCount + 1
    ensures a.withdrawalCount == U32_MAX ==> r.withdrawalCount == U32_MAX
    ensures r.realizedGains >= a.realizedGains
  {
    var net := NetAmount(amount, a.totalDeposited);
    var gains: I64 :=
      if net > 0 then (if a.realizedGains + net > I64_MAX then I64_MAX else a.realizedGains + net)
      else a.realizedGains;
    a.(sharesOwned := SaturatingSub(a.sharesOwned, shares),
       totalWithdrawn := SaturatingAdd(a.totalWithdrawn, amount),
       withdrawalCount := SaturatingIncrement(a.withdrawalCount),
       lastWithdrawalTimestamp := timestamp,
       updatedAt := timestamp,
       realizedGains := gains)
  }

  /** While the withdrawal and the lifetime deposits are both at most
      i64::MAX, the `as i64` casts and the i64 subtraction are exact, and the
      realized gains grow by exactly how far this one withdrawal exceeds all
      deposits ever made (stopping at i64::MAX), and not at all otherwise. */
  lemma RealizedGainsRule(a: UserAccount, shares: U64, amount: U64, timestamp: I64)
    requires amount <= I64_MAX && a.totalDeposited <= I64_MAX
    ensures var r := UpdateWithdrawal(a, shares, amount, timestamp);
      && (amount <= a.totalDeposited ==> r.realizedGains == a.realizedGains)
      && (amount > a.totalDeposited && a.realizedGains + (amount - a.totalDeposited) <= I64_MAX ==>
            r.realizedGains == a.realizedGains + (amount - a.totalDeposited))
      && (amount > a.totalDeposited && a.realizedGains + (amount - a.totalDeposited) > I64_MAX ==>
            r.realizedGains == I64_MAX)
  {
  }
}
