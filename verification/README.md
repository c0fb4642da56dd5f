# Pooled stablecoin vault: a Dafny model

This project models the accounting engine of a Solana (Anchor) program. The
program runs a pooled stablecoin vault. Depositors pay a stablecoin into the
vault and receive vault shares in proportion. They redeem shares for their
proportional part of the recorded deposits. An authority configures fees and
deposit limits, registers external yield sources ("protocol adapters"),
reports their yields, rebalances, compounds, and can pause the vault in an
emergency.

What the model covers:

- **Vault**, **ProtocolAllocation**, **UserAccount** and **ProtocolAdapter**
  are immutable datatypes. The `u8`/`u16`/`u32`/`u64`/`i64` fields are bounded
  integer subset types.
- The share arithmetic is modelled with the program's checked `u64`
  operations:
  - the share price;
  - the shares minted for a deposit, including the one-for-one first deposit;
  - the tokens paid out for a withdrawal.
- The user ledger's saturating counters and its `realized_gains` rule.
- The adapter's checked principal bookkeeping, effective APY and deposit
  test.
- Every instruction handler is a total function from the accounts it reads
  (plus the signer and the clock reading `now`) to a `Result`. An error means
  the transaction reverted, so no state is returned. The handlers check their
  guards in the program's order and return the program's error.
- `Ledgers` puts one vault and all its depositor records together:
  - it runs sequences of transactions;
  - it proves that the shares the records hold always add up to the vault's
    minted shares;
  - it proves that token flows match the recorded deposits;
  - it proves that a paused vault stays paused, moves no tokens, and changes
    neither its depositor records nor its deposit and share totals.
    Configuration updates and the other authority instructions still apply
    to a paused vault.

The tunable values of `constants.rs` are abstract constants. That file is not
part of this model. A lemma that needs something of a constant states it as a
precondition, such as `REBALANCING_COOLDOWN > 0`.

Each source file corresponds to one module. `primitives.dfy` and `errors.dfy`
hold the integer types, the checked and saturating operations, `VaultError`
and `Result`. `ledger.dfy` and `scenarios.dfy` hold the multi-transaction
properties and the runs from the test suites.

## Model

| member | source | states |
|---|---|---|
| Primitives.CheckedAdd | programs/defi_yield_optimizer/src/instructions/deposit.rs:117-122 | `checked_add` fails exactly when the sum leaves the u64 range, and otherwise returns the sum |
| Primitives.CheckedSub | programs/defi_yield_optimizer/src/instructions/withdraw.rs:109-114 | `checked_sub` fails exactly when the subtrahend is larger; otherwise result plus subtrahend gives back the minuend |
| Primitives.MulDiv | programs/defi_yield_optimizer/src/state/vault.rs:61-64 | `checked_mul` then `checked_div` succeeds exactly when the product fits a u64 and the divisor is non-zero; the result is the floor quotient (q·c ≤ a·b < (q+1)·c) |
| Primitives.SaturatingAdd | programs/defi_yield_optimizer/src/state/user_account.rs:35-36 | the exact sum when it fits, and u64::MAX otherwise |
| Primitives.SaturatingSub | programs/defi_yield_optimizer/src/state/user_account.rs:43 | the exact difference when it is non-negative, and 0 otherwise |
| Primitives.SaturatingIncrement | programs/defi_yield_optimizer/src/state/user_account.rs:37 | the count plus one, stopping at u32::MAX |
| Primitives.AsI64 | programs/defi_yield_optimizer/src/state/user_account.rs:49 | `as i64` keeps values up to i64::MAX and maps larger ones to the negative number with the same 64 bits |
| Primitives.Pow10FitsU64 | programs/defi_yield_optimizer/src/state/vault.rs:47 | `10_u64.pow(d)` does not overflow for d ≤ 19 |
| Errors.OkOr | programs/defi_yield_optimizer/src/state/vault.rs:53 | `ok_or` turns None into the given error and Some into Ok of the same value |
| Constants.OneUnit | programs/defi_yield_optimizer/src/state/vault.rs:47 | one whole stablecoin unit is 10^USDC_DECIMALS base units and is a u64 |
| Vaults.SharePrice | programs/defi_yield_optimizer/src/state/vault.rs:45-54 | with no shares the price is exactly 10^D; otherwise it is floor(deposits·10^D / shares), and MathOverflow exactly when deposits·10^D exceeds u64 |
| Vaults.SharesToMint | programs/defi_yield_optimizer/src/state/vault.rs:56-65 | with no shares a deposit mints one share per unit; otherwise floor(amount·shares / deposits), and MathOverflow exactly when the product overflows or deposits are zero |
| Vaults.WithdrawalAmount | programs/defi_yield_optimizer/src/state/vault.rs:67-72 | floor(shares·deposits / outstanding), and MathOverflow exactly when the product overflows or no shares exist; redeeming at most the outstanding shares pays at most the deposits; at a 1:1 ratio a share pays exactly one unit |
| Vaults.UpdateAllocations | programs/defi_yield_optimizer/src/state/vault.rs:78-84 | slot i takes new[i] for i below both the list length and the capacity; slots from the list length on keep their value; extra entries are dropped; no other vault field changes |
| Vaults.CanRebalance | programs/defi_yield_optimizer/src/state/vault.rs:74-76 | holds exactly when `now` is at least the last rebalance time plus REBALANCING_COOLDOWN, i.e. `now − last_rebalance ≥ REBALANCING_COOLDOWN` with exact subtraction (see Left out) |
| Vaults.CanRebalanceStaysOpen | programs/defi_yield_optimizer/src/state/vault.rs:74-76 | once the cooldown has elapsed, a rebalance stays allowed at every later time |
| Vaults.RoundTripNeverProfits | programs/defi_yield_optimizer/src/state/vault.rs:56-72 | in a vault whose shares and deposits are zero together, redeeming the shares a deposit of `amount` minted pays back at most `amount` |
| UserAccounts.UpdateDeposit | programs/defi_yield_optimizer/src/state/user_account.rs:34-40 | shares and deposited total grow by saturating addition and the deposit count by a saturating increment; both timestamps are set; withdrawal history, identity and creation time are unchanged |
| UserAccounts.UpdateWithdrawal | programs/defi_yield_optimizer/src/state/user_account.rs:42-53 | shares shrink by saturating subtraction (never below 0); withdrawn total and count grow by saturating addition; timestamps are set; realized gains never decrease; deposit history is unchanged |
| UserAccounts.RealizedGainsRule | programs/defi_yield_optimizer/src/state/user_account.rs:49-52 | while both values are within i64 range, realized gains grow by amount − total_deposited (saturating at i64::MAX) when that is positive, and are unchanged otherwise |
| ProtocolAdapters.Tag | programs/defi_yield_optimizer/src/state/protocol_adapter.rs:67-76 | a protocol type's serialised tag is its declaration index, 0 to 6 |
| ProtocolAdapters.ProtocolTypeFromCode | programs/defi_yield_optimizer/src/instructions/initialize_protocol_adapter.rs:42-50 | codes 0 to 5 name Kamino through Sanctum; a type is Other exactly when its code is 6 or more; the mapping never fails |
| ProtocolAdapters.ProtocolTypeRoundTrip | programs/defi_yield_optimizer/src/instructions/initialize_protocol_adapter.rs:42-50 | decoding the tag of any protocol type gives that type back |
| ProtocolAdapters.UpdateYieldData | programs/defi_yield_optimizer/src/state/protocol_adapter.rs:34-39 | APY, liquidity and both timestamps take the new values; principal, activity, cap, identity and data are unchanged |
| ProtocolAdapters.LatestYieldReportWins | programs/defi_yield_optimizer/src/state/protocol_adapter.rs:34-39 | a second yield report completely overrides the first |
| ProtocolAdapters.Deposit | programs/defi_yield_optimizer/src/state/protocol_adapter.rs:41-46 | succeeds exactly when the principal plus the amount fits a u64, and then only the principal changes, by the amount; otherwise MathOverflow |
| ProtocolAdapters.Withdraw | programs/defi_yield_optimizer/src/state/protocol_adapter.rs:48-53 | succeeds exactly when the amount is at most the principal, and then only the principal changes, by the amount; otherwise MathOverflow |
| ProtocolAdapters.DepositThenWithdrawRestores | programs/defi_yield_optimizer/src/state/protocol_adapter.rs:41-53 | withdrawing what was just deposited restores the adapter exactly |
| ProtocolAdapters.WithdrawThenDepositRestores | programs/defi_yield_optimizer/src/state/protocol_adapter.rs:41-53 | depositing back what was just withdrawn restores the adapter exactly |
| ProtocolAdapters.EffectiveApy | programs/defi_yield_optimizer/src/state/protocol_adapter.rs:55-60 | 0 for an inactive adapter or one without liquidity, the advertised APY otherwise, and never above it |
| ProtocolAdapters.CanDeposit | programs/defi_yield_optimizer/src/state/protocol_adapter.rs:62-64 | holds exactly when the adapter is active and its liquidity is at least the amount; an inactive adapter accepts nothing, not even 0 |
| ProtocolAdapters.CanDepositLess | programs/defi_yield_optimizer/src/state/protocol_adapter.rs:62-64 | an adapter that can take an amount can take every smaller amount |
| ProtocolAdapters.EffectiveApyMatchesCanDeposit | programs/defi_yield_optimizer/src/state/protocol_adapter.rs:55-64 | an adapter reports its full APY exactly when `can_deposit(1)` holds, and 0 otherwise |
| Deposit.Opened | programs/defi_yield_optimizer/src/instructions/deposit.rs:125-129 | a record with zero creation time gets the depositor, the vault and `now`; an existing record is kept as it is |
| Deposit.Handler | programs/defi_yield_optimizer/src/instructions/deposit.rs:67-135 | guards in order: VaultPaused, DepositBelowMinimum, VaultCapacityReached. Past them only MathOverflow, and only from the share computation or the share total; the deposit total cannot overflow. On success deposits grow by exactly `amount` and shares by exactly the shares minted (equal to `amount` for the first deposit), with only `updated_at` changing besides; the record is opened if new and credited |
| Deposit.DepositorReceivesMintedShares | programs/defi_yield_optimizer/src/instructions/deposit.rs:120-130 | when the record holds no more than the vault's outstanding shares, it gains exactly the shares the vault recorded as minted |
| Deposit.DepositKeepsZeroTogether | programs/defi_yield_optimizer/src/instructions/deposit.rs:117-122 | a deposit keeps deposits and shares both zero or both positive |
| Deposit.DepositNeverDilutes | programs/defi_yield_optimizer/src/instructions/deposit.rs:82-122 | in a vault whose shares and deposits are zero together, a deposit never lowers the deposits-per-share ratio |
| Withdraw.Handler | programs/defi_yield_optimizer/src/instructions/withdraw.rs:62-122 | guards in order: VaultPaused, InvalidWithdrawalAmount, InsufficientShares. Past them MathOverflow exactly when the payout computation fails or the vault has fewer shares than are redeemed. On success deposits drop by exactly the payout and shares by exactly the shares redeemed, with only `updated_at` changing besides; the record is debited and credited through `update_withdrawal` |
| Withdraw.WithdrawKeepsZeroTogether | programs/defi_yield_optimizer/src/instructions/withdraw.rs:109-114 | from a vault whose shares and deposits are zero together, a withdrawal keeps them zero together: redeeming all outstanding shares pays out exactly all deposits, and redeeming fewer pays out strictly less |
| Withdraw.WithdrawNeverDilutes | programs/defi_yield_optimizer/src/instructions/withdraw.rs:74-114 | a withdrawal never lowers the deposits-per-share ratio of the shares left |
| InitializeVault.Handler | programs/defi_yield_optimizer/src/instructions/initialize_vault.rs:58-103 | succeeds exactly when both fees are within their maxima, and otherwise gives InvalidFeeConfiguration. The new vault has zero deposits, shares and yield, is unpaused, has every allocation slot zeroed and all four timestamps at `now`; fees and limits are stored as given |
| InitializeVault.NewVaultIsEmptyAtPar | programs/defi_yield_optimizer/src/instructions/initialize_vault.rs:82-83 | a new vault has zero shares and zero deposits and quotes one whole unit per share |
| InitializeProtocolAdapter.Handler | programs/defi_yield_optimizer/src/instructions/initialize_protocol_adapter.rs:32-71 | Unauthorized unless the vault's authority signs, then AllocationExceedsMaximum exactly when the cap is above MAX_REBALANCING_PERCENTAGE. The new adapter is active, with zero APY, liquidity and principal, 64 zero data bytes, the given cap and timestamps at `now` |
| InitializeProtocolAdapter.NewAdapterOffersNothing | programs/defi_yield_optimizer/src/instructions/initialize_protocol_adapter.rs:58-63 | a fresh adapter has effective APY 0 and accepts only a zero deposit |
| UpdateVaultConfig.Override | programs/defi_yield_optimizer/src/instructions/update_vault_config.rs:37-43 | a present value replaces the setting and an absent one keeps it |
| UpdateVaultConfig.Handler | programs/defi_yield_optimizer/src/instructions/update_vault_config.rs:17-50 | Unauthorized unless the authority signs, then success exactly when each present fee is within its maximum, and otherwise InvalidFeeConfiguration with nothing kept. Present settings are assigned, absent ones kept, deposit limits taken unvalidated, only `updated_at` changes besides |
| UpdateVaultConfig.UpdateIsIdempotent | programs/defi_yield_optimizer/src/instructions/update_vault_config.rs:27-45 | applying the same update twice equals applying it once |
| UpdateYieldData.Handler | programs/defi_yield_optimizer/src/instructions/update_yield_data.rs:25-38 | succeeds exactly when the authority signs, paused or not, and otherwise gives Unauthorized; the adapter then advertises the reported APY and liquidity, both timestamps are `now`, and every other field (keys, type, principal, activity, cap, data, creation time) is unchanged |
| UpdateYieldData.ReportedYieldIsEffective | programs/defi_yield_optimizer/src/instructions/update_yield_data.rs:33 | after a report, the effective APY is the reported APY when the adapter is active and the liquidity is positive, and 0 otherwise |
| Rebalance.Handler | programs/defi_yield_optimizer/src/instructions/rebalance.rs:17-42 | Unauthorized, then RebalancingCooldownActive when `now − last_rebalance < REBALANCING_COOLDOWN`, then VaultPaused; success exactly when none applies, and then only the rebalance time and `updated_at` change, to `now` |
| Rebalance.RebalanceTooSoonFails | programs/defi_yield_optimizer/src/instructions/rebalance.rs:21-24 | a second rebalance less than REBALANCING_COOLDOWN seconds after a successful one fails with RebalancingCooldownActive |
| Rebalance.RebalanceTwiceAtOnceFails | programs/defi_yield_optimizer/src/instructions/rebalance.rs:21-24 | with a positive cooldown, a second rebalance at the same instant fails with RebalancingCooldownActive |
| Rebalance.RebalanceAfterCooldownSucceeds | programs/defi_yield_optimizer/src/instructions/rebalance.rs:21-37 | after a successful rebalance, the next one succeeds once the cooldown has elapsed |
| CompoundRewards.Handler | programs/defi_yield_optimizer/src/instructions/compound_rewards.rs:17-35 | Unauthorized, then VaultPaused; success exactly when neither applies, and then only the compound time and `updated_at` change |
| CompoundRewards.CompoundIsRepeatable | programs/defi_yield_optimizer/src/instructions/compound_rewards.rs:21-30 | there is no cooldown: after a successful compound another one succeeds at any time |
| EmergencyWithdraw.Handler | programs/defi_yield_optimizer/src/instructions/emergency_withdraw.rs:17-33 | EmergencyWithdrawUnauthorized unless the authority signs; otherwise the vault is paused, whatever its state, and only `updated_at` changes besides |
| EmergencyWithdraw.EmergencyStopIsIdempotent | programs/defi_yield_optimizer/src/instructions/emergency_withdraw.rs:22-23 | stopping twice has the same effect as stopping once |
| EmergencyWithdraw.EmergencyStopHaltsVault | programs/defi_yield_optimizer/src/instructions/emergency_withdraw.rs:22 | after the stop every deposit, withdrawal and compound fails with VaultPaused, and every rebalance fails |
| Ledgers.Execute | programs/defi_yield_optimizer/src/instructions/deposit.rs:84-130 | per transaction, the recorded deposits change by exactly the tokens transferred in minus those transferred out; on a paused vault a transaction moves no tokens, changes no record, keeps the deposit and share totals and leaves the vault paused |
| Ledgers.Run | programs/defi_yield_optimizer/src/instructions/withdraw.rs:96-117 | over any transaction sequence, final deposits equal the initial deposits plus all tokens in minus all tokens out; once paused, the vault stays paused, no tokens move, and the records and the deposit and share totals stay as they were |
| Ledgers.ExecutePreservesConsistent | programs/defi_yield_optimizer/src/instructions/deposit.rs:117-130 | every successful transaction keeps the records' shares summing to the vault's minted shares, and keeps shares and deposits zero together |
| Ledgers.RunPreservesConsistent | programs/defi_yield_optimizer/src/instructions/withdraw.rs:109-117 | that consistency holds after any transaction sequence from a consistent start |
| Ledgers.WithdrawFailsOnlyOnOverflow | programs/defi_yield_optimizer/src/instructions/withdraw.rs:69-114 | in a consistent ledger, a withdrawal that passes its guards fails exactly when shares·deposits overflows a u64; the later checked subtractions cannot fail |
| Ledgers.DepositThenWithdrawNeverProfits | programs/defi_yield_optimizer/src/instructions/withdraw.rs:74 | depositing A into a vault whose shares and deposits are zero together and redeeming all the shares minted for it returns at most A |
| Scenarios.FirstDepositMintsOnePerUnit | programs/defi_yield_optimizer/src/state/vault.rs:56-59 | the first deposit into an empty vault succeeds, mints one share per unit and opens the depositor's record with those shares |
| Scenarios.TestSuiteScenario | tests/defi_yield_optimizer.ts:182-308 | the main suite's run: init, a 5,000 USDC deposit, a rejected 100-unit deposit, a 2,000-share withdrawal leaving 3,000/3,000, and a fee update to 100/1500 |
| Scenarios.DevnetAdapterScenario | tests/devnet-test.ts:122-155 | the devnet suite's adapter registration (code 0, cap 30) and yield report (1200, 100,000 USDC) |
| Scenarios.RebalanceRightAfterInitFails | tests/devnet-test.ts:182-194 | a rebalance less than REBALANCING_COOLDOWN seconds after vault creation fails with RebalancingCooldownActive |

## Left out

- Token-program calls (`transfer`, `mint_to`, `burn`) are left out. These are external programs. The model assumes they move exactly the amounts the handlers compute. `Deposit.Handler` and `Withdraw.Handler` return those amounts, and `Ledgers` counts them as tokens in and out.
- Account plumbing is left out:
  - account structs, address seeds and bumps;
  - `init` and `init_if_needed`;
  - rent and the `LEN` size constants.
  A first deposit receives the all-zero record `NEW_ACCOUNT`. In `Ledgers`, records are identified by position, so the runtime's one record per (depositor, vault) is not modelled.
- The clock is a `now` parameter.
- `msg!` logging is left out.
- The values in `constants.rs` are left out; `constants.rs` is not part of this model. `USDC_DECIMALS` is restricted to at most 19, the range in which `10_u64.pow` cannot overflow.
- `lib.rs` and `state/mod.rs` hold only dispatch and module wiring. `Ledgers.Execute` plays the dispatcher's role for the instructions that touch the vault or its records.
- Protocol adapters are not part of `Ledgers`. No handler connects an adapter's principal or yield to the vault's totals: the adapter `deposit`/`withdraw` methods have no caller. `Vaults.UpdateAllocations` likewise has no caller.
- `update_yield_data` requires that the adapter belongs to the vault. This account constraint carries no program error and is not modelled. `UpdateYieldData.Handler` takes the adapter as given.
- The unimplemented steps in the source's comments are not invented:
  - the allocation optimisation in rebalance;
  - the reward claim and reinvestment in compound;
  - the draining of adapters in the emergency stop.
- Errors that no code returns are declared in `VaultError` but never produced. These include MaxAdaptersReached, AdapterAlreadyInitialized, NoYieldImprovement, InsufficientLiquidity, RebalancingFailed, AdapterNotFound, InvalidTokenMint and InvalidProtocolType.
- Deposit.Handler: the capacity guard's `total_deposits + amount` is exact addition. The source's unchecked u64 addition would fail or wrap when the sum exceeds u64::MAX.
- Rebalance.Handler: the cooldown test `now - last_rebalance_timestamp` is exact subtraction. The source subtracts in i64, which overflows only for timestamps more than 2^63 seconds apart.
- UserAccounts.UpdateWithdrawal: the net amount is the exact difference of the two `as i64` readings. This equals the program's i64 arithmetic whenever that i64 subtraction does not overflow, in particular whenever both values are at most i64::MAX, the range `UserAccounts.RealizedGainsRule` states. Where the source's subtraction overflows, the model keeps the exact difference.

## Behaviour of the code worth noting

- Rebalance validates and commits no allocation. It takes no allocation argument and, after its authority, cooldown and pause checks, only moves the rebalance timestamp and `updated_at`.
- Compound leaves `total_yield_earned` unchanged. It only moves the compound timestamp and `updated_at`.
- Adapter registration checks no adapter count and no duplicate. Only the uniqueness of the adapter's derived address prevents a second adapter for the same vault and program.
- No instruction clears `is_paused`, so the vault cannot be unpaused. `Ledgers.Run` proves that a paused vault stays paused.
