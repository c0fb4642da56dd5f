/** One vault together with every depositor record that refers to it, driven
    by sequences of instructions. Each instruction is one transaction: when
    its handler returns an error the transaction reverts and the state is
    unchanged. Depositor records are identified by their position; the
    runtime's one-record-per-(depositor, vault) address derivation is not
    part of this model. The token amounts the handlers hand to the token
    program are collected so that the vault's bookkeeping can be compared
    with the tokens that actually moved. */
module Ledgers {
  import opened Primitives
  import opened Errors
  import opened Vaults
  import opened UserAccounts
  import Deposit
  import Withdraw
  import UpdateVaultConfig
  import Rebalance
  import CompoundRewards
  import EmergencyWithdraw

  datatype Ledger = Ledger(vaultKey: Pubkey, vault: Vault, users: seq<UserAccount>)

  /** The instructions that act on the vault or its depositor records. A
      deposit names an existing record by position, or the next free
      position to open a new one; a withdrawal must name an existing one. */
  datatype Instruction =
    | DepositIx(account: nat, depositor: Pubkey, amount: U64)
    | WithdrawIx(account: nat, shares: U64)
    | UpdateConfigIx(signer: Pubkey, managementFee: Option<U16>, performanceFee: Option<U16>,
                     minimumDeposit: Option<U64>, maximumTotalDeposit: Option<U64>)
    | RebalanceIx(signer: Pubkey)
    | CompoundIx(signer: Pubkey)
    | EmergencyWithdrawIx(signer: Pubkey)

  /** A transaction: one instruction and the clock reading it observes. */
  datatype Transaction = Transaction(ix: Instruction, now: I64)

  /** The state after some transactions, with the stablecoin tokens that
      moved into and out of the vault's token account meanwhile. */
  datatype Step = Step(ledger: Ledger, tokensIn: nat, tokensOut: nat)

  /** The shares held by all the records together. */
  function SumShares(users: seq<UserAccount>): nat
  {
    if |users| == 0 then 0 else SumShares(users[..|users| - 1]) + users[|users| - 1].sharesOwned
  }

  lemma SumSharesAppend(users: seq<UserAccount>, a: UserAccount)
    ensures SumShares(users + [a]) == SumShares(users) + a.sharesOwned
  {
    assert (users + [a])[..|users|] == users;
  }

  /** Replacing one record changes the total by exactly the change in that
      record's shares. */
  lemma {:induction false} SumSharesUpdate(users: seq<UserAccount>, i: nat, a: UserAccount)
    requires i < |users|
    ensures SumShares(users[i := a]) + users[i].sharesOwned == SumShares(users) + a.sharesOwned
  {
    var n := |users| - 1;
    if i < n {
      assert users[i := a][..n] == users[..n][i := a];
      SumSharesUpdate(users[..n], i, a);
    } else {
      assert users[i := a][..n] == users[..n];
    }
  }

  /** No record holds more shares than all records together. */
  lemma {:induction false} HoldingAtMostSum(users: seq<UserAccount>, i: nat)
    requires i < |users|
    ensures users[i].sharesOwned <= SumShares(users)
  {
    var n := |users| - 1;
    if i < n {
      HoldingAtMostSum(users[..n], i);
    }
  }

  /** The shares the records hold add up to the shares the vault has
      minted, and the vault has shares exactly when it has deposits. */
  predicate Consistent(l: Ledger)
  {
    SumShares(l.users) == l.vault.totalSharesMinted && ZeroTogether(l.vault)
  }

  /** The ledger with the vault replaced and the records unchanged. */
  function WithVault(l: Ledger, r: Result<Vault>): (s: Option<Step>)
    ensures r.Ok? <==> s.Some?
    ensures s.Some? ==> s.value == Step(l.(vault := r.value), 0, 0)
  {
    match r
    case Ok(v) => Some(Step(l.(vault := v), 0, 0))
    case Err(_) => None
  }

  /** One transaction. None means the handler returned an error (or named a
      record that does not exist) and the transaction reverted. On success
      the vault's deposits change by exactly the tokens that moved, the
      vault key never changes, records are never removed, and a paused vault
      moves no tokens, touches no record, keeps its deposits and shares, and
      stays paused. */
  function Execute(l: Ledger, ix: Instruction, now: I64): (r: Option<Step>)
    ensures r.Some? ==> r.value.ledger.vault.totalDeposits + r.value.tokensOut
                        == l.vault.totalDeposits + r.value.tokensIn
    ensures r.Some? ==> r.value.ledger.vaultKey == l.vaultKey && |l.users| <= |r.value.ledger.users|
    ensures r.Some? && l.vault.isPaused ==>
      && r.value.ledger.vault.isPaused
      && r.value.tokensIn == 0 && r.value.tokensOut == 0
      && r.value.ledger.users == l.users
      && r.value.ledger.vault.totalDeposits == l.vault.totalDeposits
      && r.value.ledger.vault.totalSharesMinted == l.vault.totalSharesMinted
  {
    match ix
    case DepositIx(i, depositor, amount) =>
      if i > |l.users| then None
      else
        var user := if i == |l.users| then NEW_ACCOUNT else l.users[i];
        var users := if i == |l.users| then l.users + [NEW_ACCOUNT] else l.users;
        (match Deposit.Handler(l.vault, user, depositor, l.vaultKey, amount, now)
         case Ok(d) => Some(Step(Ledger(l.vaultKey, d.vault, users[i := d.user]), amount, 0))
         case Err(_) => None)
    case WithdrawIx(i, shares) =>
      if i >= |l.users| then None
      else
        (match Withdraw.Handler(l.vault, l.users[i], shares, now)
         case Ok(w) => Some(Step(Ledger(l.vaultKey, w.vault, l.users[i := w.user]), 0, w.tokensReturned))
         case Err(_) => None)
    case UpdateConfigIx(signer, mf, pf, minD, maxD) =>
      WithVault(l, UpdateVaultConfig.Handler(l.vault, signer, mf, pf, minD, maxD, now))
    case RebalanceIx(signer) =>
      WithVault(l, Rebalance.Handler(l.vault, signer, now))
    case CompoundIx(signer) =>
      WithVault(l, CompoundRewards.Handler(l.vault, signer, now))
    case EmergencyWithdrawIx(signer) =>
      WithVault(l, EmergencyWithdraw.Handler(l.vault, signer, now))
  }

  /** A reverted transaction leaves the state as it was and moves nothing. */
  function Apply(l: Ledger, t: Transaction): (r: Step)
    ensures r.ledger.vault.totalDeposits + r.tokensOut == l.vault.totalDeposits + r.tokensIn
    ensures l.vault.isPaused ==>
      && r.ledger.vault.isPaused
      && r.tokensIn == 0 && r.tokensOut == 0
      && r.ledger.users == l.users
      && r.ledger.vault.totalDeposits == l.vault.totalDeposits
      && r.ledger.vault.totalSharesMinted == l.vault.totalSharesMinted
  {
    match Execute(l, t.ix, t.now)
    case Some(s) => s
    case None => Step(l, 0, 0)
  }

  /** A sequence of transactions, with the tokens moved by all of them.
      Token flow is conserved: the vault's recorded deposits end at the
      starting deposits plus everything paid in minus everything paid out.
      Once paused, the vault stays paused, no tokens move, and neither the
      records nor the vault's deposits and shares change, whatever is
      submitted; configuration updates and the other authority instructions
      still apply. */
  function Run(l: Ledger, txs: seq<Transaction>): (r: Step)
    ensures r.ledger.vault.totalDeposits + r.tokensOut == l.vault.totalDeposits + r.tokensIn
    ensures l.vault.isPaused ==>
      && r.ledger.vault.isPaused
      && r.tokensIn == 0 && r.tokensOut == 0
      && r.ledger.users == l.users
      && r.ledger.vault.totalDeposits == l.vault.totalDeposits
      && r.ledger.vault.totalSharesMinted == l.vault.totalSharesMinted
    decreases |txs|
  {
    if |txs| == 0 then Step(l, 0, 0)
    else
      var first := Apply(l, txs[0]);
      var rest := Run(first.ledger, txs[1..]);
      Step(rest.ledger, first.tokensIn + rest.tokensIn, first.tokensOut + rest.tokensOut)
  }

  /** Every successful transaction keeps the ledger consistent. */
  lemma ExecutePreservesConsistent(l: Ledger, ix: Instruction, now: I64)
    requires Consistent(l)
    requires Execute(l, ix, now).Some?
    ensures Consistent(Execute(l, ix, now).value.ledger)
  {
    match ix
    case DepositIx(i, depositor, amount) =>
      var user := if i == |l.users| then NEW_ACCOUNT else l.users[i];
      var users := if i == |l.users| then l.users + [NEW_ACCOUNT] else l.users;
      if i == |l.users| {
        SumSharesAppend(l.users, NEW_ACCOUNT);
      } else {
        HoldingAtMostSum(l.users, i);
      }
      assert SumShares(users) == l.vault.totalSharesMinted;
      assert user == users[i];
      Deposit.DepositorReceivesMintedShares(l.vault, user, depositor, l.vaultKey, amount, now);
      Deposit.DepositKeepsZeroTogether(l.vault, user, depositor, l.vaultKey, amount, now);
      var d := Deposit.Handler(l.vault, user, depositor, l.vaultKey, amount, now).value;
      SumSharesUpdate(users, i, d.user);
    case WithdrawIx(i, shares) =>
      Withdraw.WithdrawKeepsZeroTogether(l.vault, l.users[i], shares, now);
      var w := Withdraw.Handler(l.vault, l.users[i], shares, now).value;
      SumSharesUpdate(l.users, i, w.user);
    case UpdateConfigIx(_, _, _, _, _) =>
    case RebalanceIx(_) =>
    case CompoundIx(_) =>
    case EmergencyWithdrawIx(_) =>
  }

  /** Consistency holds after any sequence of transactions that starts from
      a consistent ledger. */
  lemma {:induction false} RunPreservesConsistent(l: Ledger, txs: seq<Transaction>)
    requires Consistent(l)
    ensures Consistent(Run(l, txs).ledger)
    decreases |txs|
  {
    if |txs| > 0 {
      if Execute(l, txs[0].ix, txs[0].now).Some? {
        ExecutePreservesConsistent(l, txs[0].ix, txs[0].now);
      }
      RunPreservesConsistent(Apply(l, txs[0]).ledger, txs[1..]);
    }
  }

  /** In a consistent ledger a withdrawal that passes the handler's guards
      can fail only because shares * deposits overflows a u64: the vault
      always has at least the shares being redeemed and the deposits to pay
      for them. */
  lemma WithdrawFailsOnlyOnOverflow(l: Ledger, i: nat, shares: U64, now: I64)
    requires Consistent(l)
    requires i < |l.users|
    requires Withdraw.Admissible(l.vault, l.users[i], shares)
    ensures Withdraw.Handler(l.vault, l.users[i], shares, now).Ok?
            <==> shares * l.vault.totalDeposits <= U64_MAX
  {
    HoldingAtMostSum(l.users, i);
  }

  /** Depositing `amount` into a vault whose shares and deposits are zero
      together, and then redeeming all the shares that deposit minted,
      returns at most `amount`. */
  lemma DepositThenWithdrawNeverProfits(v: Vault, user: UserAccount, depositor: Pubkey,
                                        vaultKey: Pubkey, amount: U64, now: I64, later: I64)
    requires ZeroTogether(v)
    requires Deposit.Handler(v, user, depositor, vaultKey, amount, now).Ok?
    ensures var d := Deposit.Handler(v, user, depositor, vaultKey, amount, now).value;
      var w := Withdraw.Handler(d.vault, d.user, d.sharesMinted, later);
      w.Ok? ==> w.value.tokensReturned <= amount
  {
    var d := Deposit.Handler(v, user, depositor, vaultKey, amount, now).value;
    RoundTripNeverProfits(v, amount, d.vault);
  }
}
