/** The program's error enumeration and the Result type every handler
    returns. An error aborts the whole transaction, so a handler that fails
    leaves every account exactly as it was; the model expresses that by
    returning no state at all. */
module Errors {
  import opened Primitives

  /** `VaultError`, in declaration order. */
  datatype VaultError =
    | DepositBelowMinimum
    | VaultCapacityReached
    | InsufficientShares
    | InvalidFeeConfiguration
    | AdapterAlreadyInitialized
    | MaxAdaptersReached
    | InvalidProtocolType
    | AllocationExceedsMaximum
    | InsufficientLiquidity
    | RebalancingCooldownActive
    | NoYieldImprovement
    | Unauthorized
    | MathOverflow
    | InvalidTokenMint
    | VaultPaused
    | EmergencyWithdrawUnauthorized
    | InvalidWithdrawalAmount
    | AdapterNotFound
    | RebalancingFailed

  datatype Result<+T> = Ok(value: T) | Err(error: VaultError) {

    predicate IsFailure() {
      Err?
    }

    function PropagateFailure<U>(): Result<U>
      requires Err?
    {
      Err(error)
    }

    function Extract(): T
      requires Ok?
    {
      value
    }
  }

  /** `option.ok_or(e)`. */
  function OkOr<T>(o: Option<T>, e: VaultError): (r: Result<T>)
    ensures r.Ok? <==> o.Some?
    ensures r.Ok? ==> r.value == o.value
    ensures r.Err? ==> r.error == e
  {
    match o
    case Some(x) => Ok(x)
    case None => Err(e)
  }
}
