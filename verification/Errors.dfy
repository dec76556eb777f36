/** Replies of the contract's entry points. A failed call, whether it returns an error or
    traps, leaves the contract's storage and every token balance as they were. */
module Errors {

  datatype Error =
    | NotInitialized
    | InvalidAmount
    | InvalidCreditAmount
    | GateCreditTokenNotSet
    | NoWithdrawalRequest
    | WithdrawalNotYetUnlocked
    | InsufficientGateCredits
    | InvalidFeeTierSchedule
    | InvalidExemptionExpiry
    | InvalidKeeperRewardParams
    | KeeperRewardTokenNotSet
    | BatchTooLarge
    | ArithmeticOverflow
    | ContractPaused
    | EpochClosed
    | StaleAttestation
    | InvalidAttestation
    | RelayTipTokenNotSet
    | SubmissionRejected
    | Trapped

  datatype Reply = Ok(value: int) | Fail(error: Error)
}
