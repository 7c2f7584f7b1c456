/** Machine integers and result types shared by the contract's modules. */
module Types {

  datatype Option<+T> = None | Some(value: T)

  datatype Result<+T> = Ok(value: T) | Err(error: Error)

  const U32_LIMIT: int := 0x1_0000_0000
  const U64_LIMIT: int := 0x1_0000_0000_0000_0000
  const U128_LIMIT: int := 0x1_0000_0000_0000_0000_0000_0000_0000_0000
  const I128_MAX: int := 0x7FFF_FFFF_FFFF_FFFF_FFFF_FFFF_FFFF_FFFF

  type u32 = x: int | 0 <= x < U32_LIMIT
  type u64 = x: int | 0 <= x < U64_LIMIT

  /** Addresses are compared for equality only; SELF is the contract's own address. */
  type Address = nat
  const SELF: Address := 0

  datatype Recipient = Recipient(address: Address, share: u32)

  /** A token balance: a non-negative i128. */
  type Balance = x: int | 0 <= x <= I128_MAX

  datatype Payment = Payment(to: Address, amount: int)

  /** The contract's error codes, and HostPanic for a trap raised by the host
      (missing authorization, a failed `expect`, a token call that traps). */
  datatype Error =
    | HostPanic
    | Underfunded
    | AlreadyInitialized
    | NoInitializationCommitment
    | InitRevealTooEarly
    | InitCommitmentMismatch
    | EmptyCollaborators
    | TooManyRecipients
    | LengthMismatch
    | InvalidShareTotal
    | ZeroShare
    | DuplicateRecipient
    | InvalidBasisPoints
    | NotInitialized
    | NoShareMap
    | ArithmeticOverflow
    | RoyaltyRateZero
    | RoyaltyRateTooHigh
    | ContractPaused
    | AmountNotPositive
    | InsufficientBalance
    | EmptyRecipients
    | AmountTooSmall
    | PoolExceedsBalance
    | NoSecondaryRoyalties
    | NoSecondaryToken
    | CollaboratorNotFound
    | InvalidUpdatedShareTotal
    | InputTooLarge
    | NoBalance
    | TooManyBatchTokens
    | RoyaltyAmountNotPositive
    | EmergencyContractPaused
    | TokenNotApproved
    | DisputeNotFound
    | DisputeAlreadyResolved
    | ProposalNotFound
    | ProposalVotingClosed
    | ProposalStillOpen
    | ProposalAlreadyExecuted
    | AlreadyVoted
    | InvalidProposalDuration

  function SaturatingAdd(x: int, y: int, limit: int): (r: int)
    requires 0 <= x < limit && 0 <= y
    ensures 0 <= r < limit
    ensures r == x + y || (r == limit - 1 && x + y >= limit)
  {
    if x + y < limit then x + y else limit - 1
  }

  function SaturatingSub(x: int, y: int): (r: int)
    ensures r >= 0
    ensures r == x - y || (r == 0 && x < y)
  {
    if x < y then 0 else x - y
  }
}
