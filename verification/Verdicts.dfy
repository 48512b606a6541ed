/** Apple's two environments, and the reasons and details a verification can fail with. */
module Verdicts {
  datatype Environment = Production | Sandbox

  datatype Reason =
    | Malformed
    | TooLarge
    | InvalidSignature
    | UntrustedChain
    | InvalidCertificate
    | InvalidCertificatePurpose
    | UnreadablePayload
    | InternalError

  /** What a path failure names. */
  datatype Detail =
    | NoPinnedRoot
    | IntermediateNotCa
    | ChainTooLong
    | OutsideValidity
    | CriticalExtension
    | NotIssuedByRoot
    | NotIssuedByIntermediate
    | UnusableKey
    | DoesNotValidate
    | NotTheExpectedPath
    | NoDetail

  datatype Failure = Failure(reason: Reason, detail: Detail)
}
