/** The certificate operations the core asks OpenSSL for. They are fields of a
    record, so every result holds whatever OpenSSL answers. */
module OpenSsl {
  import opened Foundation

  datatype Certificate = Certificate(encoding: seq<Byte>)

  datatype ProblemKind =
    | NoIssuer
    | BadSignature
    | NotCa
    | TooLong
    | NotYetValid
    | Expired
    | UnhandledCriticalExtension
    | Other(code: int)

  datatype Problem = Problem(depth: nat, kind: ProblemKind)

  datatype PathOutcome = PathOutcome(chain: seq<Certificate>, anchored: bool, problems: seq<Problem>)

  datatype Library = Library(
    /** Whether the second certificate issued the first, its signature included. */
    issuedBy: (Certificate, Certificate) -> bool,
    sameAs: (Certificate, Certificate) -> bool,
    usableKey: Certificate -> bool,
    hasExtension: (Certificate, string) -> bool,
    /** `notBefore` and `notAfter` in Unix seconds; `None` when it does not read as a time. */
    notBefore: Certificate -> Option<int>,
    notAfter: Certificate -> Option<int>,
    /** Target, untrusted certificates, anchors, Unix second. */
    verifyPath: (Certificate, seq<Certificate>, seq<Certificate>, int) -> PathOutcome,
    /** Signer, signature, signed octets. */
    verifyEs256: (Certificate, seq<Byte>, seq<Byte>) -> bool,
    /** A certificate that OpenSSL parses whole and a strict reader decodes. */
    parse: seq<Byte> -> Option<Certificate>,
    /** Whether a Unix second can be written as an ASN.1 time. */
    asn1Time: int -> bool
  )
}
