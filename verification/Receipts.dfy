/** A decoded receipt, as every port of the verifier holds it. */
module Receipts {
  import opened Foundation

  /** An attribute type and its raw values, in receipt order. */
  type Attributes = map<Int64, seq<seq<Byte>>>

  datatype Purchase = Purchase(
    quantity: Option<Int64>,
    productId: Option<string>,
    transactionId: Option<string>,
    purchaseDateMs: Option<Int64>,
    originalTransactionId: Option<string>,
    originalPurchaseDateMs: Option<Int64>,
    expiresDateMs: Option<Int64>,
    webOrderLineItemId: Option<Int64>,
    cancellationDateMs: Option<Int64>,
    cancellationReason: Option<Int64>,
    isTrialPeriod: Option<bool>,
    isInIntroOfferPeriod: Option<bool>,
    unknownAttributes: Attributes)

  datatype Receipt = Receipt(
    receiptType: Option<string>,
    appItemId: Option<Int64>,
    bundleId: Option<string>,
    bundleIdBytes: Option<seq<Byte>>,
    applicationVersion: Option<string>,
    opaqueValue: Option<seq<Byte>>,
    sha1Hash: Option<seq<Byte>>,
    receiptCreationDateMs: Option<Int64>,
    downloadId: Option<Int64>,
    versionExternalIdentifier: Option<Int64>,
    inApp: seq<Purchase>,
    originalPurchaseDateMs: Option<Int64>,
    preorderDateMs: Option<Int64>,
    originalApplicationVersion: Option<string>,
    expirationDateMs: Option<Int64>,
    unknownAttributes: Attributes)
}
