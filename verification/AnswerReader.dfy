/** Reading the endpoint's answer back: it states every field of the receipt that
    Apple's answer has a key for, and the request's date. */
module AnswerReader {
  import opened Foundation
  import opened Decimal
  import opened Json
  import opened ReceiptDates
  import opened Receipts
  import opened Endpoint

  function Lookup(json: Members, key: string): Option<Value> {
    if key in json then Some(json[key]) else None
  }

  function TextAt(json: Members, key: string): Option<string> {
    match Lookup(json, key) case Some(Text(t)) => Some(t) case _ => None
  }

  function NumberAt(json: Members, key: string): Option<Int64> {
    match Lookup(json, key) case Some(Atom(literal)) => ParseInt(literal) case _ => None
  }

  function NumberTextAt(json: Members, key: string): Option<Int64> {
    match TextAt(json, key) case Some(t) => ParseInt(t) case None => None
  }

  function FlagAt(json: Members, key: string): Option<bool> {
    match TextAt(json, key)
    case Some(t) => if t == "true" then Some(true) else if t == "false" then Some(false) else None
    case None => None
  }

  function DateAt(json: Members, prefix: string): Option<Int64> {
    NumberTextAt(json, prefix + "_ms")
  }

  function ReadPurchase(json: Members): Purchase {
    Purchase(
      NumberTextAt(json, "quantity"),
      TextAt(json, "product_id"),
      TextAt(json, "transaction_id"),
      DateAt(json, "purchase_date"),
      TextAt(json, "original_transaction_id"),
      DateAt(json, "original_purchase_date"),
      DateAt(json, "expires_date"),
      NumberTextAt(json, "web_order_line_item_id"),
      DateAt(json, "cancellation_date"),
      NumberTextAt(json, "cancellation_reason"),
      FlagAt(json, "is_trial_period"),
      FlagAt(json, "is_in_intro_offer_period"),
      map[])
  }

  function ReadPurchases(items: seq<Value>): seq<Purchase> {
    if items == [] then []
    else [ReadPurchase(if items[0].Object? then items[0].members else map[])] + ReadPurchases(items[1..])
  }

  function ReadReceipt(json: Members): Receipt {
    Receipt(
      TextAt(json, "receipt_type"),
      NumberAt(json, "app_item_id"),
      TextAt(json, "bundle_id"),
      None,
      TextAt(json, "application_version"),
      None,
      None,
      DateAt(json, "receipt_creation_date"),
      NumberAt(json, "download_id"),
      NumberAt(json, "version_external_identifier"),
      (match Lookup(json, "in_app") case Some(Array(items)) => ReadPurchases(items) case _ => []),
      DateAt(json, "original_purchase_date"),
      DateAt(json, "preorder_date"),
      TextAt(json, "original_application_version"),
      DateAt(json, "expiration_date"),
      map[])
  }

  // ---------------------------------------------------------------------
  // What has no key in the answer.

  /** A purchase as the answer states it: a web order line item id of 0 is left out,
      as for consumables. */
  function StatedPurchase(p: Purchase): Purchase {
    p.(unknownAttributes := map[],
       webOrderLineItemId := if p.webOrderLineItemId == Some(0) then None else p.webOrderLineItemId)
  }

  function StatedPurchases(ps: seq<Purchase>): seq<Purchase> {
    if ps == [] then [] else [StatedPurchase(ps[0])] + StatedPurchases(ps[1..])
  }

  function StatedReceipt(r: Receipt): Receipt {
    r.(bundleIdBytes := None, opaqueValue := None, sha1Hash := None, unknownAttributes := map[],
       inApp := StatedPurchases(r.inApp))
  }

  // ---------------------------------------------------------------------
  // Looking fields up.

  lemma FieldLookup(json: Members, fields: seq<Field>, i: nat)
    requires Holds(json, fields) && i < |fields|
    ensures Lookup(json, fields[i].key) == fields[i].value
  {
  }

  lemma TextBack(json: Members, key: string, value: Option<string>)
    requires Lookup(json, key) == TextOf(value)
    ensures TextAt(json, key) == value
  {
  }

  lemma NumberBack(json: Members, key: string, value: Option<Int64>)
    requires Lookup(json, key) == NumberOf(value)
    ensures NumberAt(json, key) == value
  {
    hide ParseInt, FormatInt;
    if value.Some? {
      ParseOfFormat(value.value);
    }
  }

  lemma NumberTextBack(json: Members, key: string, value: Option<Int64>)
    requires Lookup(json, key) == NumberTextOf(value)
    ensures NumberTextAt(json, key) == value
  {
    hide ParseInt, FormatInt;
    if value.Some? {
      ParseOfFormat(value.value);
    }
  }

  lemma FlagBack(json: Members, key: string, value: Option<bool>)
    requires Lookup(json, key) == FlagTextOf(value)
    ensures FlagAt(json, key) == value
  {
    assert |"true"| != |"false"|;
  }

  /** The three forms of a date, wherever its fields stand in the table. */
  lemma DateBack(json: Members, fields: seq<Field>, at: nat, pacific: Zone, prefix: string, millis: Option<Int64>)
    requires Holds(json, fields) && at + 3 <= |fields| && fields[at..at + 3] == DateFields(pacific, prefix, millis)
    ensures DateAt(json, prefix) == millis
    ensures DateForms(json, pacific, prefix, millis)
  {
    hide Holds, FormatEtcGmt, FormatPacific, ParseInt, FormatInt;
    var dates := fields[at..at + 3];
    assert fields[at] == dates[0] && fields[at + 1] == dates[1] && fields[at + 2] == dates[2];
    FieldLookup(json, fields, at);
    FieldLookup(json, fields, at + 1);
    FieldLookup(json, fields, at + 2);
    NumberTextBack(json, prefix + "_ms", millis);
  }

  /** `x` is the GMT text and `x_pst` the Pacific one; neither is there without a date. */
  ghost predicate DateForms(json: Members, pacific: Zone, prefix: string, millis: Option<Int64>) {
    match millis
    case None => prefix !in json && prefix + "_ms" !in json && prefix + "_pst" !in json
    case Some(m) =>
      && TextAt(json, prefix) == FormatEtcGmt(m)
      && TextAt(json, prefix + "_pst") == FormatPacific(pacific, m)
  }

  // ---------------------------------------------------------------------
  // A purchase.

  lemma PurchaseDates(pacific: Zone, p: Purchase, json: Members)
    requires Holds(json, PurchaseFields(pacific, p))
    ensures DateAt(json, "purchase_date") == p.purchaseDateMs
    ensures DateAt(json, "original_purchase_date") == p.originalPurchaseDateMs
    ensures DateAt(json, "expires_date") == p.expiresDateMs
    ensures DateAt(json, "cancellation_date") == p.cancellationDateMs
    ensures DateForms(json, pacific, "purchase_date", p.purchaseDateMs)
    ensures DateForms(json, pacific, "original_purchase_date", p.originalPurchaseDateMs)
    ensures DateForms(json, pacific, "expires_date", p.expiresDateMs)
    ensures DateForms(json, pacific, "cancellation_date", p.cancellationDateMs)
  {
    hide Holds, DateFields, DateAt, DateForms, PurchaseHead, PurchaseTail;
    var fields := PurchaseFields(pacific, p);
    var a := DateFields(pacific, "purchase_date", p.purchaseDateMs);
    var b := DateFields(pacific, "original_purchase_date", p.originalPurchaseDateMs);
    var c := DateFields(pacific, "expires_date", p.expiresDateMs);
    var d := DateFields(pacific, "cancellation_date", p.cancellationDateMs);
    HeadAndTailSizes(p);
    assert fields[4..7] == a && fields[7..10] == b && fields[10..13] == c && fields[13..16] == d;
    DateBack(json, fields, 4, pacific, "purchase_date", p.purchaseDateMs);
    DateBack(json, fields, 7, pacific, "original_purchase_date", p.originalPurchaseDateMs);
    DateBack(json, fields, 10, pacific, "expires_date", p.expiresDateMs);
    DateBack(json, fields, 13, pacific, "cancellation_date", p.cancellationDateMs);
  }

  lemma HeadAndTailSizes(p: Purchase)
    ensures |PurchaseHead(p)| == 4 && |PurchaseTail(p)| == 4
  {
  }

  lemma PurchaseEnds(pacific: Zone, p: Purchase, json: Members)
    requires Holds(json, PurchaseFields(pacific, p))
    ensures forall i :: 0 <= i < 4 ==> Lookup(json, PurchaseHead(p)[i].key) == PurchaseHead(p)[i].value
    ensures forall i :: 0 <= i < 4 ==> Lookup(json, PurchaseTail(p)[i].key) == PurchaseTail(p)[i].value
  {
    hide Holds, DateFields, PurchaseHead, PurchaseTail, Lookup;
    var fields := PurchaseFields(pacific, p);
    HeadAndTailSizes(p);
    forall i | 0 <= i < 4 ensures Lookup(json, PurchaseHead(p)[i].key) == PurchaseHead(p)[i].value {
      FieldLookup(json, fields, i);
    }
    forall i | 0 <= i < 4 ensures Lookup(json, PurchaseTail(p)[i].key) == PurchaseTail(p)[i].value {
      FieldLookup(json, fields, 16 + i);
    }
  }

  lemma PurchaseHeadBack(json: Members, p: Purchase)
    requires forall i :: 0 <= i < 4 ==> Lookup(json, PurchaseHead(p)[i].key) == PurchaseHead(p)[i].value
    ensures NumberTextAt(json, "quantity") == p.quantity && TextAt(json, "product_id") == p.productId
    ensures TextAt(json, "transaction_id") == p.transactionId
    ensures TextAt(json, "original_transaction_id") == p.originalTransactionId
  {
    hide Lookup, TextAt, NumberTextAt, TextOf, NumberTextOf;
    var head := PurchaseHead(p);
    assert Lookup(json, head[0].key) == head[0].value && Lookup(json, head[1].key) == head[1].value;
    assert Lookup(json, head[2].key) == head[2].value && Lookup(json, head[3].key) == head[3].value;
    NumberTextBack(json, "quantity", p.quantity);
    TextBack(json, "product_id", p.productId);
    TextBack(json, "transaction_id", p.transactionId);
    TextBack(json, "original_transaction_id", p.originalTransactionId);
  }

  lemma PurchaseTailBack(json: Members, p: Purchase)
    requires forall i :: 0 <= i < 4 ==> Lookup(json, PurchaseTail(p)[i].key) == PurchaseTail(p)[i].value
    ensures NumberTextAt(json, "cancellation_reason") == p.cancellationReason
    ensures NumberTextAt(json, "web_order_line_item_id")
         == if p.webOrderLineItemId == Some(0) then None else p.webOrderLineItemId
    ensures FlagAt(json, "is_trial_period") == p.isTrialPeriod
    ensures FlagAt(json, "is_in_intro_offer_period") == p.isInIntroOfferPeriod
  {
    hide Lookup, TextAt, NumberTextAt, FlagAt, FlagTextOf;
    var tail := PurchaseTail(p);
    assert Lookup(json, tail[0].key) == tail[0].value && Lookup(json, tail[1].key) == tail[1].value;
    assert Lookup(json, tail[2].key) == tail[2].value && Lookup(json, tail[3].key) == tail[3].value;
    NumberTextBack(json, "cancellation_reason", p.cancellationReason);
    NumberTextBack(json, "web_order_line_item_id",
                   if p.webOrderLineItemId == Some(0) then None else p.webOrderLineItemId);
    FlagBack(json, "is_trial_period", p.isTrialPeriod);
    FlagBack(json, "is_in_intro_offer_period", p.isInIntroOfferPeriod);
  }

  lemma PurchaseBack(pacific: Zone, p: Purchase, json: Members)
    requires Holds(json, PurchaseFields(pacific, p))
    ensures ReadPurchase(json) == StatedPurchase(p)
  {
    hide Holds, PurchaseFields, PurchaseHead, PurchaseTail, DateForms, DateAt, TextAt, NumberTextAt, FlagAt, Lookup;
    PurchaseDates(pacific, p, json);
    PurchaseEnds(pacific, p, json);
    PurchaseHeadBack(json, p);
    PurchaseTailBack(json, p);
  }

  lemma {:induction false} PurchasesBack(pacific: Zone, ps: seq<Purchase>)
    ensures ReadPurchases(PurchaseObjects(pacific, ps)) == StatedPurchases(ps)
  {
    if ps != [] {
      hide ReadPurchase, StatedPurchase, PurchaseFields, Fill, KeysDiffer, Holds;
      PurchaseKeysDiffer(pacific, ps[0]);
      FillHolds(PurchaseFields(pacific, ps[0]));
      PurchaseBack(pacific, ps[0], PurchaseObject(pacific, ps[0]).members);
      PurchasesBack(pacific, ps[1..]);
      assert PurchaseObjects(pacific, ps)[1..] == PurchaseObjects(pacific, ps[1..]);
    }
  }

  // ---------------------------------------------------------------------
  // The receipt.

  lemma ReceiptDatesBack(pacific: Zone, r: Receipt, now: Int64, inApp: seq<Value>, json: Members)
    requires Holds(json, ReceiptFields(pacific, r, now, inApp))
    ensures DateAt(json, "receipt_creation_date") == r.receiptCreationDateMs && DateAt(json, "request_date") == Some(now)
    ensures DateAt(json, "original_purchase_date") == r.originalPurchaseDateMs
    ensures DateAt(json, "preorder_date") == r.preorderDateMs && DateAt(json, "expiration_date") == r.expirationDateMs
    ensures DateForms(json, pacific, "receipt_creation_date", r.receiptCreationDateMs)
    ensures DateForms(json, pacific, "request_date", Some(now))
    ensures DateForms(json, pacific, "original_purchase_date", r.originalPurchaseDateMs)
    ensures DateForms(json, pacific, "preorder_date", r.preorderDateMs)
    ensures DateForms(json, pacific, "expiration_date", r.expirationDateMs)
  {
    hide Holds, DateFields, DateAt, DateForms, PlainFields;
    var fields := ReceiptFields(pacific, r, now, inApp);
    var a := DateFields(pacific, "receipt_creation_date", r.receiptCreationDateMs);
    var b := DateFields(pacific, "request_date", Some(now));
    var c := DateFields(pacific, "original_purchase_date", r.originalPurchaseDateMs);
    var d := DateFields(pacific, "preorder_date", r.preorderDateMs);
    var e := DateFields(pacific, "expiration_date", r.expirationDateMs);
    assert fields[8..11] == a && fields[11..14] == b && fields[14..17] == c && fields[17..20] == d && fields[20..23] == e;
    DateBack(json, fields, 8, pacific, "receipt_creation_date", r.receiptCreationDateMs);
    DateBack(json, fields, 11, pacific, "request_date", Some(now));
    DateBack(json, fields, 14, pacific, "original_purchase_date", r.originalPurchaseDateMs);
    DateBack(json, fields, 17, pacific, "preorder_date", r.preorderDateMs);
    DateBack(json, fields, 20, pacific, "expiration_date", r.expirationDateMs);
  }

  lemma PlainLookup(pacific: Zone, r: Receipt, now: Int64, inApp: seq<Value>, json: Members)
    requires Holds(json, ReceiptFields(pacific, r, now, inApp))
    ensures forall i :: 0 <= i < 8 ==> Lookup(json, PlainFields(r)[i].key) == PlainFields(r)[i].value
    ensures Lookup(json, "in_app") == Some(Array(inApp))
  {
    hide Holds, DateFields, PlainFields, Lookup;
    var fields := ReceiptFields(pacific, r, now, inApp);
    forall i | 0 <= i < 8 ensures Lookup(json, PlainFields(r)[i].key) == PlainFields(r)[i].value {
      FieldLookup(json, fields, i);
    }
    FieldLookup(json, fields, 23);
  }

  lemma PlainBack(json: Members, r: Receipt)
    requires forall i :: 0 <= i < 8 ==> Lookup(json, PlainFields(r)[i].key) == PlainFields(r)[i].value
    ensures TextAt(json, "receipt_type") == r.receiptType && TextAt(json, "bundle_id") == r.bundleId
    ensures NumberAt(json, "app_item_id") == r.appItemId && NumberAt(json, "adam_id") == r.appItemId
    ensures TextAt(json, "application_version") == r.applicationVersion
    ensures NumberAt(json, "version_external_identifier") == r.versionExternalIdentifier
    ensures TextAt(json, "original_application_version") == r.originalApplicationVersion
    ensures NumberAt(json, "download_id") == r.downloadId
    ensures r.downloadId.None? ==> Lookup(json, "download_id") == Some(Null)
  {
    hide Lookup, TextAt, NumberAt, TextOf, ParseInt, FormatInt;
    var plain := PlainFields(r);
    assert Lookup(json, plain[0].key) == plain[0].value && Lookup(json, plain[1].key) == plain[1].value;
    assert Lookup(json, plain[2].key) == plain[2].value && Lookup(json, plain[3].key) == plain[3].value;
    assert Lookup(json, plain[4].key) == plain[4].value && Lookup(json, plain[5].key) == plain[5].value;
    assert Lookup(json, plain[6].key) == plain[6].value && Lookup(json, plain[7].key) == plain[7].value;
    TextBack(json, "receipt_type", r.receiptType);
    NumberBack(json, "adam_id", r.appItemId);
    NumberBack(json, "app_item_id", r.appItemId);
    TextBack(json, "bundle_id", r.bundleId);
    TextBack(json, "application_version", r.applicationVersion);
    OrNullBack(json, "download_id", r.downloadId);
    NumberBack(json, "version_external_identifier", r.versionExternalIdentifier);
    TextBack(json, "original_application_version", r.originalApplicationVersion);
  }

  lemma OrNullBack(json: Members, key: string, value: Option<Int64>)
    requires Lookup(json, key) == Some(if value.None? then Null else Atom(FormatInt(value.value)))
    ensures NumberAt(json, key) == value
  {
    hide ParseInt, FormatInt;
    if value.Some? {
      ParseOfFormat(value.value);
    }
  }

  /** Every status-0 answer reads back as the receipt it was made from, but for what
      has no key in it, and states the request's date. */
  lemma AnswerReadsBack(pacific: Zone, r: Receipt, now: Int64)
    ensures var json := ReceiptObject(pacific, r, now).members;
            && ReadReceipt(json) == StatedReceipt(r)
            && NumberAt(json, "adam_id") == r.appItemId
            && (r.downloadId.None? ==> Lookup(json, "download_id") == Some(Null))
            && DateAt(json, "request_date") == Some(now)
            && DateForms(json, pacific, "request_date", Some(now))
            && DateForms(json, pacific, "receipt_creation_date", r.receiptCreationDateMs)
            && DateForms(json, pacific, "original_purchase_date", r.originalPurchaseDateMs)
            && DateForms(json, pacific, "preorder_date", r.preorderDateMs)
            && DateForms(json, pacific, "expiration_date", r.expirationDateMs)
  {
    hide Holds, ReceiptFields, PlainFields, Fill, DateAt, DateForms, TextAt, NumberAt, Lookup, KeysDiffer, PurchaseObjects,
      ReadPurchases, StatedPurchases;
    var inApp := PurchaseObjects(pacific, r.inApp);
    var fields := ReceiptFields(pacific, r, now, inApp);
    ReceiptKeysDiffer(pacific, r, now, inApp);
    FillHolds(fields);
    var json := ReceiptObject(pacific, r, now).members;
    ReceiptDatesBack(pacific, r, now, inApp, json);
    PlainLookup(pacific, r, now, inApp, json);
    PlainBack(json, r);
    PurchasesBack(pacific, r.inApp);
  }
}
