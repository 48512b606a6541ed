/** The stand-in for Apple's `verifyReceipt` endpoint, `rust/src/endpoint.rs`:
    the status a request gets, and the fields of the answer. The receipt's own
    verification enters as an arbitrary result. */
module Endpoint {
  import opened Foundation
  import opened Verdicts
  import opened Decimal
  import opened Json
  import opened ReceiptDates
  import opened Receipts

  const MAX_REQUEST_BYTES: nat := 3_145_728

  const OK: int := 0
  const MALFORMED_RECEIPT_DATA: int := 21002
  const RECEIPT_NOT_AUTHENTICATED: int := 21003
  const SANDBOX_RECEIPT_ON_PRODUCTION: int := 21007
  const PRODUCTION_RECEIPT_ON_SANDBOX: int := 21008
  const INTERNAL_DATA_ACCESS_ERROR: int := 21009

  const IN_APP_ATTRIBUTE: Int64 := 17

  // ---------------------------------------------------------------------
  // The fields of the answer, as a table: which keys, and what each holds.

  datatype Field = Field(key: string, value: Option<Value>)

  function TextOf(value: Option<string>): Option<Value> {
    match value case None => None case Some(t) => Some(Text(t))
  }

  function NumberOf(value: Option<Int64>): Option<Value> {
    match value case None => None case Some(n) => Some(Atom(FormatInt(n)))
  }

  function NumberTextOf(value: Option<Int64>): Option<Value> {
    match value case None => None case Some(n) => Some(Text(FormatInt(n)))
  }

  function FlagTextOf(value: Option<bool>): Option<Value> {
    match value case None => None case Some(flag) => Some(Text(if flag then "true" else "false"))
  }

  function DateFields(pacific: Zone, prefix: string, millis: Option<Int64>): (fields: seq<Field>)
    ensures |fields| == 3
  {
    [Field(prefix, if millis.None? then None else TextOf(FormatEtcGmt(millis.value))),
     Field(prefix + "_ms", NumberTextOf(millis)),
     Field(prefix + "_pst", if millis.None? then None else TextOf(FormatPacific(pacific, millis.value)))]
  }

  predicate DateRenders(pacific: Zone, millis: Option<Int64>) {
    millis.Some? ==> FormatEtcGmt(millis.value).Some? && FormatPacific(pacific, millis.value).Some?
  }

  function PlainFields(r: Receipt): (fields: seq<Field>)
    ensures |fields| == 8
  {
    [Field("receipt_type", TextOf(r.receiptType)),
     Field("adam_id", NumberOf(r.appItemId)),
     Field("app_item_id", NumberOf(r.appItemId)),
     Field("bundle_id", TextOf(r.bundleId)),
     Field("application_version", TextOf(r.applicationVersion)),
     Field("download_id", Some(if r.downloadId.None? then Null else Atom(FormatInt(r.downloadId.value)))),
     Field("version_external_identifier", NumberOf(r.versionExternalIdentifier)),
     Field("original_application_version", TextOf(r.originalApplicationVersion))]
  }

  function ReceiptFields(pacific: Zone, r: Receipt, now: Int64, inApp: seq<Value>): seq<Field> {
    PlainFields(r)
    + DateFields(pacific, "receipt_creation_date", r.receiptCreationDateMs)
    + DateFields(pacific, "request_date", Some(now))
    + DateFields(pacific, "original_purchase_date", r.originalPurchaseDateMs)
    + DateFields(pacific, "preorder_date", r.preorderDateMs)
    + DateFields(pacific, "expiration_date", r.expirationDateMs)
    + [Field("in_app", Some(Array(inApp)))]
  }

  function PurchaseHead(p: Purchase): seq<Field> {
    [Field("quantity", NumberTextOf(p.quantity)),
     Field("product_id", TextOf(p.productId)),
     Field("transaction_id", TextOf(p.transactionId)),
     Field("original_transaction_id", TextOf(p.originalTransactionId))]
  }

  function PurchaseTail(p: Purchase): seq<Field> {
    [Field("cancellation_reason", NumberTextOf(p.cancellationReason)),
     Field("web_order_line_item_id",
           if p.webOrderLineItemId == Some(0) then None else NumberTextOf(p.webOrderLineItemId)),
     Field("is_trial_period", FlagTextOf(p.isTrialPeriod)),
     Field("is_in_intro_offer_period", FlagTextOf(p.isInIntroOfferPeriod))]
  }

  function PurchaseFields(pacific: Zone, p: Purchase): seq<Field> {
    PurchaseHead(p)
    + DateFields(pacific, "purchase_date", p.purchaseDateMs)
    + DateFields(pacific, "original_purchase_date", p.originalPurchaseDateMs)
    + DateFields(pacific, "expires_date", p.expiresDateMs)
    + DateFields(pacific, "cancellation_date", p.cancellationDateMs)
    + PurchaseTail(p)
  }

  // ---------------------------------------------------------------------
  // Filling a map field by field.

  function Put(json: Members, field: Field): Members {
    match field.value case None => json case Some(v) => json[field.key := v]
  }

  function Fill(json: Members, fields: seq<Field>): Members
    decreases fields
  {
    if fields == [] then json else Fill(Put(json, fields[0]), fields[1..])
  }

  lemma {:induction false} FillAppend(json: Members, a: seq<Field>, b: seq<Field>)
    ensures Fill(json, a + b) == Fill(Fill(json, a), b)
    decreases a
  {
    if a == [] {
      assert a + b == b;
    } else {
      assert (a + b)[0] == a[0] && (a + b)[1..] == a[1..] + b;
      FillAppend(Put(json, a[0]), a[1..], b);
    }
  }

  ghost predicate KeysDiffer(fields: seq<Field>) {
    forall i, j :: 0 <= i < j < |fields| ==> fields[i].key != fields[j].key
  }

  /** The map holds the table: a key is there exactly when its field has a value,
      which nothing overwrote, and no other key is there. */
  ghost predicate Holds(json: Members, fields: seq<Field>) {
    && (forall i :: 0 <= i < |fields| ==>
          (fields[i].key in json <==> fields[i].value.Some?)
          && (fields[i].value.Some? ==> json[fields[i].key] == fields[i].value.value))
    && (forall key :: key in json ==> exists i :: 0 <= i < |fields| && fields[i].key == key)
  }

  lemma {:induction false} FillKeeps(json: Members, fields: seq<Field>, key: string)
    requires forall i :: 0 <= i < |fields| ==> fields[i].key != key
    ensures key in Fill(json, fields) <==> key in json
    ensures key in json ==> Fill(json, fields)[key] == json[key]
    decreases fields
  {
    if fields != [] {
      FillKeeps(Put(json, fields[0]), fields[1..], key);
    }
  }

  lemma {:induction false} FillPuts(json: Members, fields: seq<Field>, i: nat)
    requires KeysDiffer(fields) && i < |fields| && fields[i].key !in json
    ensures fields[i].key in Fill(json, fields) <==> fields[i].value.Some?
    ensures fields[i].value.Some? ==> Fill(json, fields)[fields[i].key] == fields[i].value.value
    decreases fields
  {
    if i == 0 {
      FillKeeps(Put(json, fields[0]), fields[1..], fields[0].key);
    } else {
      assert fields[0].key != fields[i].key;
      FillPuts(Put(json, fields[0]), fields[1..], i - 1);
    }
  }

  lemma FillHolds(fields: seq<Field>)
    requires KeysDiffer(fields)
    ensures Holds(Fill(map[], fields), fields)
  {
    hide Fill;
    var json := Fill(map[], fields);
    forall i | 0 <= i < |fields|
      ensures (fields[i].key in json <==> fields[i].value.Some?)
              && (fields[i].value.Some? ==> json[fields[i].key] == fields[i].value.value) {
      FillPuts(map[], fields, i);
    }
    forall key | key in json ensures exists i :: 0 <= i < |fields| && fields[i].key == key {
      if forall i :: 0 <= i < |fields| ==> fields[i].key != key {
        FillKeeps(map[], fields, key);
      }
    }
  }

  // ---------------------------------------------------------------------
  // No two fields share a key.

  /** What tells the endpoint's keys apart: the length, the first letter and the third. */
  datatype Shape = Shape(length: nat, first: char, third: char)

  function ShapeOf(key: string): Shape
    requires |key| >= 3
  {
    Shape(|key|, key[0], key[2])
  }

  /** The shapes of a date's three keys. */
  function DateShapes(prefix: Shape): seq<Shape> {
    [prefix, prefix.(length := prefix.length + 3), prefix.(length := prefix.length + 4)]
  }

  ghost predicate Shaped(fields: seq<Field>, shapes: seq<Shape>) {
    |fields| == |shapes| && forall i :: 0 <= i < |fields| ==> |fields[i].key| >= 3 && ShapeOf(fields[i].key) == shapes[i]
  }

  lemma ShapedApart(fields: seq<Field>, shapes: seq<Shape>)
    requires Shaped(fields, shapes) && Distinct(shapes)
    ensures KeysDiffer(fields)
  {
    forall i, j | 0 <= i < j < |fields| ensures fields[i].key != fields[j].key {
      assert shapes[i] != shapes[j];
    }
  }

  lemma ShapedAppend(a: seq<Field>, b: seq<Field>, m: seq<Shape>, n: seq<Shape>)
    requires Shaped(a, m) && Shaped(b, n)
    ensures Shaped(a + b, m + n)
  {
    hide ShapeOf;
  }

  lemma DatesShaped(pacific: Zone, prefix: string, millis: Option<Int64>)
    requires |prefix| >= 3
    ensures Shaped(DateFields(pacific, prefix, millis), DateShapes(ShapeOf(prefix)))
  {
    hide FormatEtcGmt, FormatPacific;
    var ms, pst := prefix + "_ms", prefix + "_pst";
    assert ms[0] == prefix[0] && ms[2] == prefix[2] && pst[0] == prefix[0] && pst[2] == prefix[2];
    assert ShapeOf(ms) == ShapeOf(prefix).(length := |prefix| + 3);
    assert ShapeOf(pst) == ShapeOf(prefix).(length := |prefix| + 4);
  }

  lemma MoreShaped(fields: seq<Field>, shapes: seq<Shape>, pacific: Zone, prefix: string, millis: Option<Int64>)
    requires Shaped(fields, shapes) && |prefix| >= 3
    ensures Shaped(fields + DateFields(pacific, prefix, millis), shapes + DateShapes(ShapeOf(prefix)))
  {
    hide DateFields, Shaped, ShapeOf;
    DatesShaped(pacific, prefix, millis);
    ShapedAppend(fields, DateFields(pacific, prefix, millis), shapes, DateShapes(ShapeOf(prefix)));
  }

  const PLAIN_SHAPES: seq<Shape> :=
    [Shape(12, 'r', 'c'),
     Shape(7, 'a', 'a'),
     Shape(11, 'a', 'p'),
     Shape(9, 'b', 'n'),
     Shape(19, 'a', 'p'),
     Shape(11, 'd', 'w'),
     Shape(27, 'v', 'r'),
     Shape(28, 'o', 'i')]

  const HEAD_SHAPES: seq<Shape> :=
    [Shape(8, 'q', 'a'),
     Shape(10, 'p', 'o'),
     Shape(14, 't', 'a'),
     Shape(23, 'o', 'i')]

  const TAIL_SHAPES: seq<Shape> :=
    [Shape(19, 'c', 'n'),
     Shape(22, 'w', 'b'),
     Shape(15, 'i', '_'),
     Shape(24, 'i', '_')]

  lemma PlainShaped(r: Receipt)
    ensures Shaped(PlainFields(r), PLAIN_SHAPES)
  {
    FirstShapes();
    LastShapes();
    hide ShapeOf, TextOf, NumberOf;
  }

  lemma FirstShapes()
    ensures ShapeOf("receipt_type") == Shape(12, 'r', 'c')
    ensures ShapeOf("adam_id") == Shape(7, 'a', 'a')
    ensures ShapeOf("app_item_id") == Shape(11, 'a', 'p')
    ensures ShapeOf("bundle_id") == Shape(9, 'b', 'n')
  {
  }

  lemma LastShapes()
    ensures ShapeOf("application_version") == Shape(19, 'a', 'p')
    ensures ShapeOf("download_id") == Shape(11, 'd', 'w')
    ensures ShapeOf("version_external_identifier") == Shape(27, 'v', 'r')
    ensures ShapeOf("original_application_version") == Shape(28, 'o', 'i')
  {
  }

  lemma PurchaseEndsShaped(p: Purchase)
    ensures Shaped(PurchaseHead(p), HEAD_SHAPES) && Shaped(PurchaseTail(p), TAIL_SHAPES)
  {
    HeadShapes();
    TailShapes();
    hide ShapeOf, TextOf, NumberTextOf, FlagTextOf;
  }

  lemma HeadShapes()
    ensures ShapeOf("quantity") == Shape(8, 'q', 'a')
    ensures ShapeOf("product_id") == Shape(10, 'p', 'o')
    ensures ShapeOf("transaction_id") == Shape(14, 't', 'a')
    ensures ShapeOf("original_transaction_id") == Shape(23, 'o', 'i')
  {
  }

  lemma TailShapes()
    ensures ShapeOf("cancellation_reason") == Shape(19, 'c', 'n')
    ensures ShapeOf("web_order_line_item_id") == Shape(22, 'w', 'b')
    ensures ShapeOf("is_trial_period") == Shape(15, 'i', '_')
    ensures ShapeOf("is_in_intro_offer_period") == Shape(24, 'i', '_')
  {
  }

  function ReceiptShapes(): seq<Shape> {
    PLAIN_SHAPES
    + DateShapes(Shape(21, 'r', 'c'))
    + DateShapes(Shape(12, 'r', 'q'))
    + DateShapes(Shape(22, 'o', 'i'))
    + DateShapes(Shape(13, 'p', 'e'))
    + DateShapes(Shape(15, 'e', 'p'))
    + [Shape(6, 'i', '_')]
  }

  function PurchaseShapes(): seq<Shape> {
    HEAD_SHAPES
    + DateShapes(Shape(13, 'p', 'r'))
    + DateShapes(Shape(22, 'o', 'i'))
    + DateShapes(Shape(12, 'e', 'p'))
    + DateShapes(Shape(17, 'c', 'n'))
    + TAIL_SHAPES
  }

  lemma ReceiptShapesDiffer()
    ensures Distinct(ReceiptShapes())
  {
  }

  lemma PurchaseShapesDiffer()
    ensures Distinct(PurchaseShapes())
  {
  }

  lemma ReceiptKeysDiffer(pacific: Zone, r: Receipt, now: Int64, inApp: seq<Value>)
    ensures KeysDiffer(ReceiptFields(pacific, r, now, inApp))
  {
    hide PlainFields, DateFields, Shaped, KeysDiffer, Distinct, DateShapes;
    PlainShaped(r);
    var a, m := PlainFields(r), PLAIN_SHAPES;
    MoreShaped(a, m, pacific, "receipt_creation_date", r.receiptCreationDateMs);
    var b, n := a + DateFields(pacific, "receipt_creation_date", r.receiptCreationDateMs), m + DateShapes(Shape(21, 'r', 'c'));
    MoreShaped(b, n, pacific, "request_date", Some(now));
    var c, o := b + DateFields(pacific, "request_date", Some(now)), n + DateShapes(Shape(12, 'r', 'q'));
    MoreShaped(c, o, pacific, "original_purchase_date", r.originalPurchaseDateMs);
    var d, p := c + DateFields(pacific, "original_purchase_date", r.originalPurchaseDateMs), o + DateShapes(Shape(22, 'o', 'i'));
    MoreShaped(d, p, pacific, "preorder_date", r.preorderDateMs);
    var e, q := d + DateFields(pacific, "preorder_date", r.preorderDateMs), p + DateShapes(Shape(13, 'p', 'e'));
    MoreShaped(e, q, pacific, "expiration_date", r.expirationDateMs);
    InAppShaped(inApp);
    ShapedAppend(e + DateFields(pacific, "expiration_date", r.expirationDateMs),
                 [Field("in_app", Some(Array(inApp)))], q + DateShapes(Shape(15, 'e', 'p')), [Shape(6, 'i', '_')]);
    ReceiptShapesDiffer();
    ShapedApart(ReceiptFields(pacific, r, now, inApp), ReceiptShapes());
  }

  lemma InAppShaped(inApp: seq<Value>)
    ensures Shaped([Field("in_app", Some(Array(inApp)))], [Shape(6, 'i', '_')])
  {
  }

  lemma PurchaseKeysDiffer(pacific: Zone, q: Purchase)
    ensures KeysDiffer(PurchaseFields(pacific, q))
  {
    hide PurchaseHead, PurchaseTail, DateFields, Shaped, KeysDiffer, Distinct, DateShapes;
    PurchaseEndsShaped(q);
    var a, m := PurchaseHead(q), HEAD_SHAPES;
    MoreShaped(a, m, pacific, "purchase_date", q.purchaseDateMs);
    var b, n := a + DateFields(pacific, "purchase_date", q.purchaseDateMs), m + DateShapes(Shape(13, 'p', 'r'));
    MoreShaped(b, n, pacific, "original_purchase_date", q.originalPurchaseDateMs);
    var c, o := b + DateFields(pacific, "original_purchase_date", q.originalPurchaseDateMs), n + DateShapes(Shape(22, 'o', 'i'));
    MoreShaped(c, o, pacific, "expires_date", q.expiresDateMs);
    var d, p := c + DateFields(pacific, "expires_date", q.expiresDateMs), o + DateShapes(Shape(12, 'e', 'p'));
    MoreShaped(d, p, pacific, "cancellation_date", q.cancellationDateMs);
    ShapedAppend(d + DateFields(pacific, "cancellation_date", q.cancellationDateMs), PurchaseTail(q),
                 p + DateShapes(Shape(17, 'c', 'n')), TAIL_SHAPES);
    PurchaseShapesDiffer();
    ShapedApart(PurchaseFields(pacific, q), PurchaseShapes());
  }

  // ---------------------------------------------------------------------
  // The objects.

  predicate PurchaseRenders(pacific: Zone, p: Purchase) {
    && DateRenders(pacific, p.purchaseDateMs) && DateRenders(pacific, p.originalPurchaseDateMs)
    && DateRenders(pacific, p.expiresDateMs) && DateRenders(pacific, p.cancellationDateMs)
  }

  predicate ReceiptRenders(pacific: Zone, r: Receipt) {
    && DateRenders(pacific, r.receiptCreationDateMs) && DateRenders(pacific, r.originalPurchaseDateMs)
    && DateRenders(pacific, r.preorderDateMs) && DateRenders(pacific, r.expirationDateMs)
    && forall i :: 0 <= i < |r.inApp| ==> PurchaseRenders(pacific, r.inApp[i])
  }

  function PurchaseObject(pacific: Zone, p: Purchase): Value {
    Object(Fill(map[], PurchaseFields(pacific, p)))
  }

  function PurchaseObjects(pacific: Zone, ps: seq<Purchase>): (items: seq<Value>)
    ensures |items| == |ps| && forall i :: 0 <= i < |ps| ==> items[i] == PurchaseObject(pacific, ps[i])
  {
    if ps == [] then [] else [PurchaseObject(pacific, ps[0])] + PurchaseObjects(pacific, ps[1..])
  }

  function ReceiptObject(pacific: Zone, r: Receipt, now: Int64): Value {
    Object(Fill(map[], ReceiptFields(pacific, r, now, PurchaseObjects(pacific, r.inApp))))
  }

  /** The answer's `receipt` holds each of its fields, the purchases in receipt
      order, and each purchase holds each of its own: nothing is overwritten,
      nothing is left out and nothing else is there. */
  lemma ObjectsHoldTheirFields(pacific: Zone, r: Receipt, now: Int64)
    ensures Holds(ReceiptObject(pacific, r, now).members,
                  ReceiptFields(pacific, r, now, PurchaseObjects(pacific, r.inApp)))
    ensures forall i :: 0 <= i < |r.inApp| ==>
              Holds(PurchaseObjects(pacific, r.inApp)[i].members, PurchaseFields(pacific, r.inApp[i]))
  {
    hide ReceiptFields, PurchaseFields, Fill, Holds, KeysDiffer;
    var inApp := PurchaseObjects(pacific, r.inApp);
    ReceiptKeysDiffer(pacific, r, now, inApp);
    FillHolds(ReceiptFields(pacific, r, now, inApp));
    forall i | 0 <= i < |r.inApp| ensures Holds(inApp[i].members, PurchaseFields(pacific, r.inApp[i])) {
      PurchaseKeysDiffer(pacific, r.inApp[i]);
      FillHolds(PurchaseFields(pacific, r.inApp[i]));
    }
  }

  // ---------------------------------------------------------------------
  // Writing the objects, insertion by insertion.

  /** A run of the `present_*` insertions. */
  method PutFields(json: Members, fields: seq<Field>) returns (out: Members)
    ensures out == Fill(json, fields)
  {
    out := json;
    for i := 0 to |fields|
      invariant Fill(json, fields) == Fill(out, fields[i..])
    {
      assert fields[i..][0] == fields[i] && fields[i..][1..] == fields[i + 1..];
      out := Put(out, fields[i]);
    }
  }

  /** `apple_dates`: all three forms, or a refusal. */
  method AppleDates(pacific: Zone, json: Members, prefix: string, millis: Option<Int64>) returns (r: Option<Members>)
    ensures r == if DateRenders(pacific, millis) then Some(Fill(json, DateFields(pacific, prefix, millis))) else None
  {
    hide FormatEtcGmt, FormatPacific;
    if millis.None? {
      NoDate(pacific, json, prefix);
      return Some(json);
    }
    var gmt := FormatEtcGmt(millis.value);
    if gmt.None? {
      return None;
    }
    var out := json[prefix := Text(gmt.value)];
    out := out[prefix + "_ms" := Text(FormatInt(millis.value))];
    var pst := FormatPacific(pacific, millis.value);
    if pst.None? {
      return None;
    }
    ThreeDates(json, DateFields(pacific, prefix, millis));
    return Some(out[prefix + "_pst" := Text(pst.value)]);
  }

  lemma ThreeDates(json: Members, fields: seq<Field>)
    requires |fields| == 3
    ensures Fill(json, fields) == Put(Put(Put(json, fields[0]), fields[1]), fields[2])
  {
    var two, one, none := fields[1..], fields[2..], fields[3..];
    assert two[0] == fields[1] && two[1..] == one && one[0] == fields[2] && one[1..] == none && none == [];
    assert Fill(json, fields) == Fill(Put(json, fields[0]), two) == Fill(Put(Put(json, fields[0]), fields[1]), one);
    assert Fill(Put(Put(json, fields[0]), fields[1]), one) == Fill(Put(Put(Put(json, fields[0]), fields[1]), fields[2]), none);
  }

  lemma NoDate(pacific: Zone, json: Members, prefix: string)
    ensures Fill(json, DateFields(pacific, prefix, None)) == json
  {
    ThreeDates(json, DateFields(pacific, prefix, None));
  }

  /** `purchase_json`, refused when a date does not render. */
  method PurchaseJson(pacific: Zone, p: Purchase) returns (r: Option<Value>)
    ensures r == if PurchaseRenders(pacific, p) then Some(PurchaseObject(pacific, p)) else None
  {
    hide DateRenders, DateFields, Fill, PurchaseHead, PurchaseTail;
    var head := PutFields(map[], PurchaseHead(p));
    var bought := AppleDates(pacific, head, "purchase_date", p.purchaseDateMs);
    if bought.None? {
      return None;
    }
    var original := AppleDates(pacific, bought.value, "original_purchase_date", p.originalPurchaseDateMs);
    if original.None? {
      return None;
    }
    var expires := AppleDates(pacific, original.value, "expires_date", p.expiresDateMs);
    if expires.None? {
      return None;
    }
    var cancelled := AppleDates(pacific, expires.value, "cancellation_date", p.cancellationDateMs);
    if cancelled.None? {
      return None;
    }
    var whole := PutFields(cancelled.value, PurchaseTail(p));
    PurchaseFilled(pacific, p);
    return Some(Object(whole));
  }

  lemma PurchaseFilled(pacific: Zone, p: Purchase)
    ensures Fill(map[], PurchaseFields(pacific, p))
            == Fill(Fill(Fill(Fill(Fill(Fill(map[], PurchaseHead(p)),
                 DateFields(pacific, "purchase_date", p.purchaseDateMs)),
                 DateFields(pacific, "original_purchase_date", p.originalPurchaseDateMs)),
                 DateFields(pacific, "expires_date", p.expiresDateMs)),
                 DateFields(pacific, "cancellation_date", p.cancellationDateMs)),
                 PurchaseTail(p))
  {
    hide DateFields, Fill, PurchaseHead, PurchaseTail;
    var a := PurchaseHead(p);
    var b := a + DateFields(pacific, "purchase_date", p.purchaseDateMs);
    var c := b + DateFields(pacific, "original_purchase_date", p.originalPurchaseDateMs);
    var d := c + DateFields(pacific, "expires_date", p.expiresDateMs);
    var e := d + DateFields(pacific, "cancellation_date", p.cancellationDateMs);
    FillAppend(map[], a, DateFields(pacific, "purchase_date", p.purchaseDateMs));
    FillAppend(map[], b, DateFields(pacific, "original_purchase_date", p.originalPurchaseDateMs));
    FillAppend(map[], c, DateFields(pacific, "expires_date", p.expiresDateMs));
    FillAppend(map[], d, DateFields(pacific, "cancellation_date", p.cancellationDateMs));
    FillAppend(map[], e, PurchaseTail(p));
  }

  method PurchasesJson(pacific: Zone, ps: seq<Purchase>) returns (r: Option<seq<Value>>)
    ensures r == if forall i :: 0 <= i < |ps| ==> PurchaseRenders(pacific, ps[i])
                 then Some(PurchaseObjects(pacific, ps)) else None
  {
    hide PurchaseRenders, PurchaseObject;
    var items: seq<Value> := [];
    for i := 0 to |ps|
      invariant |items| == i
      invariant forall k :: 0 <= k < i ==> PurchaseRenders(pacific, ps[k]) && items[k] == PurchaseObject(pacific, ps[k])
    {
      var item := PurchaseJson(pacific, ps[i]);
      if item.None? {
        return None;
      }
      items := items + [item.value];
    }
    assert items == PurchaseObjects(pacific, ps);
    return Some(items);
  }

  /** `receipt_json`, refused when the request's date or the receipt's do not render. */
  method ReceiptJson(pacific: Zone, r: Receipt, now: Int64) returns (json: Option<Value>)
    ensures json == if ReceiptRenders(pacific, r) && DateRenders(pacific, Some(now))
                    then Some(ReceiptObject(pacific, r, now)) else None
  {
    hide DateRenders, DateFields, Fill, PlainFields, PurchaseObjects, PurchaseRenders;
    var plain := PutFields(map[], PlainFields(r));
    var created := AppleDates(pacific, plain, "receipt_creation_date", r.receiptCreationDateMs);
    if created.None? {
      return None;
    }
    var requested := AppleDates(pacific, created.value, "request_date", Some(now));
    if requested.None? {
      return None;
    }
    var original := AppleDates(pacific, requested.value, "original_purchase_date", r.originalPurchaseDateMs);
    if original.None? {
      return None;
    }
    var preordered := AppleDates(pacific, original.value, "preorder_date", r.preorderDateMs);
    if preordered.None? {
      return None;
    }
    var expires := AppleDates(pacific, preordered.value, "expiration_date", r.expirationDateMs);
    if expires.None? {
      return None;
    }
    var inApp := PurchasesJson(pacific, r.inApp);
    if inApp.None? {
      return None;
    }
    var whole := PutFields(expires.value, [Field("in_app", Some(Array(inApp.value)))]);
    ReceiptFilled(pacific, r, now, inApp.value);
    return Some(Object(whole));
  }

  lemma ReceiptFilled(pacific: Zone, r: Receipt, now: Int64, inApp: seq<Value>)
    ensures Fill(map[], ReceiptFields(pacific, r, now, inApp))
            == Fill(Fill(Fill(Fill(Fill(Fill(Fill(map[], PlainFields(r)),
                 DateFields(pacific, "receipt_creation_date", r.receiptCreationDateMs)),
                 DateFields(pacific, "request_date", Some(now))),
                 DateFields(pacific, "original_purchase_date", r.originalPurchaseDateMs)),
                 DateFields(pacific, "preorder_date", r.preorderDateMs)),
                 DateFields(pacific, "expiration_date", r.expirationDateMs)),
                 [Field("in_app", Some(Array(inApp)))])
  {
    hide DateFields, Fill, PlainFields;
    var a := PlainFields(r);
    var b := a + DateFields(pacific, "receipt_creation_date", r.receiptCreationDateMs);
    var c := b + DateFields(pacific, "request_date", Some(now));
    var d := c + DateFields(pacific, "original_purchase_date", r.originalPurchaseDateMs);
    var e := d + DateFields(pacific, "preorder_date", r.preorderDateMs);
    var f := e + DateFields(pacific, "expiration_date", r.expirationDateMs);
    FillAppend(map[], a, DateFields(pacific, "receipt_creation_date", r.receiptCreationDateMs));
    FillAppend(map[], b, DateFields(pacific, "request_date", Some(now)));
    FillAppend(map[], c, DateFields(pacific, "original_purchase_date", r.originalPurchaseDateMs));
    FillAppend(map[], d, DateFields(pacific, "preorder_date", r.preorderDateMs));
    FillAppend(map[], e, DateFields(pacific, "expiration_date", r.expirationDateMs));
    FillAppend(map[], f, [Field("in_app", Some(Array(inApp)))]);
  }

  // ---------------------------------------------------------------------
  // The response.

  /** An answer: its status and, with status 0, the environment and the receipt. */
  datatype Response = Response(status: int, body: Option<(Environment, Value)>)

  /** What the endpoint depends on besides the request: the reader of the
      `receipt-data` string, the receipt's verification, which may read the clock, the
      one reading the clock gives, if it gives one, and the Pacific zone. */
  datatype World = World(
    readData: seq<Byte> -> Option<string>,
    verify: (string, Option<Int64>) -> Result<Receipt, Failure>,
    clock: Option<Int64>,
    pacific: Zone)

  function Status(reason: Reason): int {
    match reason
    case Malformed => MALFORMED_RECEIPT_DATA
    case TooLarge => MALFORMED_RECEIPT_DATA
    case InvalidSignature => RECEIPT_NOT_AUTHENTICATED
    case UntrustedChain => RECEIPT_NOT_AUTHENTICATED
    case InvalidCertificate => RECEIPT_NOT_AUTHENTICATED
    case InvalidCertificatePurpose => RECEIPT_NOT_AUTHENTICATED
    case UnreadablePayload => INTERNAL_DATA_ACCESS_ERROR
    case InternalError => INTERNAL_DATA_ACCESS_ERROR
  }

  function StatusOnly(status: int): Response {
    Response(status, None)
  }

  function ReceiptData(w: World, request: seq<Byte>): Result<string, Failure> {
    if |request| > MAX_REQUEST_BYTES then Err(Failure(TooLarge, NoDetail))
    else match w.readData(request)
    case None => Err(Failure(Malformed, NoDetail))
    case Some(data) => Ok(data)
  }

  function Verified(w: World, request: seq<Byte>): Result<Receipt, Failure> {
    match ReceiptData(w, request)
    case Err(failure) => Err(failure)
    case Ok(data) => w.verify(data, w.clock)
  }

  function FromReceiptType(receiptType: Option<string>): Option<Environment> {
    if receiptType == Some("Production") || receiptType == Some("ProductionVPP") then Some(Production)
    else if receiptType == Some("ProductionSandbox") || receiptType == Some("ProductionVPPSandbox") then Some(Sandbox)
    else None
  }

  function Render(w: World, environment: Environment, r: Receipt, now: Int64): Option<Response> {
    if ReceiptRenders(w.pacific, r) && DateRenders(w.pacific, Some(now))
    then Some(Response(OK, Some((environment, ReceiptObject(w.pacific, r, now)))))
    else None
  }

  function Respond(w: World, environment: Environment, request: seq<Byte>): Response {
    match Verified(w, request)
    case Err(failure) => StatusOnly(Status(failure.reason))
    case Ok(r) =>
      var production := FromReceiptType(r.receiptType) == Some(Production);
      if environment.Production? && !production then StatusOnly(SANDBOX_RECEIPT_ON_PRODUCTION)
      else if environment.Sandbox? && production then StatusOnly(PRODUCTION_RECEIPT_ON_SANDBOX)
      else if IN_APP_ATTRIBUTE in r.unknownAttributes then StatusOnly(INTERNAL_DATA_ACCESS_ERROR)
      else match w.clock
      case None => StatusOnly(Status(InternalError))
      case Some(now) =>
        match Render(w, environment, r, now)
        case Some(response) => response
        case None => StatusOnly(INTERNAL_DATA_ACCESS_ERROR)
  }

  method RespondTo(w: World, environment: Environment, request: seq<Byte>) returns (r: Response)
    ensures r == Respond(w, environment, request)
  {
    hide ReceiptObject, ReceiptRenders, DateRenders, FromReceiptType;
    var verified := Verified(w, request);
    if verified.Err? {
      return StatusOnly(Status(verified.error.reason));
    }
    var receipt := verified.value;
    var production := FromReceiptType(receipt.receiptType) == Some(Production);
    var status := if environment.Production? && !production then SANDBOX_RECEIPT_ON_PRODUCTION
      else if environment.Sandbox? && production then PRODUCTION_RECEIPT_ON_SANDBOX
      else OK;
    if status == OK && IN_APP_ATTRIBUTE in receipt.unknownAttributes {
      return StatusOnly(INTERNAL_DATA_ACCESS_ERROR);
    } else if status == OK {
      if w.clock.None? {
        return StatusOnly(Status(InternalError));
      }
      var json := ReceiptJson(w.pacific, receipt, w.clock.value);
      return if json.None? then StatusOnly(INTERNAL_DATA_ACCESS_ERROR)
             else Response(OK, Some((environment, json.value)));
    }
    return StatusOnly(status);
  }

  // ---------------------------------------------------------------------
  // What the statuses mean.

  ghost predicate Parsed(date: Option<Int64>) {
    date.Some? ==> exists text :: ParseReceiptDate(text) == Some(date.value as int)
  }

  /** Every date of the receipt is one the receipt date reader gave. */
  ghost predicate DatesParsed(r: Receipt) {
    && Parsed(r.receiptCreationDateMs) && Parsed(r.originalPurchaseDateMs)
    && Parsed(r.preorderDateMs) && Parsed(r.expirationDateMs)
    && forall i :: 0 <= i < |r.inApp| ==>
         && Parsed(r.inApp[i].purchaseDateMs) && Parsed(r.inApp[i].originalPurchaseDateMs)
         && Parsed(r.inApp[i].expiresDateMs) && Parsed(r.inApp[i].cancellationDateMs)
  }

  lemma DateRendersIff(pacific: Zone, millis: Option<Int64>)
    requires PacificZone(pacific)
    ensures DateRenders(pacific, millis) <==> (millis.Some? ==> Renders(millis.value))
  {
    hide FormatEtcGmt, FormatPacific, PacificZone;
    if millis.Some? {
      RenderingsExist(pacific, millis.value);
    }
  }

  lemma ParsedRenders(pacific: Zone, date: Option<Int64>)
    requires PacificZone(pacific) && Parsed(date)
    ensures DateRenders(pacific, date)
  {
    hide DateRenders, PacificZone, ParseReceiptDate;
    DateRendersIff(pacific, date);
  }

  /** With dates from the receipt date reader, only the clock can make `render` fail. */
  lemma OnlyTheClockFailsToRender(w: World, environment: Environment, r: Receipt, now: Int64)
    requires PacificZone(w.pacific) && DatesParsed(r)
    ensures Render(w, environment, r, now).Some? <==> Renders(now)
  {
    hide DateRenders, PacificZone, Parsed, ReceiptObject, Renders;
    DateRendersIff(w.pacific, Some(now));
    ParsedRenders(w.pacific, r.receiptCreationDateMs);
    ParsedRenders(w.pacific, r.originalPurchaseDateMs);
    ParsedRenders(w.pacific, r.preorderDateMs);
    ParsedRenders(w.pacific, r.expirationDateMs);
    forall i | 0 <= i < |r.inApp| ensures PurchaseRenders(w.pacific, r.inApp[i]) {
      ParsedRenders(w.pacific, r.inApp[i].purchaseDateMs);
      ParsedRenders(w.pacific, r.inApp[i].originalPurchaseDateMs);
      ParsedRenders(w.pacific, r.inApp[i].expiresDateMs);
      ParsedRenders(w.pacific, r.inApp[i].cancellationDateMs);
    }
  }

  /** The environment whose endpoint a receipt belongs to. */
  function Home(r: Receipt): Environment {
    if FromReceiptType(r.receiptType) == Some(Production) then Production else Sandbox
  }

  /** Where the verified receipt comes from: a body over 3 MiB is too large and one
      without `receipt-data` malformed, before any verification; otherwise the
      verification of that data, with this clock, decides. */
  lemma VerifiedMeans(w: World, request: seq<Byte>)
    ensures |request| > 3_145_728 ==> Verified(w, request) == Err(Failure(TooLarge, NoDetail))
    ensures |request| <= 3_145_728 && w.readData(request).None? ==> Verified(w, request) == Err(Failure(Malformed, NoDetail))
    ensures |request| <= 3_145_728 && w.readData(request).Some? ==>
              Verified(w, request) == w.verify(w.readData(request).value, w.clock)
  {
  }

  /** The production endpoint is home to the two production receipt types, and the
      sandbox endpoint to every other receipt, a missing type included. */
  lemma HomeMeans(r: Receipt)
    ensures Home(r) == Production <==> r.receiptType == Some("Production") || r.receiptType == Some("ProductionVPP")
    ensures FromReceiptType(r.receiptType) == Some(Sandbox)
       <==> r.receiptType == Some("ProductionSandbox") || r.receiptType == Some("ProductionVPPSandbox")
  {
    assert |"Production"| == 10 && |"ProductionVPP"| == 13 && |"ProductionSandbox"| == 17 && |"ProductionVPPSandbox"| == 20;
  }

  /** Every answer, by what it depends on. Status 0 is for a verified receipt, at
      the endpoint it belongs to, with no undecoded purchase and a clock that
      renders; at the other endpoint it is told where it belongs, whatever else; and
      each failure has its own status. */
  lemma EveryAnswer(w: World, environment: Environment, request: seq<Byte>)
    requires PacificZone(w.pacific)
    requires Verified(w, request).Ok? ==> DatesParsed(Verified(w, request).value)
    ensures var v, a := Verified(w, request), Respond(w, environment, request);
            var undecoded := v.Ok? && 17 in v.value.unknownAttributes;
            var renders := w.clock.Some? && Renders(w.clock.value);
            && (a.status == 0 <==> v.Ok? && environment == Home(v.value) && !undecoded && renders)
            && (a.status == 21002 <==> v.Err? && v.error.reason in {Malformed, TooLarge})
            && (a.status == 21003 <==>
                  v.Err? && v.error.reason in {InvalidSignature, UntrustedChain, InvalidCertificate, InvalidCertificatePurpose})
            && (a.status == 21007 <==> v.Ok? && environment == Production != Home(v.value))
            && (a.status == 21008 <==> v.Ok? && environment == Sandbox != Home(v.value))
            && (a.status == 21009 <==>
                  || (v.Err? && v.error.reason in {UnreadablePayload, InternalError})
                  || (v.Ok? && environment == Home(v.value) && (undecoded || !renders)))
            && a.status in {0, 21002, 21003, 21007, 21008, 21009}
            && a.body == (if a.status != 0 then None
                          else Some((environment, ReceiptObject(w.pacific, v.value, w.clock.value))))
  {
    hide ReceiptObject, PacificZone, DatesParsed, Renders, FromReceiptType, Verified, ReceiptRenders, DateRenders;
    var v := Verified(w, request);
    if v.Ok? && w.clock.Some? {
      OnlyTheClockFailsToRender(w, environment, v.value, w.clock.value);
    }
  }

  /** A verified receipt with no undecoded purchase and a clock that renders gets
      status 0 at exactly one endpoint. */
  lemma ExactlyOneEndpointAnswersZero(w: World, request: seq<Byte>)
    requires PacificZone(w.pacific) && Verified(w, request).Ok? && DatesParsed(Verified(w, request).value)
    requires IN_APP_ATTRIBUTE !in Verified(w, request).value.unknownAttributes
    requires w.clock.Some? && Renders(w.clock.value)
    ensures Respond(w, Production, request).status == OK <==> Respond(w, Sandbox, request).status != OK
  {
    hide Respond, PacificZone, DatesParsed, Renders, Verified;
    EveryAnswer(w, Production, request);
    EveryAnswer(w, Sandbox, request);
  }

  /** The endpoint's own use of the clock: at a verified receipt's own endpoint, with
      no undecoded purchase. */
  predicate RendersWithClock(v: Result<Receipt, Failure>, environment: Environment) {
    v.Ok? && environment == Home(v.value) && IN_APP_ATTRIBUTE !in v.value.unknownAttributes
  }

  /** Two readings of the clock are told apart only through the receipt's
      verification, or where the answer states the request's date. */
  lemma UnreadClockIsIrrelevant(w: World, clock: Option<Int64>, environment: Environment, request: seq<Byte>)
    requires Verified(w, request) == Verified(w.(clock := clock), request)
    requires !RendersWithClock(Verified(w, request), environment)
    ensures Respond(w, environment, request) == Respond(w.(clock := clock), environment, request)
  {
  }

  /** Where the answer states the request's date and both readings render, they are
      told apart exactly when they differ. */
  lemma ReadClockIsStated(w: World, clock: Option<Int64>, environment: Environment, request: seq<Byte>)
    requires PacificZone(w.pacific)
    requires Verified(w, request) == Verified(w.(clock := clock), request)
    requires RendersWithClock(Verified(w, request), environment) && DatesParsed(Verified(w, request).value)
    requires w.clock.Some? && Renders(w.clock.value) && clock.Some? && Renders(clock.value)
    ensures Respond(w, environment, request) == Respond(w.(clock := clock), environment, request) <==> w.clock == clock
  {
    hide PacificZone, DatesParsed, Renders, Verified, ReceiptFields, Fill;
    var other, v := w.(clock := clock), Verified(w, request);
    EveryAnswer(w, environment, request);
    EveryAnswer(other, environment, request);
    RequestDateIsStated(w.pacific, v.value, w.clock.value);
    RequestDateIsStated(w.pacific, v.value, clock.value);
    FormatIntIsInjective(w.clock.value, clock.value);
  }

  /** The answer states the clock's reading, in milliseconds. */
  lemma RequestDateIsStated(pacific: Zone, r: Receipt, now: Int64)
    ensures "request_date_ms" in ReceiptObject(pacific, r, now).members
    ensures ReceiptObject(pacific, r, now).members["request_date_ms"] == Text(FormatInt(now))
  {
    hide DateFields, Holds, Fill;
    ObjectsHoldTheirFields(pacific, r, now);
    var fields := ReceiptFields(pacific, r, now, PurchaseObjects(pacific, r.inApp));
    RequestDateField(pacific, r, now, PurchaseObjects(pacific, r.inApp));
    HoldsField(ReceiptObject(pacific, r, now).members, fields, 12);
  }

  lemma RequestDateField(pacific: Zone, r: Receipt, now: Int64, inApp: seq<Value>)
    ensures var fields := ReceiptFields(pacific, r, now, inApp);
            |fields| == 24 && fields[12] == Field("request_date_ms", Some(Text(FormatInt(now))))
  {
    MillisField(pacific, "request_date", now);
    hide PlainFields, DateFields;
    var before := PlainFields(r) + DateFields(pacific, "receipt_creation_date", r.receiptCreationDateMs);
    var dates := DateFields(pacific, "request_date", Some(now));
    assert ReceiptFields(pacific, r, now, inApp)[12] == (before + dates)[12] == dates[1];
    assert "request_date" + "_ms" == "request_date_ms";
  }

  lemma MillisField(pacific: Zone, prefix: string, millis: Int64)
    ensures DateFields(pacific, prefix, Some(millis))[1] == Field(prefix + "_ms", Some(Text(FormatInt(millis))))
  {
  }

  lemma HoldsField(json: Members, fields: seq<Field>, i: nat)
    requires Holds(json, fields) && i < |fields| && fields[i].value.Some?
    ensures fields[i].key in json && json[fields[i].key] == fields[i].value.value
  {
  }

  /** A request over the cap answers 21002, whatever it holds. */
  lemma OversizedIsMalformed(w: World, environment: Environment, request: seq<Byte>)
    requires |request| > MAX_REQUEST_BYTES
    ensures Respond(w, environment, request) == StatusOnly(MALFORMED_RECEIPT_DATA)
  {
  }
}
