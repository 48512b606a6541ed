/** The JSON a payload crosses the Go binding as, `go/receiptpayload.go`: 64-bit
    ids as decimal texts, octets as padded base64, attributes keyed by decimal
    text. Writing fills maps and lists in loops, and so does reading; the order a
    loop over a map visits its keys in is the runtime's, and a parameter here. */
module ReceiptWire {
  import opened Foundation
  import opened Verdicts
  import opened Decimal
  import opened Base64
  import opened Receipts

  /** Some order in which all of a set is visited, each member once. */
  ghost predicate Enumerates<T(!new)>(order: seq<T>, all: set<T>) {
    Distinct(order) && forall x :: x in order <==> x in all
  }

  type WireAttributes = map<string, seq<string>>

  datatype WirePurchase = WirePurchase(
    quantity: Option<Int64>,
    productId: Option<string>,
    transactionId: Option<string>,
    purchaseDateMs: Option<Int64>,
    originalTransactionId: Option<string>,
    originalPurchaseDateMs: Option<Int64>,
    expiresDateMs: Option<Int64>,
    webOrderLineItemId: Option<string>,
    cancellationDateMs: Option<Int64>,
    cancellationReason: Option<Int64>,
    isTrialPeriod: Option<bool>,
    isInIntroOfferPeriod: Option<bool>,
    unknownAttributes: WireAttributes)

  datatype WireReceipt = WireReceipt(
    receiptType: Option<string>,
    appItemId: Option<string>,
    bundleId: Option<string>,
    bundleIdBytes: Option<string>,
    applicationVersion: Option<string>,
    opaqueValue: Option<string>,
    sha1Hash: Option<string>,
    receiptCreationDateMs: Option<Int64>,
    downloadId: Option<string>,
    versionExternalIdentifier: Option<string>,
    inApp: seq<WirePurchase>,
    originalPurchaseDateMs: Option<Int64>,
    preorderDateMs: Option<Int64>,
    originalApplicationVersion: Option<string>,
    expirationDateMs: Option<Int64>,
    unknownAttributes: WireAttributes)

  /** The payload Go hands out: the receipt, and the environment stated beside it. */
  datatype Payload = Payload(receipt: Receipt, environment: Option<Environment>)

  // ---------------------------------------------------------------------
  // Octets and ids.

  predicate IsNewline(c: char) {
    c == '\n' || c == '\r'
  }

  /** Go's `StdEncoding` decoder, which passes over line breaks. */
  function DecodeStd(text: string): Option<seq<Byte>> {
    DecodePadded(Keep(text, (c: char) => !IsNewline(c)))
  }

  /** Line breaks, of either kind and anywhere, change nothing. */
  lemma LineBreaksAreSkipped(a: string, b: string)
    ensures DecodeStd(a + "\n" + b) == DecodeStd(a + b) && DecodeStd(a + "\r" + b) == DecodeStd(a + b)
  {
    OneBreakIsSkipped(a, '\n', b);
    OneBreakIsSkipped(a, '\r', b);
  }

  lemma OneBreakIsSkipped(a: string, c: char, b: string)
    requires IsNewline(c)
    ensures DecodeStd(a + [c] + b) == DecodeStd(a + b)
  {
    hide DecodePadded, Keep;
    var keep := (c: char) => !IsNewline(c);
    KeepAppend(a, b, keep);
    KeepAppend(a + [c], b, keep);
    KeepAppend(a, [c], keep);
    KeepOne(c, keep);
    assert Keep(a, keep) + [] == Keep(a, keep);
  }

  lemma {:induction false} NoNewlineInSpelling(b: seq<Byte>)
    ensures forall c :: c in Spelling(b, 0) ==> !IsNewline(c)
  {
    hide Symbol;
    if |b| == 1 {
      NewlineIsNoSymbol(b[0] / 4);
      NewlineIsNoSymbol(b[0] % 4 * 16);
    } else if |b| == 2 {
      NewlineIsNoSymbol(b[0] / 4);
      NewlineIsNoSymbol(b[0] % 4 * 16 + b[1] / 16);
      NewlineIsNoSymbol(b[1] % 16 * 4);
    } else if |b| >= 3 {
      NewlineIsNoSymbol(b[0] / 4);
      NewlineIsNoSymbol(b[0] % 4 * 16 + b[1] / 16);
      NewlineIsNoSymbol(b[1] % 16 * 4 + b[2] / 64);
      NewlineIsNoSymbol(b[2] % 64);
      NoNewlineInSpelling(b[3..]);
    }
  }

  lemma NewlineIsNoSymbol(v: int)
    requires 0 <= v < 64
    ensures !IsNewline(Symbol(Standard, v))
  {
  }

  /** Octets read back from their base64. */
  lemma StdRoundTrip(b: seq<Byte>)
    ensures DecodeStd(Encode(b)) == Some(b)
  {
    NoNewlineInSpelling(b);
    KeepAll(Encode(b), (c: char) => !IsNewline(c));
    PaddedDecodesSpelling(b, 0);
  }

  function IdJson(id: Option<Int64>): Option<string> {
    match id case None => None case Some(n) => Some(FormatInt(n))
  }

  /** The outer option is the error; the inner one says whether there is an id. */
  function IdFromJson(text: Option<string>): Option<Option<Int64>> {
    match text
    case None => Some(None)
    case Some(t) => match ParseInt(t) case None => None case Some(n) => Some(Some(n))
  }

  function BytesJson(octets: Option<seq<Byte>>): Option<string> {
    match octets case None => None case Some(b) => Some(Encode(b))
  }

  function BytesFromJson(text: Option<string>): Option<Option<seq<Byte>>> {
    match text
    case None => Some(None)
    case Some(t) => match DecodeStd(t) case None => None case Some(b) => Some(Some(b))
  }

  lemma IdRoundTrip(id: Option<Int64>)
    ensures IdFromJson(IdJson(id)) == Some(id)
  {
    if id.Some? {
      ParseOfFormat(id.value);
    }
  }

  lemma BytesRoundTrip(octets: Option<seq<Byte>>)
    ensures BytesFromJson(BytesJson(octets)) == Some(octets)
  {
    if octets.Some? {
      StdRoundTrip(octets.value);
    }
  }

  // ---------------------------------------------------------------------
  // Attributes, written.

  function EncodeEach(values: seq<seq<Byte>>): (texts: seq<string>)
    ensures |texts| == |values|
    ensures forall i :: 0 <= i < |values| ==> texts[i] == Encode(values[i])
  {
    if values == [] then [] else [Encode(values[0])] + EncodeEach(values[1..])
  }

  function DecodeEach(texts: seq<string>): (values: Option<seq<seq<Byte>>>) {
    if texts == [] then Some([])
    else match (DecodeStd(texts[0]), DecodeEach(texts[1..]))
    case (Some(first), Some(rest)) => Some([first] + rest)
    case _ => None
  }

  lemma {:induction false} EachRoundTrip(values: seq<seq<Byte>>)
    ensures DecodeEach(EncodeEach(values)) == Some(values)
  {
    hide DecodeStd, Encode;
    if values != [] {
      StdRoundTrip(values[0]);
      EachRoundTrip(values[1..]);
      assert EncodeEach(values)[1..] == EncodeEach(values[1..]);
      assert [values[0]] + values[1..] == values;
    }
  }

  /** Every type under its decimal text and no two under one: as many entries as
      types, each with that type's values encoded. */
  ghost predicate Writes(attributes: Attributes, wire: WireAttributes) {
    && |wire| == |attributes|
    && (forall kind :: kind in attributes ==>
          FormatInt(kind) in wire && wire[FormatInt(kind)] == EncodeEach(attributes[kind]))
    && (forall text :: text in wire ==> exists kind :: kind in attributes && FormatInt(kind) == text)
  }

  /** Two maps written from the same attributes are one map. */
  lemma WrittenOnce(attributes: Attributes, a: WireAttributes, b: WireAttributes)
    requires Writes(attributes, a) && Writes(attributes, b)
    ensures a == b
  {
    hide FormatInt, EncodeEach;
    forall text | text in a ensures text in b && a[text] == b[text] {
      var kind :| kind in attributes && FormatInt(kind) == text;
    }
    forall text | text in b ensures text in a {
      var kind :| kind in attributes && FormatInt(kind) == text;
    }
  }

  /** `attributesJSON`: two loops that fill the map and each of its lists. */
  method AttributesJson(attributes: Attributes, order: seq<Int64>) returns (wire: WireAttributes)
    requires Enumerates(order, attributes.Keys)
    ensures Writes(attributes, wire)
  {
    hide FormatInt, EncodeEach, Encode, Written, Writes;
    wire := map[];
    NothingWritten(attributes);
    assert order[..0] == [];
    for n := 0 to |order|
      invariant Written(attributes, order[..n], wire)
    {
      var encoded := EncodeValues(attributes[order[n]]);
      WriteOneMore(attributes, order[..n], order[n], wire);
      assert order[..n + 1] == order[..n] + [order[n]];
      wire := wire[FormatInt(order[n]) := encoded];
    }
    assert order[..|order|] == order;
    WrittenAll(attributes, order, wire);
  }

  method EncodeValues(values: seq<seq<Byte>>) returns (encoded: seq<string>)
    ensures encoded == EncodeEach(values)
  {
    hide Encode;
    encoded := [];
    for i := 0 to |values|
      invariant encoded == EncodeEach(values[..i])
    {
      assert values[..i + 1] == values[..i] + [values[i]];
      EncodeEachAppend(values[..i], values[i]);
      encoded := encoded + [Encode(values[i])];
    }
    assert values[..|values|] == values;
  }

  lemma NothingWritten(attributes: Attributes)
    ensures Written(attributes, [], map[])
  {
  }

  lemma EncodeEachAppend(values: seq<seq<Byte>>, value: seq<Byte>)
    ensures EncodeEach(values + [value]) == EncodeEach(values) + [Encode(value)]
  {
    hide Encode;
    var a, b := EncodeEach(values + [value]), EncodeEach(values) + [Encode(value)];
    forall i | 0 <= i < |a| ensures a[i] == b[i] {
    }
    assert a == b;
  }

  /** What is in the map once the types of `done` have been visited. */
  ghost predicate Written(attributes: Attributes, done: seq<Int64>, wire: WireAttributes) {
    && |wire| == |done|
    && Distinct(done)
    && (forall kind :: kind in done ==>
          kind in attributes && FormatInt(kind) in wire && wire[FormatInt(kind)] == EncodeEach(attributes[kind]))
    && (forall text :: text in wire ==> exists kind :: kind in done && FormatInt(kind) == text)
  }

  lemma WriteOneMore(attributes: Attributes, done: seq<Int64>, kind: Int64, wire: WireAttributes)
    requires Written(attributes, done, wire) && kind in attributes && kind !in done
    ensures Written(attributes, done + [kind], wire[FormatInt(kind) := EncodeEach(attributes[kind])])
  {
    hide FormatInt, EncodeEach;
    var more := wire[FormatInt(kind) := EncodeEach(attributes[kind])];
    NewText(attributes, done, kind, wire, EncodeEach(attributes[kind]));
    forall k | k in done + [kind]
      ensures k in attributes && FormatInt(k) in more && more[FormatInt(k)] == EncodeEach(attributes[k]) {
      FormatIntIsInjective(k, kind);
    }
    forall text | text in more ensures exists k :: k in done + [kind] && FormatInt(k) == text {
      if text == FormatInt(kind) {
        assert kind in done + [kind];
      } else {
        var k :| k in done && FormatInt(k) == text;
        assert k in done + [kind];
      }
    }
  }

  /** No type written so far has the text of a new one. */
  lemma NewText(attributes: Attributes, done: seq<Int64>, kind: Int64, wire: WireAttributes, texts: seq<string>)
    requires Written(attributes, done, wire) && kind !in done
    ensures FormatInt(kind) !in wire && |wire[FormatInt(kind) := texts]| == |wire| + 1
  {
    hide FormatInt, EncodeEach;
    if FormatInt(kind) in wire {
      var other :| other in done && FormatInt(other) == FormatInt(kind);
      FormatIntIsInjective(other, kind);
    }
    var more := wire[FormatInt(kind) := texts];
    assert more.Keys == wire.Keys + {FormatInt(kind)};
    assert |more| == |more.Keys| && |wire| == |wire.Keys|;
  }

  lemma WrittenAll(attributes: Attributes, order: seq<Int64>, wire: WireAttributes)
    requires Enumerates(order, attributes.Keys) && Written(attributes, order, wire)
    ensures Writes(attributes, wire)
  {
    hide FormatInt, EncodeEach;
    EnumerationSize(order, attributes.Keys);
    assert |attributes| == |attributes.Keys|;
    forall text | text in wire ensures exists kind :: kind in attributes && FormatInt(kind) == text {
      var kind :| kind in order && FormatInt(kind) == text;
      assert kind in attributes;
    }
  }

  lemma {:induction false} EnumerationSize<T(!new)>(order: seq<T>, all: set<T>)
    requires Enumerates(order, all)
    ensures |order| == |all|
  {
    if order == [] {
      assert all == {};
    } else {
      var last, init := order[|order| - 1], order[..|order| - 1];
      assert order == init + [last];
      forall x | x in init ensures x != last {
        var i :| 0 <= i < |init| && init[i] == x;
        assert order[i] != order[|order| - 1];
      }
      assert last in order && last in all;
      assert Enumerates(init, all - {last}) by {
        forall x ensures x in init <==> x in all - {last} {
          assert x in order <==> x in init || x == last;
        }
      }
      EnumerationSize(init, all - {last});
    }
  }

  // ---------------------------------------------------------------------
  // Attributes, read.

  /** What one key of the wire stands for. */
  function Entry(wire: WireAttributes, key: string): Option<(Int64, seq<seq<Byte>>)>
    requires key in wire
  {
    match (ParseInt(key), DecodeEach(wire[key]))
    case (Some(kind), Some(values)) => Some((kind, values))
    case _ => None
  }

  /** `attributesFromJSON`, its keys visited in the given order. */
  function ReadInOrder(wire: WireAttributes, order: seq<string>): Option<Attributes>
    requires forall key :: key in order ==> key in wire
  {
    if order == [] then Some(map[])
    else match (ReadInOrder(wire, order[..|order| - 1]), Entry(wire, order[|order| - 1]))
    case (Some(read), Some((kind, values))) => Some(read[kind := values])
    case _ => None
  }

  method DecodeValues(texts: seq<string>) returns (r: Option<seq<seq<Byte>>>)
    ensures r == DecodeEach(texts)
  {
    hide DecodeStd;
    var decoded: seq<seq<Byte>> := [];
    assert texts[0..] == texts;
    for i := 0 to |texts|
      invariant Joins(DecodeEach(texts), decoded, DecodeEach(texts[i..]))
    {
      var value := DecodeStd(texts[i]);
      assert texts[i..][0] == texts[i] && texts[i..][1..] == texts[i + 1..];
      if value.None? {
        return None;
      }
      decoded := decoded + [value.value];
    }
    assert texts[|texts|..] == [] && DecodeEach([]) == Some([]);
    assert decoded + [] == decoded;
    return Some(decoded);
  }

  /** The whole is what was done and what is left, or nothing when that does not read. */
  ghost predicate Joins<T>(whole: Option<seq<T>>, done: seq<T>, left: Option<seq<T>>) {
    whole.Some? == left.Some? && (left.Some? ==> whole.value == done + left.value)
  }

  method AttributesFromJson(wire: WireAttributes, order: seq<string>) returns (r: Option<Attributes>)
    requires Enumerates(order, wire.Keys)
    ensures r == ReadInOrder(wire, order)
  {
    hide ParseInt, DecodeEach;
    var out: Attributes := map[];
    for n := 0 to |order|
      invariant ReadInOrder(wire, order[..n]) == Some(out)
    {
      var key := order[n];
      var kind := ParseInt(key);
      var decoded := DecodeValues(wire[key]);
      assert order[..n + 1][..n] == order[..n];
      if kind.None? || decoded.None? {
        assert ReadInOrder(wire, order[..n + 1]) == None;
        StaysUnread(wire, order, n + 1);
        return None;
      }
      out := out[kind.value := decoded.value];
    }
    assert order[..|order|] == order;
    return Some(out);
  }

  lemma {:induction false} StaysUnread(wire: WireAttributes, order: seq<string>, n: nat)
    requires forall key :: key in order ==> key in wire
    requires n <= |order| && ReadInOrder(wire, order[..n]).None?
    ensures ReadInOrder(wire, order).None?
  {
    hide Entry;
    if n == |order| {
      assert order[..n] == order;
    } else {
      assert order[..|order| - 1][..n] == order[..n];
      StaysUnread(wire, order[..|order| - 1], n);
    }
  }

  /** The keys of `order` all read, and no two that stand for one type differ. */
  ghost predicate Readable(wire: WireAttributes, keys: set<string>)
    requires keys <= wire.Keys
  {
    forall key :: key in keys ==> Entry(wire, key).Some?
  }

  ghost predicate Consistent(wire: WireAttributes, keys: set<string>)
    requires keys <= wire.Keys
  {
    forall a, b :: a in keys && b in keys && Entry(wire, a).Some? && Entry(wire, b).Some?
                   && Entry(wire, a).value.0 == Entry(wire, b).value.0
                   ==> Entry(wire, a) == Entry(wire, b)
  }

  /** A key that reads as an entry of the type `kind`. */
  ghost predicate StandsFor(wire: WireAttributes, key: string, kind: Int64) {
    key in wire && Entry(wire, key).Some? && Entry(wire, key).value.0 == kind
  }

  ghost function Members<T>(s: seq<T>): set<T> {
    set x | x in s
  }

  /** A visit in any order succeeds exactly when every key and value reads, and
      then it has exactly the types of the keys visited. */
  lemma {:induction false} ReadKeys(wire: WireAttributes, order: seq<string>)
    requires forall key :: key in order ==> key in wire
    ensures ReadInOrder(wire, order).Some? <==> Readable(wire, Members(order))
    ensures ReadInOrder(wire, order).Some? ==>
              forall kind :: kind in ReadInOrder(wire, order).value
                             <==> exists key :: key in order && StandsFor(wire, key, kind)
  {
    hide Entry;
    if order != [] {
      var last, init := order[|order| - 1], order[..|order| - 1];
      assert order == init + [last];
      ReadKeys(wire, init);
      assert Members(order) == Members(init) + {last};
      if ReadInOrder(wire, order).Some? {
        var (k, v) := Entry(wire, last).value;
        assert ReadInOrder(wire, order).value == ReadInOrder(wire, init).value[k := v];
        forall kind ensures kind in ReadInOrder(wire, order).value
                            <==> exists key :: key in order && StandsFor(wire, key, kind) {
          assert (exists key :: key in order && StandsFor(wire, key, kind))
            <==> (exists key :: key in init && StandsFor(wire, key, kind)) || StandsFor(wire, last, kind);
        }
      }
    }
  }

  /** The last key of a type decides its values. */
  lemma {:induction false} LastKeyDecides(wire: WireAttributes, order: seq<string>, n: nat)
    requires (forall key :: key in order ==> key in wire) && ReadInOrder(wire, order).Some?
    requires n < |order| && Entry(wire, order[n]).Some?
    requires forall j :: n < j < |order| && Entry(wire, order[j]).Some? ==>
                           Entry(wire, order[j]).value.0 != Entry(wire, order[n]).value.0
                           || Entry(wire, order[j]) == Entry(wire, order[n])
    ensures var (kind, values) := Entry(wire, order[n]).value;
            kind in ReadInOrder(wire, order).value && ReadInOrder(wire, order).value[kind] == values
  {
    hide Entry;
    if n < |order| - 1 {
      var init := order[..|order| - 1];
      assert init[n] == order[n];
      assert forall j :: n < j < |init| ==> init[j] == order[j];
      LastKeyDecides(wire, init, n);
      assert order[|order| - 1] == order[|order| - 1];
    }
  }

  /** With no two keys in conflict, each key's values are what is read for its type. */
  lemma ConsistentRead(wire: WireAttributes, order: seq<string>, key: string)
    requires Enumerates(order, wire.Keys) && key in wire && Consistent(wire, wire.Keys)
    requires ReadInOrder(wire, order).Some? && Entry(wire, key).Some?
    ensures var (kind, values) := Entry(wire, key).value;
            kind in ReadInOrder(wire, order).value && ReadInOrder(wire, order).value[kind] == values
  {
    hide Entry;
    var n :| 0 <= n < |order| && order[n] == key;
    LastKeyDecides(wire, order, n);
  }

  /** Reading what was written gives the attributes back, whatever the order. */
  lemma AttributesRoundTrip(attributes: Attributes, wire: WireAttributes, order: seq<string>)
    requires Writes(attributes, wire) && Enumerates(order, wire.Keys)
    ensures ReadInOrder(wire, order) == Some(attributes)
  {
    hide ReadInOrder, FormatInt, EncodeEach, Entry, Writes, Readable, Consistent;
    WrittenIsReadable(attributes, wire);
    SameMembers(wire, order);
    ReadKeys(wire, order);
    var read := ReadInOrder(wire, order).value;
    forall kind | kind in attributes ensures kind in read && read[kind] == attributes[kind] {
      EntryOfWritten(attributes, wire, kind);
      ConsistentRead(wire, order, FormatInt(kind));
    }
    forall kind | kind in read ensures kind in attributes {
      var key :| key in order && StandsFor(wire, key, kind);
      var written := KindOfWritten(attributes, wire, key);
    }
    assert read == attributes;
  }

  lemma KindOfWritten(attributes: Attributes, wire: WireAttributes, key: string) returns (kind: Int64)
    requires Writes(attributes, wire) && key in wire
    ensures kind in attributes && FormatInt(kind) == key && Entry(wire, key) == Some((kind, attributes[kind]))
  {
    hide FormatInt, EncodeEach, Entry;
    kind :| kind in attributes && FormatInt(kind) == key;
    EntryOfWritten(attributes, wire, kind);
  }

  lemma WrittenIsReadable(attributes: Attributes, wire: WireAttributes)
    requires Writes(attributes, wire)
    ensures Readable(wire, wire.Keys) && Consistent(wire, wire.Keys)
  {
    hide FormatInt, EncodeEach, Entry, Writes;
    forall key | key in wire ensures Entry(wire, key).Some? {
      var kind := KindOfWritten(attributes, wire, key);
    }
    forall a, b | a in wire && b in wire && Entry(wire, a).value.0 == Entry(wire, b).value.0
      ensures Entry(wire, a) == Entry(wire, b) {
      var k := KindOfWritten(attributes, wire, a);
      var l := KindOfWritten(attributes, wire, b);
    }
  }

  lemma EntryOfWritten(attributes: Attributes, wire: WireAttributes, kind: Int64)
    requires Writes(attributes, wire) && kind in attributes
    ensures FormatInt(kind) in wire && Entry(wire, FormatInt(kind)) == Some((kind, attributes[kind]))
  {
    hide FormatInt, EncodeEach, ParseInt, DecodeEach;
    ParseOfFormat(kind);
    EachRoundTrip(attributes[kind]);
  }

  // ---------------------------------------------------------------------
  // When the runtime's order can be seen.

  ghost predicate OrderIsUnseen(wire: WireAttributes) {
    forall a, b :: Enumerates(a, wire.Keys) && Enumerates(b, wire.Keys) ==> ReadInOrder(wire, a) == ReadInOrder(wire, b)
  }

  lemma {:induction false} Enumeration<T(!new)>(all: set<T>) returns (order: seq<T>)
    ensures Enumerates(order, all)
    decreases |all|
  {
    if all == {} {
      order := [];
    } else {
      var x :| x in all;
      var rest := Enumeration(all - {x});
      order := rest + [x];
      DistinctAppend(rest, [x]);
    }
  }

  lemma SameMembers(wire: WireAttributes, a: seq<string>)
    requires Enumerates(a, wire.Keys)
    ensures Members(a) == wire.Keys
  {
  }

  lemma ConsistentIsUnseen(wire: WireAttributes, a: seq<string>, b: seq<string>)
    requires Enumerates(a, wire.Keys) && Enumerates(b, wire.Keys) && Consistent(wire, wire.Keys)
    ensures ReadInOrder(wire, a) == ReadInOrder(wire, b)
  {
    hide Entry, ReadInOrder, Consistent;
    SameMembers(wire, a);
    SameMembers(wire, b);
    ReadKeys(wire, a);
    ReadKeys(wire, b);
    if ReadInOrder(wire, a).Some? {
      var x, y := ReadInOrder(wire, a).value, ReadInOrder(wire, b).value;
      forall kind | kind in x || kind in y ensures kind in x && kind in y && x[kind] == y[kind] {
        var key :| key in wire && StandsFor(wire, key, kind);
        ConsistentRead(wire, a, key);
        ConsistentRead(wire, b, key);
      }
      assert x == y;
    }
  }

  /** Two visits that end with the two keys of a conflict, one way round and the other. */
  lemma ConflictIsSeen(wire: WireAttributes, a: string, b: string)
    requires Readable(wire, wire.Keys) && a in wire && b in wire
    requires Entry(wire, a).value.0 == Entry(wire, b).value.0 && Entry(wire, a) != Entry(wire, b)
    ensures !OrderIsUnseen(wire)
  {
    hide Entry, ReadInOrder;
    var rest := Enumeration(wire.Keys - {a, b});
    var one, two := rest + [a, b], rest + [b, a];
    EndsWith(wire.Keys, rest, a, b);
    EndsWith(wire.Keys, rest, b, a);
    LastIsRead(wire, one);
    LastIsRead(wire, two);
  }

  lemma EndsWith(all: set<string>, rest: seq<string>, a: string, b: string)
    requires a in all && b in all && a != b && Enumerates(rest, all - {a, b})
    ensures Enumerates(rest + [a, b], all)
  {
    DistinctAppend(rest, [a, b]);
    forall x ensures x in rest + [a, b] <==> x in all {
      assert x in rest + [a, b] <==> x in rest || x == a || x == b;
    }
  }

  lemma LastIsRead(wire: WireAttributes, order: seq<string>)
    requires Readable(wire, wire.Keys) && Enumerates(order, wire.Keys) && order != []
    ensures ReadInOrder(wire, order).Some? && Entry(wire, order[|order| - 1]).Some?
    ensures var (kind, values) := Entry(wire, order[|order| - 1]).value;
            kind in ReadInOrder(wire, order).value && ReadInOrder(wire, order).value[kind] == values
  {
    hide Entry, ReadInOrder;
    SameMembers(wire, order);
    ReadKeys(wire, order);
    LastKeyDecides(wire, order, |order| - 1);
  }

  /** The order can be seen in the result exactly when all keys and values read and
      two keys, such as `7` and `07`, stand for one type with different values. */
  lemma OrderIsUnseenIff(wire: WireAttributes)
    ensures OrderIsUnseen(wire) <==> !Readable(wire, wire.Keys) || Consistent(wire, wire.Keys)
  {
    hide Entry, ReadInOrder;
    if Readable(wire, wire.Keys) && !Consistent(wire, wire.Keys) {
      var a, b :| a in wire && b in wire && Entry(wire, a).Some? && Entry(wire, b).Some?
        && Entry(wire, a).value.0 == Entry(wire, b).value.0 && Entry(wire, a) != Entry(wire, b);
      ConflictIsSeen(wire, a, b);
    } else {
      forall a, b | Enumerates(a, wire.Keys) && Enumerates(b, wire.Keys)
        ensures ReadInOrder(wire, a) == ReadInOrder(wire, b) {
        if Consistent(wire, wire.Keys) {
          ConsistentIsUnseen(wire, a, b);
        } else {
          SameMembers(wire, a);
          SameMembers(wire, b);
          ReadKeys(wire, a);
          ReadKeys(wire, b);
        }
      }
    }
  }

  /** A wire on which the order is seen. */
  lemma SevenTwice()
    ensures !OrderIsUnseen(map["7" := [], "07" := [""]])
  {
    var wire: WireAttributes := map["7" := [], "07" := [""]];
    assert "7"[..0] == "" && "07"[..1] == "0" && "0"[..0] == "";
    assert ReadDigits("7") == Some(7) && ReadDigits("0") == Some(0) && ReadDigits("07") == Some(7);
    assert wire["07"] == [""] && [""][1..] == [] && DecodeStd("") == Some([]);
    var noOctets: seq<Byte> := [];
    assert DecodeEach([]) == Some([]) && DecodeEach([""]) == Some([noOctets] + []);
    assert [noOctets] + [] == [noOctets];
    assert Entry(wire, "7") == Some((7, [])) && Entry(wire, "07") == Some((7, [noOctets]));
    ConflictIsSeen(wire, "7", "07");
  }

  // ---------------------------------------------------------------------
  // Payloads.

  /** The attributes as they are written: the one map that `Writes` allows. */
  function WireOf(attributes: Attributes): WireAttributes {
    var texts := set kind | kind in attributes :: FormatInt(kind);
    map text | text in texts :: EncodeEach(ValuesUnder(attributes, text))
  }

  function ValuesUnder(attributes: Attributes, text: string): seq<seq<Byte>> {
    match ParseInt(text)
    case Some(kind) => if kind in attributes then attributes[kind] else []
    case None => []
  }

  lemma WireOfWrites(attributes: Attributes)
    ensures Writes(attributes, WireOf(attributes))
  {
    hide FormatInt, ParseInt, EncodeEach;
    var texts, wire := set kind | kind in attributes :: FormatInt(kind), WireOf(attributes);
    KeyCount(attributes, texts);
    assert wire.Keys == texts && |wire| == |wire.Keys|;
    forall kind | kind in attributes
      ensures FormatInt(kind) in wire && wire[FormatInt(kind)] == EncodeEach(attributes[kind]) {
      ParseOfFormat(kind);
      assert FormatInt(kind) in texts;
    }
  }

  lemma KeyCount(attributes: Attributes, texts: set<string>)
    requires texts == set kind | kind in attributes :: FormatInt(kind)
    ensures |texts| == |attributes|
    decreases |attributes|
  {
    hide FormatInt;
    if attributes != map[] {
      var kind :| kind in attributes;
      var rest := attributes - {kind};
      var others := set k | k in rest :: FormatInt(k);
      KeyCount(rest, others);
      assert attributes.Keys == rest.Keys + {kind} && |attributes| == |attributes.Keys| && |rest| == |rest.Keys|;
      if FormatInt(kind) in others {
        var k :| k in rest && FormatInt(k) == FormatInt(kind);
        FormatIntIsInjective(k, kind);
      }
      assert texts == others + {FormatInt(kind)};
    }
  }

  function PurchaseJson(p: Purchase): WirePurchase {
    WirePurchase(p.quantity, p.productId, p.transactionId, p.purchaseDateMs, p.originalTransactionId,
                 p.originalPurchaseDateMs, p.expiresDateMs, IdJson(p.webOrderLineItemId), p.cancellationDateMs,
                 p.cancellationReason, p.isTrialPeriod, p.isInIntroOfferPeriod, WireOf(p.unknownAttributes))
  }

  function PurchasesJson(ps: seq<Purchase>): seq<WirePurchase> {
    if ps == [] then [] else PurchasesJson(ps[..|ps| - 1]) + [PurchaseJson(ps[|ps| - 1])]
  }

  function ReceiptJson(r: Receipt): WireReceipt {
    WireReceipt(r.receiptType, IdJson(r.appItemId), r.bundleId, BytesJson(r.bundleIdBytes), r.applicationVersion,
                BytesJson(r.opaqueValue), BytesJson(r.sha1Hash), r.receiptCreationDateMs, IdJson(r.downloadId),
                IdJson(r.versionExternalIdentifier), PurchasesJson(r.inApp), r.originalPurchaseDateMs,
                r.preorderDateMs, r.originalApplicationVersion, r.expirationDateMs, WireOf(r.unknownAttributes))
  }

  /** The order the runtime visits the attributes of visit number `n` in. */
  type Orders = (nat, WireAttributes) -> seq<string>

  ghost predicate SoundOrders(orders: Orders) {
    forall n, wire :: Enumerates(orders(n, wire), wire.Keys)
  }

  function ReadAttributes(orders: Orders, n: nat, wire: WireAttributes): Option<Attributes> {
    if forall key :: key in orders(n, wire) ==> key in wire then ReadInOrder(wire, orders(n, wire)) else None
  }

  function PurchaseFromJson(orders: Orders, n: nat, w: WirePurchase): Option<Purchase> {
    match (IdFromJson(w.webOrderLineItemId), ReadAttributes(orders, n, w.unknownAttributes))
    case (Some(id), Some(attributes)) =>
      Some(Purchase(w.quantity, w.productId, w.transactionId, w.purchaseDateMs, w.originalTransactionId,
                    w.originalPurchaseDateMs, w.expiresDateMs, id, w.cancellationDateMs, w.cancellationReason,
                    w.isTrialPeriod, w.isInIntroOfferPeriod, attributes))
    case _ => None
  }

  function PurchasesFromJson(orders: Orders, ws: seq<WirePurchase>): Option<seq<Purchase>> {
    if ws == [] then Some([])
    else match (PurchasesFromJson(orders, ws[..|ws| - 1]), PurchaseFromJson(orders, |ws|, ws[|ws| - 1]))
    case (Some(before), Some(last)) => Some(before + [last])
    case _ => None
  }

  function ReceiptFromJson(orders: Orders, w: WireReceipt, environment: Option<Environment>): Option<Payload> {
    match (BytesFromJson(w.bundleIdBytes), BytesFromJson(w.opaqueValue), BytesFromJson(w.sha1Hash))
    case (Some(bundleIdBytes), Some(opaqueValue), Some(sha1Hash)) =>
      (match (IdFromJson(w.appItemId), IdFromJson(w.downloadId), IdFromJson(w.versionExternalIdentifier))
       case (Some(appItemId), Some(downloadId), Some(versionExternalIdentifier)) =>
         (match (ReadAttributes(orders, 0, w.unknownAttributes), PurchasesFromJson(orders, w.inApp))
          case (Some(attributes), Some(inApp)) =>
            Some(Payload(
              Receipt(w.receiptType, appItemId, w.bundleId, bundleIdBytes, w.applicationVersion, opaqueValue, sha1Hash,
                      w.receiptCreationDateMs, downloadId, versionExternalIdentifier, inApp, w.originalPurchaseDateMs,
                      w.preorderDateMs, w.originalApplicationVersion, w.expirationDateMs, attributes),
              environment))
          case _ => None)
       case _ => None)
    case _ => None
  }

  lemma AttributesComeBack(orders: Orders, n: nat, attributes: Attributes)
    requires SoundOrders(orders)
    ensures ReadAttributes(orders, n, WireOf(attributes)) == Some(attributes)
  {
    hide ReadInOrder, WireOf, Writes;
    var wire := WireOf(attributes);
    WireOfWrites(attributes);
    assert Enumerates(orders(n, wire), wire.Keys);
    AttributesRoundTrip(attributes, wire, orders(n, wire));
  }

  lemma PurchaseComesBack(orders: Orders, n: nat, p: Purchase)
    requires SoundOrders(orders)
    ensures PurchaseFromJson(orders, n, PurchaseJson(p)) == Some(p)
  {
    hide SoundOrders, WireOf, IdJson, IdFromJson, ReadAttributes;
    AttributesComeBack(orders, n, p.unknownAttributes);
    IdRoundTrip(p.webOrderLineItemId);
  }

  lemma {:induction false} PurchasesComeBack(orders: Orders, ps: seq<Purchase>)
    requires SoundOrders(orders)
    ensures PurchasesFromJson(orders, PurchasesJson(ps)) == Some(ps)
  {
    if ps != [] {
      hide SoundOrders, PurchaseJson, PurchaseFromJson, PurchasesJson, PurchasesFromJson;
      var init, last := ps[..|ps| - 1], ps[|ps| - 1];
      assert ps == init + [last];
      PurchasesComeBack(orders, init);
      WriteLast(init, last);
      PurchaseComesBack(orders, |PurchasesJson(init)| + 1, last);
      ReadLast(orders, PurchasesJson(init), PurchaseJson(last));
    }
  }

  lemma WriteLast(init: seq<Purchase>, last: Purchase)
    ensures PurchasesJson(init + [last]) == PurchasesJson(init) + [PurchaseJson(last)]
  {
    hide PurchaseJson;
    assert (init + [last])[..|init|] == init;
  }

  lemma ReadLast(orders: Orders, init: seq<WirePurchase>, last: WirePurchase)
    ensures PurchasesFromJson(orders, init + [last])
         == match (PurchasesFromJson(orders, init), PurchaseFromJson(orders, |init| + 1, last))
            case (Some(before), Some(p)) => Some(before + [p])
            case _ => None
  {
    hide PurchaseFromJson;
    assert (init + [last])[..|init|] == init;
  }

  /** Every payload comes back from its JSON, whatever order the runtime visits
      each map in, with the environment stated beside it. */
  lemma PayloadRoundTrip(orders: Orders, r: Receipt, environment: Option<Environment>)
    requires SoundOrders(orders)
    ensures ReceiptFromJson(orders, ReceiptJson(r), environment) == Some(Payload(r, environment))
  {
    hide SoundOrders, WireOf, IdJson, IdFromJson, ReadAttributes, BytesJson, BytesFromJson, PurchasesJson, PurchasesFromJson;
    IdRoundTrip(r.appItemId);
    IdRoundTrip(r.downloadId);
    IdRoundTrip(r.versionExternalIdentifier);
    BytesRoundTrip(r.bundleIdBytes);
    BytesRoundTrip(r.opaqueValue);
    BytesRoundTrip(r.sha1Hash);
    AttributesComeBack(orders, 0, r.unknownAttributes);
    PurchasesComeBack(orders, r.inApp);
  }

  // ---------------------------------------------------------------------
  // The loops over purchases.

  /** `ToJSON`: fill the list of purchases, then the whole. */
  method ToJson(r: Receipt, kindOrders: (nat, Attributes) -> seq<Int64>) returns (wire: WireReceipt)
    requires forall n, attributes :: Enumerates(kindOrders(n, attributes), attributes.Keys)
    ensures wire == ReceiptJson(r)
  {
    hide WireOf, Writes, IdJson, BytesJson;
    var inApp: seq<WirePurchase> := [];
    for i := 0 to |r.inApp|
      invariant inApp == PurchasesJson(r.inApp[..i])
    {
      var p := r.inApp[i];
      var attributes := AttributesJson(p.unknownAttributes, kindOrders(i + 1, p.unknownAttributes));
      WireOfWrites(p.unknownAttributes);
      WrittenOnce(p.unknownAttributes, attributes, WireOf(p.unknownAttributes));
      assert r.inApp[..i + 1][..i] == r.inApp[..i];
      inApp := inApp + [WirePurchase(
        p.quantity, p.productId, p.transactionId, p.purchaseDateMs, p.originalTransactionId,
        p.originalPurchaseDateMs, p.expiresDateMs, IdJson(p.webOrderLineItemId), p.cancellationDateMs,
        p.cancellationReason, p.isTrialPeriod, p.isInIntroOfferPeriod, attributes)];
    }
    assert r.inApp[..|r.inApp|] == r.inApp;
    var attributes := AttributesJson(r.unknownAttributes, kindOrders(0, r.unknownAttributes));
    WireOfWrites(r.unknownAttributes);
    WrittenOnce(r.unknownAttributes, attributes, WireOf(r.unknownAttributes));
    return WireReceipt(
      r.receiptType, IdJson(r.appItemId), r.bundleId, BytesJson(r.bundleIdBytes), r.applicationVersion,
      BytesJson(r.opaqueValue), BytesJson(r.sha1Hash), r.receiptCreationDateMs, IdJson(r.downloadId),
      IdJson(r.versionExternalIdentifier), inApp, r.originalPurchaseDateMs,
      r.preorderDateMs, r.originalApplicationVersion, r.expirationDateMs, attributes);
  }

  /** `purchase`: the id, then the attributes. */
  method PurchaseOf(w: WirePurchase, n: nat, orders: Orders) returns (r: Option<Purchase>)
    requires SoundOrders(orders)
    ensures r == PurchaseFromJson(orders, n, w)
  {
    hide IdFromJson, ReadInOrder;
    var id := IdFromJson(w.webOrderLineItemId);
    if id.None? {
      return None;
    }
    var attributes := AttributesFromJson(w.unknownAttributes, orders(n, w.unknownAttributes));
    if attributes.None? {
      return None;
    }
    return Some(Purchase(
      w.quantity, w.productId, w.transactionId, w.purchaseDateMs, w.originalTransactionId,
      w.originalPurchaseDateMs, w.expiresDateMs, id.value, w.cancellationDateMs, w.cancellationReason,
      w.isTrialPeriod, w.isInIntroOfferPeriod, attributes.value));
  }

  /** `receiptFromJSON`: ids and attributes first, then the purchases one by one;
      any part that does not read refuses the whole. */
  method FromJson(w: WireReceipt, environment: Option<Environment>, orders: Orders) returns (r: Option<Payload>)
    requires SoundOrders(orders)
    ensures r == ReceiptFromJson(orders, w, environment)
  {
    hide IdFromJson, BytesFromJson, PurchaseFromJson, ReadInOrder;
    var bundleIdBytes, opaqueValue, sha1Hash :=
      BytesFromJson(w.bundleIdBytes), BytesFromJson(w.opaqueValue), BytesFromJson(w.sha1Hash);
    if bundleIdBytes.None? || opaqueValue.None? || sha1Hash.None? {
      return None;
    }
    var appItemId, downloadId, versionExternalIdentifier :=
      IdFromJson(w.appItemId), IdFromJson(w.downloadId), IdFromJson(w.versionExternalIdentifier);
    if appItemId.None? || downloadId.None? || versionExternalIdentifier.None? {
      return None;
    }
    var attributes := AttributesFromJson(w.unknownAttributes, orders(0, w.unknownAttributes));
    if attributes.None? {
      return None;
    }
    var inApp: seq<Purchase> := [];
    for i := 0 to |w.inApp|
      invariant PurchasesFromJson(orders, w.inApp[..i]) == Some(inApp)
    {
      var purchase := PurchaseOf(w.inApp[i], i + 1, orders);
      assert w.inApp[..i + 1][..i] == w.inApp[..i];
      if purchase.None? {
        RefusedOnce(orders, w.inApp, i + 1);
        return None;
      }
      inApp := inApp + [purchase.value];
    }
    assert w.inApp[..|w.inApp|] == w.inApp;
    return Some(Payload(
      Receipt(w.receiptType, appItemId.value, w.bundleId, bundleIdBytes.value, w.applicationVersion, opaqueValue.value,
              sha1Hash.value, w.receiptCreationDateMs, downloadId.value, versionExternalIdentifier.value, inApp,
              w.originalPurchaseDateMs, w.preorderDateMs, w.originalApplicationVersion, w.expirationDateMs,
              attributes.value),
      environment));
  }

  lemma {:induction false} RefusedOnce(orders: Orders, ws: seq<WirePurchase>, n: nat)
    requires n <= |ws| && PurchasesFromJson(orders, ws[..n]).None?
    ensures PurchasesFromJson(orders, ws).None?
  {
    hide PurchaseFromJson;
    if n == |ws| {
      assert ws[..n] == ws;
    } else {
      assert ws[..|ws| - 1][..n] == ws[..n];
      RefusedOnce(orders, ws[..|ws| - 1], n);
    }
  }
}
