/** Compact JWS verification, `rust/src/jws.rs`: the three-segment split, the
    ordered stages, what an unreadable payload changes, when the clock is read and
    which keys are used. A `char` of a text here is one of its bytes. */
module Jws {
  import opened Foundation
  import opened OpenSsl
  import opened Verdicts
  import opened PathPolicy
  import opened Base64
  import opened Decimal
  import opened Json

  const MAX_JWS_BYTES: nat := 262_144
  const SIGNING_LEAF_OID: string := "1.2.840.113635.100.6.11.1"
  const WWDR_INTERMEDIATE_OID: string := "1.2.840.113635.100.6.2.1"

  // ---------------------------------------------------------------------
  // Segments.

  /** The text up to the first dot, and what follows that dot. */
  function Cut(text: string): (r: (string, Option<string>))
    ensures '.' !in r.0
    ensures text == r.0 + (if r.1.Some? then ['.'] + r.1.value else [])
    ensures r.1.None? ==> '.' !in text
  {
    if text == [] then ([], None)
    else if text[0] == '.' then ([], Some(text[1..]))
    else var (head, rest) := Cut(text[1..]); ([text[0]] + head, rest)
  }

  datatype Segments = Segments(header: string, payload: string, signature: string)

  function Joined(s: Segments): string {
    s.header + ['.'] + s.payload + ['.'] + s.signature
  }

  /** At most four parts are taken; exactly three are wanted. */
  function Split(jws: string): Option<Segments> {
    var (header, afterHeader) := Cut(jws);
    if afterHeader.None? then None
    else
      var (payload, afterPayload) := Cut(afterHeader.value);
      if afterPayload.None? then None
      else
        var (signature, more) := Cut(afterPayload.value);
        if more.Some? then None else Some(Segments(header, payload, signature))
  }

  lemma {:induction false} CutAtFirstDot(head: string, rest: string)
    requires '.' !in head
    ensures Cut(head + ['.'] + rest) == (head, Some(rest))
  {
    var text := head + ['.'] + rest;
    if head == [] {
      assert text[1..] == rest;
    } else {
      assert text[1..] == head[1..] + ['.'] + rest;
      CutAtFirstDot(head[1..], rest);
      assert head == [head[0]] + head[1..] && head[0] in head;
    }
  }

  lemma {:induction false} CutWithoutDot(text: string)
    requires '.' !in text
    ensures Cut(text) == (text, None)
  {
    if text != [] {
      CutWithoutDot(text[1..]);
      assert text == [text[0]] + text[1..] && text[0] in text;
    }
  }

  predicate DotFree(s: Segments) {
    '.' !in s.header && '.' !in s.payload && '.' !in s.signature
  }

  lemma SplitOfJoined(s: Segments)
    requires DotFree(s)
    ensures Split(Joined(s)) == Some(s)
  {
    hide Cut;
    assert Joined(s) == s.header + ['.'] + (s.payload + ['.'] + s.signature);
    CutAtFirstDot(s.header, s.payload + ['.'] + s.signature);
    CutAtFirstDot(s.payload, s.signature);
    CutWithoutDot(s.signature);
  }

  lemma JoinedOfSplit(jws: string)
    requires Split(jws).Some?
    ensures DotFree(Split(jws).value) && Joined(Split(jws).value) == jws
  {
    hide Cut;
    var s := Split(jws).value;
    var rest := Cut(jws).1.value;
    assert jws == s.header + (['.'] + rest);
    assert rest == s.payload + (['.'] + s.signature);
    assert Joined(s) == s.header + (['.'] + (s.payload + (['.'] + s.signature)));
  }

  /** A text splits into three segments exactly when it is three dot-free texts
      joined by dots. */
  lemma SplitIsExact(jws: string, s: Segments)
    ensures Split(jws) == Some(s) <==> jws == Joined(s) && DotFree(s)
  {
    hide Split, Joined, DotFree;
    if Split(jws) == Some(s) {
      JoinedOfSplit(jws);
    }
    if jws == Joined(s) && DotFree(s) {
      SplitOfJoined(s);
    }
  }

  /** The decoded segments of a JWS that passes the split and the strict decoder. */
  function DecodedSegments(jws: string): Option<(seq<Byte>, seq<Byte>, seq<Byte>)> {
    match Split(jws)
    case None => None
    case Some(s) =>
      match (DecodeBase64UrlStrict(s.header), DecodeBase64UrlStrict(s.payload), DecodeBase64UrlStrict(s.signature))
      case (Some(h), Some(p), Some(g)) => Some((h, p, g))
      case _ => None
  }

  /** One spelling per JWS: two texts with the same decoded segments are one text. */
  lemma OneSpellingPerJws(a: string, b: string)
    requires DecodedSegments(a).Some? && DecodedSegments(a) == DecodedSegments(b)
    ensures a == b
  {
    var s, t := Split(a).value, Split(b).value;
    SplitIsExact(a, s);
    SplitIsExact(b, t);
    var (h, p, g) := DecodedSegments(a).value;
    StrictIsCanonical(s.header, h);
    StrictIsCanonical(t.header, h);
    StrictIsCanonical(s.payload, p);
    StrictIsCanonical(t.payload, p);
    StrictIsCanonical(s.signature, g);
    StrictIsCanonical(t.signature, g);
  }

  // ---------------------------------------------------------------------
  // Documents.

  datatype Header = Header(alg: Option<string>, x5c: Option<seq<string>>)

  /** The readers of a header and of a payload's text with its members, `None` for
      bytes that are not a JSON object in UTF-8; and of a number with a fraction or
      an exponent, truncated to milliseconds. */
  datatype Readers = Readers(
    header: seq<Byte> -> Option<Header>,
    payload: seq<Byte> -> Option<(string, Members)>,
    fraction: string -> Option<Int64>)

  datatype ReadPayload = ReadPayload(json: string, signedDate: Option<Int64>, environment: Option<Environment>)

  datatype JsonPayload = JsonPayload(json: string, environment: Option<Environment>)

  /** A member read as epoch milliseconds: an integer that fits, or what the reader
      of fractions makes of another number. */
  function Instant(readers: Readers, members: Members, name: string): Option<Int64> {
    if name !in members || !members[name].Atom? then None
    else
      var literal := members[name].literal;
      if literal == [] || !(literal[0] == '-' || IsDigit(literal[0])) then None
      else if forall k :: 0 <= k < |literal| ==> literal[k] == '-' || IsDigit(literal[k]) then ParseInt(literal)
      else readers.fraction(literal)
  }

  function FromJwsEnvironment(claim: Value): Option<Environment> {
    if claim == Text("Production") then Some(Production)
    else if claim == Text("Sandbox") then Some(Sandbox)
    else None
  }

  /** The claim at one of the three places, if it is present there. */
  function ClaimIn(members: Members, container: string): Option<Value> {
    if container in members && members[container].Object? && "environment" in members[container].members
    then Some(members[container].members["environment"]) else None
  }

  /** The environment by the first of the three places that is present. */
  function EnvironmentOf(members: Members): Option<Environment> {
    if "environment" in members then FromJwsEnvironment(members["environment"])
    else match ClaimIn(members, "data")
      case Some(claim) => FromJwsEnvironment(claim)
      case None =>
        match ClaimIn(members, "summary")
        case Some(claim) => FromJwsEnvironment(claim)
        case None => None
  }

  /** The loop over the containers. */
  method ReadEnvironment(members: Members) returns (r: Option<Environment>)
    ensures r == EnvironmentOf(members)
  {
    if "environment" in members {
      return FromJwsEnvironment(members["environment"]);
    }
    var containers := ["data", "summary"];
    for k := 0 to |containers|
      invariant forall j :: 0 <= j < k ==> ClaimIn(members, containers[j]).None?
    {
      if containers[k] !in members || !members[containers[k]].Object? {
        continue;
      }
      var inner := members[containers[k]].members;
      if "environment" in inner {
        assert containers[0] == "data" && containers[1] == "summary";
        assert ClaimIn(members, containers[k]) == Some(inner["environment"]);
        return FromJwsEnvironment(inner["environment"]);
      }
    }
    assert ClaimIn(members, containers[0]).None? && ClaimIn(members, containers[1]).None?;
    return None;
  }

  function ReadPayloadOf(readers: Readers, bytes: seq<Byte>): Option<ReadPayload> {
    match readers.payload(bytes)
    case None => None
    case Some((json, members)) =>
      var signed := Instant(readers, members, "signedDate");
      Some(ReadPayload(json, if signed.Some? then signed else Instant(readers, members, "receiptCreationDate"), EnvironmentOf(members)))
  }

  // ---------------------------------------------------------------------
  // The stages.

  /** Everything outside the input that a verification depends on; a clock that
      panics is `None`. */
  datatype Setting = Setting(lib: Library, readers: Readers, anchors: seq<Certificate>, clock: Option<Int64>)

  /** What the stages before the chain leave. */
  datatype Parts = Parts(
    segments: Segments, payload: seq<Byte>, signature: seq<Byte>, leaf: Certificate, intermediate: Certificate)

  function Plain(reason: Reason): Failure {
    Failure(reason, NoDetail)
  }

  function ParseX5c(lib: Library, entry: string): Option<Certificate> {
    match DecodeReceiptBase64(entry)
    case None => None
    case Some(der) => lib.parse(der)
  }

  /** The stages before the chain: size, split, segments, header, certificates. */
  function Outer(e: Setting, jws: string): Result<Parts, Failure> {
    if |jws| > MAX_JWS_BYTES then Err(Plain(TooLarge))
    else match Split(jws)
    case None => Err(Plain(Malformed))
    case Some(s) =>
      match (DecodeBase64UrlStrict(s.header), DecodeBase64UrlStrict(s.payload), DecodeBase64UrlStrict(s.signature))
      case (Some(header), Some(payload), Some(signature)) =>
        (match e.readers.header(header)
         case None => Err(Plain(Malformed))
         case Some(h) =>
           if h.alg != Some("ES256") then Err(Plain(Malformed))
           else if h.x5c.None? || |h.x5c.value| != 3 then Err(Plain(Malformed))
           else
             match (ParseX5c(e.lib, h.x5c.value[0]), ParseX5c(e.lib, h.x5c.value[1]), ParseX5c(e.lib, h.x5c.value[2]))
             case (Some(leaf), Some(intermediate), Some(_)) => Ok(Parts(s, payload, signature, leaf, intermediate))
             case _ => Err(Plain(InvalidCertificate)))
      case _ => Err(Plain(Malformed))
  }

  function Bytes(text: string): seq<Byte> {
    seq(|text|, k requires 0 <= k < |text| => text[k] as int % 256)
  }

  function SigningInput(s: Segments): seq<Byte> {
    Bytes(s.header + ['.'] + s.payload)
  }

  /** The instant the chain is judged at, when the payload states a usable one. */
  function StatedDate(e: Setting, p: Parts): Option<Int64> {
    match ReadPayloadOf(e.readers, p.payload)
    case None => None
    case Some(read) => read.signedDate
  }

  function ChainInstant(e: Setting, p: Parts): Option<Int64> {
    var stated := StatedDate(e, p);
    if stated.Some? then stated else e.clock
  }

  /** The stages from the clock to the signature; `None` when all pass. */
  function Inner(e: Setting, p: Parts): Option<Failure> {
    match ChainInstant(e, p)
    case None => Some(Plain(InternalError))
    case Some(at) =>
      match ValidatePair(e.lib, p.leaf, p.intermediate, e.anchors, at)
      case Err(failure) => Some(failure)
      case Ok(_) =>
        if !e.lib.hasExtension(p.leaf, SIGNING_LEAF_OID) then Some(Plain(InvalidCertificatePurpose))
        else if !e.lib.hasExtension(p.intermediate, WWDR_INTERMEDIATE_OID) then Some(Plain(InvalidCertificatePurpose))
        else if !e.lib.verifyEs256(p.leaf, p.signature, SigningInput(p.segments)) then Some(Plain(InvalidSignature))
        else None
  }

  function Verdict(e: Setting, jws: string): Result<JsonPayload, Failure> {
    match Outer(e, jws)
    case Err(failure) => Err(failure)
    case Ok(p) =>
      match Inner(e, p)
      case Some(failure) => Err(failure)
      case None =>
        match ReadPayloadOf(e.readers, p.payload)
        case None => Err(Plain(UnreadablePayload))
        case Some(read) => Ok(JsonPayload(read.json, read.environment))
  }

  // ---------------------------------------------------------------------
  // The first failing stage decides.

  function Fails(bad: bool, reason: Reason): Option<Failure> {
    if bad then Some(Plain(reason)) else None
  }

  /** Each outer stage's own verdict: `Some` when it fails on this input. A stage
      whose input an earlier stage could not give passes. */
  function OuterStages(e: Setting, jws: string): seq<Option<Failure>> {
    var split := Split(jws);
    var header := if split.Some? then DecodeBase64UrlStrict(split.value.header) else None;
    var payload := if split.Some? then DecodeBase64UrlStrict(split.value.payload) else None;
    var signature := if split.Some? then DecodeBase64UrlStrict(split.value.signature) else None;
    var read := if header.Some? then e.readers.header(header.value) else None;
    var x5c := if read.Some? && read.value.x5c.Some? then read.value.x5c.value else [];
    [ Fails(|jws| > MAX_JWS_BYTES, TooLarge),
      Fails(split.None?, Malformed),
      Fails(split.Some? && header.None?, Malformed),
      Fails(split.Some? && payload.None?, Malformed),
      Fails(split.Some? && signature.None?, Malformed),
      Fails(header.Some? && read.None?, Malformed),
      Fails(read.Some? && read.value.alg != Some("ES256"), Malformed),
      Fails(read.Some? && |x5c| != 3, Malformed),
      Fails(|x5c| == 3 && ParseX5c(e.lib, x5c[0]).None?, InvalidCertificate),
      Fails(|x5c| == 3 && ParseX5c(e.lib, x5c[1]).None?, InvalidCertificate),
      Fails(|x5c| == 3 && ParseX5c(e.lib, x5c[2]).None?, InvalidCertificate) ]
  }

  /** The stages from the clock on, each on its own. */
  function InnerStages(e: Setting, p: Parts): seq<Option<Failure>> {
    var at := ChainInstant(e, p);
    var pair := if at.Some? then ValidatePair(e.lib, p.leaf, p.intermediate, e.anchors, at.value) else Ok(());
    [ Fails(at.None?, InternalError),
      (match pair case Ok(_) => None case Err(failure) => Some(failure)),
      Fails(!e.lib.hasExtension(p.leaf, SIGNING_LEAF_OID), InvalidCertificatePurpose),
      Fails(!e.lib.hasExtension(p.intermediate, WWDR_INTERMEDIATE_OID), InvalidCertificatePurpose),
      Fails(!e.lib.verifyEs256(p.leaf, p.signature, SigningInput(p.segments)), InvalidSignature),
      Fails(ReadPayloadOf(e.readers, p.payload).None?, UnreadablePayload) ]
  }

  /** The first stage that fails, if any does. */
  function First(stages: seq<Option<Failure>>): Option<Failure> {
    if stages == [] then None else if stages[0].Some? then stages[0] else First(stages[1..])
  }

  lemma {:induction false} FirstMeans(stages: seq<Option<Failure>>, k: nat)
    requires k < |stages| && stages[k].Some? && forall j :: 0 <= j < k ==> stages[j].None?
    ensures First(stages) == stages[k]
  {
    if k > 0 {
      forall j | 0 <= j < k - 1 ensures stages[1..][j].None? {
        assert stages[j + 1].None?;
      }
      FirstMeans(stages[1..], k - 1);
    }
  }

  lemma {:induction false} FirstOfNone(stages: seq<Option<Failure>>)
    requires forall k :: 0 <= k < |stages| ==> stages[k].None?
    ensures First(stages) == None
  {
    if stages != [] {
      FirstOfNone(stages[1..]);
    }
  }

  lemma OuterIsItsStages(e: Setting, jws: string)
    ensures First(OuterStages(e, jws)) == match Outer(e, jws) case Ok(_) => None case Err(failure) => Some(failure)
  {
    hide DecodeBase64UrlStrict, Split, ParseX5c, First;
    var s := OuterStages(e, jws);
    if s[0].Some? { FirstMeans(s, 0); }
    else if s[1].Some? { FirstMeans(s, 1); }
    else if s[2].Some? { FirstMeans(s, 2); }
    else if s[3].Some? { FirstMeans(s, 3); }
    else if s[4].Some? { FirstMeans(s, 4); }
    else if s[5].Some? { FirstMeans(s, 5); }
    else if s[6].Some? { FirstMeans(s, 6); }
    else if s[7].Some? { FirstMeans(s, 7); }
    else if s[8].Some? { FirstMeans(s, 8); }
    else if s[9].Some? { FirstMeans(s, 9); }
    else if s[10].Some? { FirstMeans(s, 10); }
    else { FirstOfNone(s); }
  }

  lemma InnerIsItsStages(e: Setting, p: Parts)
    ensures First(InnerStages(e, p))
         == if Inner(e, p).Some? then Inner(e, p)
            else if ReadPayloadOf(e.readers, p.payload).None? then Some(Plain(UnreadablePayload)) else None
  {
    hide ValidatePair, ReadPayloadOf, ChainInstant, SigningInput, First;
    var s := InnerStages(e, p);
    if s[0].Some? { FirstMeans(s, 0); }
    else if s[1].Some? { FirstMeans(s, 1); }
    else if s[2].Some? { FirstMeans(s, 2); }
    else if s[3].Some? { FirstMeans(s, 3); }
    else if s[4].Some? { FirstMeans(s, 4); }
    else if s[5].Some? { FirstMeans(s, 5); }
    else { FirstOfNone(s); }
  }

  lemma {:induction false} FirstOfBoth(a: seq<Option<Failure>>, b: seq<Option<Failure>>)
    ensures First(a + b) == if First(a).Some? then First(a) else First(b)
  {
    if a == [] {
      assert a + b == b;
    } else {
      assert (a + b)[1..] == a[1..] + b;
      FirstOfBoth(a[1..], b);
    }
  }

  /** Every stage in order; the inner ones need what the outer ones leave. */
  function Stages(e: Setting, jws: string): seq<Option<Failure>> {
    OuterStages(e, jws) + (match Outer(e, jws) case Ok(p) => InnerStages(e, p) case Err(_) => [])
  }

  /** The verdict is the failure of the first stage that fails, and the payload
      read exactly when none does. */
  lemma FirstFailingStageDecides(e: Setting, jws: string)
    ensures match First(Stages(e, jws))
            case Some(failure) => Verdict(e, jws) == Err(failure)
            case None =>
              && Outer(e, jws).Ok?
              && var read := ReadPayloadOf(e.readers, Outer(e, jws).value.payload);
                 read.Some? && Verdict(e, jws) == Ok(JsonPayload(read.value.json, read.value.environment))
  {
    hide OuterStages, InnerStages, Outer, Inner, ReadPayloadOf, First;
    OuterIsItsStages(e, jws);
    if Outer(e, jws).Ok? {
      InnerIsItsStages(e, Outer(e, jws).value);
      FirstOfBoth(OuterStages(e, jws), InnerStages(e, Outer(e, jws).value));
    } else {
      assert Stages(e, jws) == OuterStages(e, jws);
    }
  }

  // ---------------------------------------------------------------------
  // An unreadable payload, and the clock.

  /** Two readers that differ only in that one cannot read this payload and the
      other reads it as stating no usable date. */
  ghost predicate UnreadableOrUndated(unreadable: Setting, undated: Setting, payload: seq<Byte>) {
    && undated == unreadable.(readers := undated.readers)
    && undated.readers.header == unreadable.readers.header
    && unreadable.readers.payload(payload).None?
    && ReadPayloadOf(undated.readers, payload).Some?
    && ReadPayloadOf(undated.readers, payload).value.signedDate.None?
  }

  /** An unreadable payload gets the verdict of an undated one at every earlier
      stage, and turns only the final success into `UNREADABLE_PAYLOAD`. */
  lemma UnreadableIsUndatedUntilTheEnd(unreadable: Setting, undated: Setting, jws: string)
    requires Outer(unreadable, jws).Ok? ==> UnreadableOrUndated(unreadable, undated, Outer(unreadable, jws).value.payload)
    requires Outer(unreadable, jws).Err? ==>
               undated == unreadable.(readers := undated.readers) && undated.readers.header == unreadable.readers.header
    ensures Verdict(undated, jws).Err? ==> Verdict(unreadable, jws) == Verdict(undated, jws)
    ensures Verdict(undated, jws).Ok? ==> Verdict(unreadable, jws) == Err(Plain(UnreadablePayload))
  {
    hide ValidatePair, DecodeBase64UrlStrict, Split, ParseX5c, SigningInput, EnvironmentOf;
    assert Outer(undated, jws) == Outer(unreadable, jws);
  }

  /** How often a verification reads the clock. */
  function ClockReads(e: Setting, jws: string): nat {
    match Outer(e, jws)
    case Err(_) => 0
    case Ok(p) => if StatedDate(e, p).Some? then 0 else 1
  }

  /** The clock matters only when it is read: with a stated date, or a failure
      before the chain, every clock gives the same verdict. */
  lemma UnreadClockIsIrrelevant(e: Setting, other: Option<Int64>, jws: string)
    requires ClockReads(e, jws) == 0
    ensures Verdict(e.(clock := other), jws) == Verdict(e, jws)
  {
    hide ValidatePair, DecodeBase64UrlStrict, Split, ParseX5c, SigningInput, ReadPayloadOf;
    assert Outer(e.(clock := other), jws) == Outer(e, jws);
  }

  /** No more than the cap decides an oversized input: any two get one verdict. */
  lemma OversizedIsTooLarge(e: Setting, jws: string)
    requires |jws| > MAX_JWS_BYTES
    ensures Verdict(e, jws) == Err(Plain(TooLarge))
  {
  }
}
