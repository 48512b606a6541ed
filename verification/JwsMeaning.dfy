/** What a verified JWS is: every part of the answer traced to the segment of the
    text it came from. */
module JwsMeaning {
  import opened Foundation
  import opened OpenSsl
  import opened Verdicts
  import opened PathPolicy
  import opened Base64
  import opened Decimal
  import opened Json
  import opened Jws

  // ---------------------------------------------------------------------
  // Dates and environments.

  /** Every 64-bit integer a member is written as is read as that instant; a text, an
      object or a missing member is none. */
  lemma InstantOfInteger(readers: Readers, members: Members, name: string, n: Int64)
    ensures Instant(readers, members[name := Atom(FormatInt(n))], name) == Some(n)
    ensures forall t :: Instant(readers, members[name := Text(t)], name) == None
    ensures forall o :: Instant(readers, members[name := Object(o)], name) == None
    ensures name !in members ==> Instant(readers, members, name) == None
  {
    hide ParseInt, ReadDigits;
    ParseOfFormat(n);
    IntegerCharacters(n);
    hide FormatInt;
    var literal := FormatInt(n);
    assert members[name := Atom(literal)][name] == Atom(literal);
  }

  lemma IntegerCharacters(n: int)
    ensures var literal := FormatInt(n);
            && literal != [] && (literal[0] == '-' || IsDigit(literal[0]))
            && forall k :: 0 <= k < |literal| ==> literal[k] == '-' || IsDigit(literal[k])
  {
    hide Digits;
  }

  /** A number with a fraction or an exponent is left to the reader of fractions. */
  lemma InstantOfFraction(readers: Readers, members: Members, name: string, literal: string, k: nat)
    requires literal != [] && (literal[0] == '-' || IsDigit(literal[0]))
    requires k < |literal| && literal[k] != '-' && !IsDigit(literal[k])
    ensures Instant(readers, members[name := Atom(literal)], name) == readers.fraction(literal)
  {
    assert members[name := Atom(literal)][name] == Atom(literal);
  }

  /** The claim that decides the environment: at the top, else in `data`, else in
      `summary`, the first that is there. */
  ghost predicate Claims(members: Members, claim: Option<Value>) {
    var inside := (name: string) =>
      if name in members && members[name].Object? && "environment" in members[name].members
      then Some(members[name].members["environment"]) else None;
    claim == if "environment" in members then Some(members["environment"])
             else if inside("data").Some? then inside("data") else inside("summary")
  }

  lemma EnvironmentMeans(members: Members, claim: Option<Value>)
    requires Claims(members, claim)
    ensures EnvironmentOf(members) == Some(Production) <==> claim == Some(Text("Production"))
    ensures EnvironmentOf(members) == Some(Sandbox) <==> claim == Some(Text("Sandbox"))
  {
    assert |"Production"| != |"Sandbox"|;
  }

  // ---------------------------------------------------------------------
  // Success.

  /** Everything a success rests on: the decoded segments, the header read from the
      first, the three certificates of its `x5c`, the text and members read from the
      second, the claim in them, and the instant the chain was judged at. */
  datatype Evidence = Evidence(
    segments: Segments,
    headerOctets: seq<Byte>,
    payloadOctets: seq<Byte>,
    signatureOctets: seq<Byte>,
    entries: seq<string>,
    encodings: seq<seq<Byte>>,
    certificates: seq<Certificate>,
    text: string,
    members: Members,
    claim: Option<Value>,
    at: Int64)

  ghost predicate SegmentsDecode(jws: string, v: Evidence) {
    && |jws| <= 262_144
    && jws == v.segments.header + "." + v.segments.payload + "." + v.segments.signature
    && '.' !in v.segments.header && '.' !in v.segments.payload && '.' !in v.segments.signature
    && v.segments.header == EncodeUrl(v.headerOctets)
    && v.segments.payload == EncodeUrl(v.payloadOctets)
    && v.segments.signature == EncodeUrl(v.signatureOctets)
  }

  ghost predicate HeaderNames(e: Setting, v: Evidence) {
    && e.readers.header(v.headerOctets) == Some(Header(Some("ES256"), Some(v.entries)))
    && |v.entries| == 3 && |v.encodings| == 3 && |v.certificates| == 3
    && forall i :: 0 <= i < 3 ==>
         && DecodeReceiptBase64(v.entries[i]) == Some(v.encodings[i])
         && e.lib.parse(v.encodings[i]) == Some(v.certificates[i])
  }

  /** The payload's own date if it states one, `signedDate` before
      `receiptCreationDate`, and the clock otherwise. */
  ghost predicate JudgedAt(e: Setting, v: Evidence) {
    var signed := Instant(e.readers, v.members, "signedDate");
    var created := Instant(e.readers, v.members, "receiptCreationDate");
    if signed.Some? then v.at == signed.value
    else if created.Some? then v.at == created.value
    else e.clock == Some(v.at)
  }

  /** The octets of the first two segments as they were sent, a dot between them. */
  ghost predicate SignedOctets(v: Evidence, octets: seq<Byte>) {
    var sent := v.segments.header + "." + v.segments.payload;
    |octets| == |sent| && forall i :: 0 <= i < |sent| ==> octets[i] == sent[i] as int % 256
  }

  ghost predicate ChainHolds(e: Setting, v: Evidence, octets: seq<Byte>) {
    && |v.certificates| == 3
    && ValidatePair(e.lib, v.certificates[0], v.certificates[1], e.anchors, v.at).Ok?
    && e.lib.hasExtension(v.certificates[0], "1.2.840.113635.100.6.11.1")
    && e.lib.hasExtension(v.certificates[1], "1.2.840.113635.100.6.2.1")
    && SignedOctets(v, octets)
    && e.lib.verifyEs256(v.certificates[0], v.signatureOctets, octets)
  }

  ghost predicate Answers(e: Setting, v: Evidence, answer: JsonPayload) {
    && e.readers.payload(v.payloadOctets) == Some((v.text, v.members)) && Claims(v.members, v.claim)
    && answer.json == v.text
    && (answer.environment == Some(Production) <==> v.claim == Some(Text("Production")))
    && (answer.environment == Some(Sandbox) <==> v.claim == Some(Text("Sandbox")))
  }

  ghost predicate Supports(e: Setting, jws: string, v: Evidence, octets: seq<Byte>, answer: JsonPayload) {
    SegmentsDecode(jws, v) && HeaderNames(e, v) && JudgedAt(e, v) && ChainHolds(e, v, octets) && Answers(e, v, answer)
  }

  // ---------------------------------------------------------------------
  // From the evidence to the verdict.

  lemma JoinedIs(s: Segments)
    ensures Joined(s) == s.header + "." + s.payload + "." + s.signature
    ensures DotFree(s) <==> '.' !in s.header && '.' !in s.payload && '.' !in s.signature
  {
  }

  lemma SegmentsAreRead(jws: string, v: Evidence)
    requires SegmentsDecode(jws, v)
    ensures |jws| <= MAX_JWS_BYTES && Split(jws) == Some(v.segments)
    ensures DecodeBase64UrlStrict(v.segments.header) == Some(v.headerOctets)
    ensures DecodeBase64UrlStrict(v.segments.payload) == Some(v.payloadOctets)
    ensures DecodeBase64UrlStrict(v.segments.signature) == Some(v.signatureOctets)
  {
    hide Split, DecodeBase64UrlStrict, EncodeUrl, Joined, DotFree;
    JoinedIs(v.segments);
    SplitIsExact(jws, v.segments);
    StrictIsCanonical(v.segments.header, v.headerOctets);
    StrictIsCanonical(v.segments.payload, v.payloadOctets);
    StrictIsCanonical(v.segments.signature, v.signatureOctets);
  }

  /** The parts the evidence leaves for the chain. */
  function PartsOf(v: Evidence): Parts
    requires |v.certificates| == 3
  {
    Parts(v.segments, v.payloadOctets, v.signatureOctets, v.certificates[0], v.certificates[1])
  }

  lemma OuterFromEvidence(e: Setting, jws: string, v: Evidence)
    requires SegmentsDecode(jws, v) && HeaderNames(e, v)
    ensures Outer(e, jws) == Ok(PartsOf(v))
  {
    hide Split, DecodeBase64UrlStrict, SegmentsDecode, DecodeReceiptBase64;
    SegmentsAreRead(jws, v);
    assert ParseX5c(e.lib, v.entries[0]) == Some(v.certificates[0]);
    assert ParseX5c(e.lib, v.entries[1]) == Some(v.certificates[1]);
    assert ParseX5c(e.lib, v.entries[2]) == Some(v.certificates[2]);
    hide ParseX5c;
  }

  lemma OctetsAreSigned(v: Evidence, octets: seq<Byte>)
    ensures SignedOctets(v, octets) <==> octets == SigningInput(v.segments)
  {
    var sent := v.segments.header + "." + v.segments.payload;
    assert SigningInput(v.segments) == Bytes(sent);
    if SignedOctets(v, octets) {
      assert octets == Bytes(sent);
    }
  }

  lemma InnerFromEvidence(e: Setting, v: Evidence, octets: seq<Byte>)
    requires JudgedAt(e, v) && ChainHolds(e, v, octets) && e.readers.payload(v.payloadOctets) == Some((v.text, v.members))
    ensures Inner(e, PartsOf(v)) == None
  {
    hide ValidatePair, SigningInput, Instant, EnvironmentOf, SignedOctets;
    OctetsAreSigned(v, octets);
  }

  lemma AnswerIsRead(e: Setting, v: Evidence, answer: JsonPayload)
    requires e.readers.payload(v.payloadOctets) == Some((v.text, v.members)) && Claims(v.members, v.claim)
    ensures ReadPayloadOf(e.readers, v.payloadOctets).Some?
    ensures var read := ReadPayloadOf(e.readers, v.payloadOctets).value;
            Answers(e, v, answer) <==> answer == JsonPayload(read.json, read.environment)
  {
    hide EnvironmentOf, Instant, Claims;
    EnvironmentMeans(v.members, v.claim);
    ThreeEnvironments(answer.environment);
    ThreeEnvironments(EnvironmentOf(v.members));
    assert |"Production"| != |"Sandbox"|;
  }

  lemma ThreeEnvironments(e: Option<Environment>)
    ensures e == None || e == Some(Production) || e == Some(Sandbox)
  {
    if e.Some? {
      assert e.value.Production? || e.value.Sandbox?;
    }
  }

  lemma EvidenceSuffices(e: Setting, jws: string, v: Evidence, octets: seq<Byte>, answer: JsonPayload)
    requires Supports(e, jws, v, octets, answer)
    ensures Verdict(e, jws) == Ok(answer)
  {
    hide SegmentsDecode, HeaderNames, JudgedAt, ChainHolds, Outer, Inner, ReadPayloadOf, Claims;
    OuterFromEvidence(e, jws, v);
    InnerFromEvidence(e, v, octets);
    AnswerIsRead(e, v, answer);
  }

  // ---------------------------------------------------------------------
  // From the verdict to the evidence.

  lemma EvidenceOfOuter(e: Setting, jws: string) returns (v: Evidence)
    requires Outer(e, jws).Ok?
    ensures SegmentsDecode(jws, v) && HeaderNames(e, v) && PartsOf(v) == Outer(e, jws).value
  {
    hide Split, DecodeBase64UrlStrict, DecodeReceiptBase64, EncodeUrl, Joined, DotFree;
    var s := Split(jws).value;
    var h := DecodeBase64UrlStrict(s.header).value;
    var p := DecodeBase64UrlStrict(s.payload).value;
    var g := DecodeBase64UrlStrict(s.signature).value;
    var entries := e.readers.header(h).value.x5c.value;
    var encodings := [DecodeReceiptBase64(entries[0]).value, DecodeReceiptBase64(entries[1]).value,
                      DecodeReceiptBase64(entries[2]).value];
    var certificates := [e.lib.parse(encodings[0]).value, e.lib.parse(encodings[1]).value, e.lib.parse(encodings[2]).value];
    v := Evidence(s, h, p, g, entries, encodings, certificates, "", map[], None, 0);
    JoinedIs(s);
    SplitIsExact(jws, s);
    StrictIsCanonical(s.header, h);
    StrictIsCanonical(s.payload, p);
    StrictIsCanonical(s.signature, g);
  }

  lemma ClaimExists(members: Members) returns (claim: Option<Value>)
    ensures Claims(members, claim)
  {
    if "environment" in members {
      claim := Some(members["environment"]);
    } else {
      claim := ClaimIn(members, "data");
      if claim.None? {
        claim := ClaimIn(members, "summary");
      }
    }
  }

  lemma EvidenceOfSuccess(e: Setting, jws: string, answer: JsonPayload) returns (v: Evidence, octets: seq<Byte>)
    requires Verdict(e, jws) == Ok(answer)
    ensures Supports(e, jws, v, octets, answer)
  {
    hide Outer, ValidatePair, EnvironmentOf, Instant, Claims, SignedOctets, SigningInput, EncodeUrl, DecodeReceiptBase64;
    var p := Outer(e, jws).value;
    v := EvidenceOfOuter(e, jws);
    var (text, members) := e.readers.payload(p.payload).value;
    var claim := ClaimExists(members);
    v := v.(text := text, members := members, claim := claim, at := ChainInstant(e, p).value);
    octets := SigningInput(v.segments);
    OctetsAreSigned(v, octets);
    AnswerIsRead(e, v, answer);
  }

  /** A JWS verifies with an answer exactly when there is evidence for it: canonical
      segments joined by dots; a header, read from the first, that names `ES256` and
      three certificates; a chain of the first two, judged at the payload's date or
      the clock's, with Apple's marker extensions; the first certificate's signature
      over the two segments as sent; and the text and the environment read from the
      second segment. */
  lemma SuccessIff(e: Setting, jws: string, answer: JsonPayload)
    ensures Verdict(e, jws) == Ok(answer) <==> exists v, octets :: Supports(e, jws, v, octets, answer)
  {
    hide Verdict, Supports;
    if Verdict(e, jws) == Ok(answer) {
      var v, octets := EvidenceOfSuccess(e, jws, answer);
    }
    if v, octets :| Supports(e, jws, v, octets, answer) {
      EvidenceSuffices(e, jws, v, octets, answer);
    }
  }
}
