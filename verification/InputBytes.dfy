/** What a host hands the core: node's `inputBytes`, and why cutting an input at
    the core's limit changes no answer. A JavaScript string is a sequence of UTF-16
    code units, not always well formed. */
module InputBytes {
  import opened Foundation
  import opened Verdicts
  import opened Receipts
  import Jws
  import Endpoint
  import GuestCall

  type CodeUnit = u: int | 0 <= u < 0x1_0000

  type CodePoint = c: int | 0 <= c < 0x11_0000

  const REPLACEMENT: CodePoint := 0xFFFD

  predicate IsHigh(u: CodeUnit) {
    0xD800 <= u < 0xDC00
  }

  predicate IsLow(u: CodeUnit) {
    0xDC00 <= u < 0xE000
  }

  // ---------------------------------------------------------------------
  // UTF-8.

  /** Section 3 of RFC 3629. */
  function Utf8(c: CodePoint): (b: seq<Byte>)
    ensures 1 <= |b| <= 4
    ensures c < 0x1_0000 ==> |b| <= 3
  {
    if c < 0x80 then [c]
    else if c < 0x800 then [0xC0 + c / 64, 0x80 + c % 64]
    else if c < 0x1_0000 then [0xE0 + c / 4096, 0x80 + c / 64 % 64, 0x80 + c % 64]
    else [0xF0 + c / 262144, 0x80 + c / 4096 % 64, 0x80 + c / 64 % 64, 0x80 + c % 64]
  }

  /** The first code point of a text and the number of units it takes; a surrogate
      without its other half is read as the replacement character. */
  function First(text: seq<CodeUnit>): (r: (CodePoint, nat))
    requires text != []
    ensures 1 <= r.1 <= |text| && r.1 <= 2
    ensures r.1 == 1 ==> r.0 < 0x1_0000
  {
    if IsHigh(text[0]) && |text| >= 2 && IsLow(text[1])
    then (0x1_0000 + (text[0] as int - 0xD800) * 1024 + (text[1] as int - 0xDC00), 2)
    else if IsHigh(text[0]) || IsLow(text[0]) then (REPLACEMENT, 1)
    else (text[0], 1)
  }

  /** The UTF-8 encoding of a text. */
  function Encode(text: seq<CodeUnit>): seq<Byte> {
    if text == [] then []
    else var (c, units) := First(text); Utf8(c) + Encode(text[units..])
  }

  // ---------------------------------------------------------------------
  // What the code units mean: UTF-16, section 2.1 of RFC 2781.

  /** A code point that is not a surrogate. */
  predicate IsScalar(c: CodePoint) {
    !(0xD800 <= c < 0xE000)
  }

  function Utf16(c: CodePoint): seq<CodeUnit>
    requires IsScalar(c)
  {
    if c < 0x1_0000 then [c] else [0xD800 + (c - 0x1_0000) / 1024, 0xDC00 + (c - 0x1_0000) % 1024]
  }

  /** The first code point of a text is the one its first units spell. */
  lemma FirstOfUtf16(c: CodePoint, rest: seq<CodeUnit>)
    requires IsScalar(c)
    ensures First(Utf16(c) + rest) == (c, |Utf16(c)|)
  {
    var text := Utf16(c) + rest;
    if c >= 0x1_0000 {
      assert text[0] == 0xD800 + (c - 0x1_0000) / 1024 && text[1] == 0xDC00 + (c - 0x1_0000) % 1024;
      assert (c - 0x1_0000) / 1024 < 1024;
    }
  }

  /** A surrogate without its other half: a high one not followed by a low one, or a
      low one that no high one came before. */
  predicate IsLone(text: seq<CodeUnit>) {
    text != [] && (IsLow(text[0]) || (IsHigh(text[0]) && (|text| == 1 || !IsLow(text[1]))))
  }

  /** Such a surrogate, and nothing else, becomes the replacement character. */
  lemma LoneIsReplaced(text: seq<CodeUnit>)
    requires text != []
    ensures IsLone(text) ==> First(text) == (0xFFFD, 1)
    ensures !IsLone(text) ==> IsScalar(First(text).0) && text[..First(text).1] == Utf16(First(text).0)
  {
    if !IsLone(text) && IsHigh(text[0]) {
      var high, low := text[0] as int - 0xD800, text[1] as int - 0xDC00;
      assert (high * 1024 + low) / 1024 == high && (high * 1024 + low) % 1024 == low;
      assert text[..2] == [text[0], text[1]];
    }
  }

  function Utf16All(cs: seq<CodePoint>): seq<CodeUnit>
    requires forall i :: 0 <= i < |cs| ==> IsScalar(cs[i])
  {
    if cs == [] then [] else Utf16(cs[0]) + Utf16All(cs[1..])
  }

  function Utf8All(cs: seq<CodePoint>): seq<Byte> {
    if cs == [] then [] else Utf8(cs[0]) + Utf8All(cs[1..])
  }

  /** A well-formed text is encoded code point by code point. */
  lemma {:induction false} EncodeOfUtf16(cs: seq<CodePoint>)
    requires forall i :: 0 <= i < |cs| ==> IsScalar(cs[i])
    ensures Encode(Utf16All(cs)) == Utf8All(cs)
  {
    hide Utf8, Utf16, First;
    if cs != [] {
      var first, rest := Utf16(cs[0]), Utf16All(cs[1..]);
      NotEmpty(cs[0]);
      FirstOfUtf16(cs[0], rest);
      EncodeOfUtf16(cs[1..]);
      assert (first + rest)[|first|..] == rest;
    }
  }

  lemma NotEmpty(c: CodePoint)
    requires IsScalar(c)
    ensures Utf16(c) != []
  {
  }

  /** A code unit never takes more than three bytes. */
  lemma {:induction false} AtMostThreeBytesAUnit(text: seq<CodeUnit>)
    ensures |Encode(text)| <= 3 * |text|
  {
    hide Utf8;
    if text != [] {
      AtMostThreeBytesAUnit(text[First(text).1..]);
    }
  }

  /** How many bytes the first byte of a code point announces. */
  function Announced(lead: Byte): nat {
    if lead < 0x80 then 1 else if lead < 0xE0 then 2 else if lead < 0xF0 then 3 else 4
  }

  function CodePointOf(b: seq<Byte>): int
    requires 1 <= |b| <= 4
  {
    if |b| == 1 then b[0]
    else if |b| == 2 then (b[0] as int - 0xC0) * 64 + (b[1] as int - 0x80)
    else if |b| == 3 then (b[0] as int - 0xE0) * 4096 + (b[1] as int - 0x80) * 64 + (b[2] as int - 0x80)
    else (b[0] as int - 0xF0) * 262144 + (b[1] as int - 0x80) * 4096 + (b[2] as int - 0x80) * 64 + (b[3] as int - 0x80)
  }

  /** A code point can be read back from its bytes, whose number the first states. */
  lemma Utf8RoundTrip(c: CodePoint)
    ensures CodePointOf(Utf8(c)) == c && Announced(Utf8(c)[0]) == |Utf8(c)|
  {
    assert c / 4096 == c / 64 / 64 && c / 262144 == c / 64 / 64 / 64;
  }

  // ---------------------------------------------------------------------
  // Encoding into a buffer.

  /** What fits a buffer of `room` bytes: whole code points, up to the first that
      does not fit. */
  function Fitting(text: seq<CodeUnit>, room: nat): (b: seq<Byte>)
    ensures |b| <= room
    decreases text
  {
    if text == [] then []
    else
      var (c, units) := First(text);
      if |Utf8(c)| > room then [] else Utf8(c) + Fitting(text[units..], room - |Utf8(c)|)
  }

  /** It is a prefix of the encoding, and the whole of it unless less than four
      bytes of room are left. */
  lemma {:induction false} FittingIsAPrefix(text: seq<CodeUnit>, room: nat)
    ensures |Fitting(text, room)| <= |Encode(text)|
    ensures Fitting(text, room) == Encode(text)[..|Fitting(text, room)|]
    ensures Fitting(text, room) == Encode(text) || |Fitting(text, room)| + 4 > room
    decreases text
  {
    hide Utf8;
    if text != [] {
      var (c, units) := First(text);
      if |Utf8(c)| <= room {
        var rest, more := Encode(text[units..]), Fitting(text[units..], room - |Utf8(c)|);
        FittingIsAPrefix(text[units..], room - |Utf8(c)|);
        assert Utf8(c) + more == (Utf8(c) + rest)[..|Utf8(c)| + |more|];
      }
    }
  }

  lemma FittingFirst(text: seq<CodeUnit>, room: nat, done: seq<Byte>)
    requires text != []
    ensures var (c, units) := First(text);
            if |Utf8(c)| > room then Fitting(text, room) == []
            else done + Fitting(text, room) == done + Utf8(c) + Fitting(text[units..], room - |Utf8(c)|)
  {
    hide Utf8, First;
  }

  /** `TextEncoder.encodeInto`. */
  method EncodeInto(text: seq<CodeUnit>, buffer: array<Byte>) returns (written: nat)
    modifies buffer
    ensures written <= buffer.Length && buffer[..written] == Fitting(text, buffer.Length)
  {
    hide Utf8, First, Fitting;
    var left := text;
    written := 0;
    ghost var whole := Fitting(text, buffer.Length);
    while left != []
      invariant written <= buffer.Length
      invariant whole == buffer[..written] + Fitting(left, buffer.Length - written)
      decreases |left|
    {
      var (c, units) := First(left);
      var octets := Utf8(c);
      FittingFirst(left, buffer.Length - written, buffer[..written]);
      if written + |octets| > buffer.Length {
        return;
      }
      WriteAll(buffer, written, octets);
      left, written := left[units..], written + |octets|;
    }
    NothingLeft(buffer.Length - written);
  }

  lemma NothingLeft(room: nat)
    ensures Fitting([], room) == []
  {
  }

  /** Put `octets` into the buffer from `at` on. */
  method WriteAll(buffer: array<Byte>, at: nat, octets: seq<Byte>)
    requires at + |octets| <= buffer.Length
    modifies buffer
    ensures buffer[..at + |octets|] == old(buffer[..at]) + octets
  {
    for i := 0 to |octets|
      invariant buffer[..at + i] == old(buffer[..at]) + octets[..i]
    {
      buffer[at + i] := octets[i];
    }
    assert octets[..|octets|] == octets;
  }

  /** The first `max` bytes, or all of them. */
  function Cut(b: seq<Byte>, max: nat): (r: seq<Byte>)
    ensures |r| <= max && r <= b && (|b| <= max ==> r == b) && (|b| > max ==> |r| == max)
  {
    b[..Min(|b|, max)]
  }

  /** The text a value is read as; one that is no string is read as the empty text. */
  function TextOf(value: Option<seq<CodeUnit>>): seq<CodeUnit> {
    if value.Some? then value.value else []
  }

  /** Three bytes of room past the limit are enough for the limit to be reached. */
  lemma RoomIsEnough(text: seq<CodeUnit>, max: nat)
    ensures Cut(Fitting(text, max + 3), max) == Cut(Encode(text), max)
  {
    FittingIsAPrefix(text, max + 3);
  }

  /** `inputBytes`: on both branches the first `max` bytes of the encoding. */
  method InputBytesOf(value: Option<seq<CodeUnit>>, max: nat) returns (r: seq<Byte>)
    ensures r == Cut(Encode(TextOf(value)), max)
  {
    hide Encode, Fitting;
    var text := TextOf(value);
    if |text| * 3 <= max {
      AtMostThreeBytesAUnit(text);
      return Encode(text);
    }
    var buffer := new Byte[max + 3];
    var written := EncodeInto(text, buffer);
    RoomIsEnough(text, max);
    assert buffer[..written][..Min(written, max)] == buffer[..Min(written, max)];
    return buffer[..Min(written, max)];
  }

  // ---------------------------------------------------------------------
  // The limit, and what cutting at it changes: nothing.

  const MAX_RECEIPT_BYTES: nat := Endpoint.MAX_REQUEST_BYTES

  function Larger(a: nat, b: nat): nat {
    if a > b then a else b
  }

  const MAX_INPUT_BYTES: nat :=
    Larger(MAX_RECEIPT_BYTES, Larger(Endpoint.MAX_REQUEST_BYTES, Jws.MAX_JWS_BYTES)) + 1

  /** An operation that answers every input over its cap alike cannot tell an input
      from one cut past the cap. */
  lemma CutIsUnseen<T>(operation: seq<Byte> -> T, tooLarge: T, cap: nat, max: nat, input: seq<Byte>)
    requires cap < max && forall x :: |x| > cap ==> operation(x) == tooLarge
    ensures operation(Cut(input, max)) == operation(input)
  {
  }

  /** Bytes as the JWS operation reads them. */
  function AsText(b: seq<Byte>): (t: string)
    ensures |t| == |b|
  {
    seq(|b|, i requires 0 <= i < |b| => b[i] as char)
  }

  /** The JWS operation, the endpoint, and any receipt verification that keeps its
      cap answer for the bytes node hands over as for the whole input. */
  lemma NodeCutsUnseen(
      value: Option<seq<CodeUnit>>, e: Jws.Setting, w: Endpoint.World, environment: Environment,
      verify: seq<Byte> -> Result<Receipt, Failure>)
    requires forall x :: |x| > MAX_RECEIPT_BYTES ==> verify(x) == Err(Jws.Plain(TooLarge))
    ensures MAX_INPUT_BYTES == 3_145_729
    ensures var whole := Encode(TextOf(value));
            var sent := Cut(whole, MAX_INPUT_BYTES);
            && Jws.Verdict(e, AsText(sent)) == Jws.Verdict(e, AsText(whole))
            && Endpoint.Respond(w, environment, sent) == Endpoint.Respond(w, environment, whole)
            && verify(sent) == verify(whole)
  {
    hide Encode, Jws.Verdict, Endpoint.Respond;
    var whole := Encode(TextOf(value));
    if |whole| > MAX_INPUT_BYTES {
      var sent := Cut(whole, MAX_INPUT_BYTES);
      Jws.OversizedIsTooLarge(e, AsText(sent));
      Jws.OversizedIsTooLarge(e, AsText(whole));
      Endpoint.OversizedIsMalformed(w, environment, sent);
      Endpoint.OversizedIsMalformed(w, environment, whole);
    }
  }

  /** The Python host cuts exactly as node does. */
  lemma HostsCutAlike(operation: string, input: seq<Byte>)
    requires operation != "init"
    ensures GuestCall.Sent(operation, Some(MAX_INPUT_BYTES), input) == Cut(input, MAX_INPUT_BYTES)
  {
  }
}
