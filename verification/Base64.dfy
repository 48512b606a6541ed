/** The two base64 decoders of `rust/src/base64.rs` and the encoder beside them,
    by the rules that file states: sections 3.5, 4 and 5 of RFC 4648. */
module Base64 {
  import opened Foundation

  /** The two alphabets: standard, and base64url. */
  datatype Alphabet = Standard | UrlSafe

  function Symbol(a: Alphabet, v: int): char
    requires 0 <= v < 64
  {
    if v < 26 then 'A' + v as char
    else if v < 52 then 'a' + (v - 26) as char
    else if v < 62 then '0' + (v - 52) as char
    else if v == 62 then (if a.Standard? then '+' else '-')
    else (if a.Standard? then '/' else '_')
  }

  function Value(a: Alphabet, c: char): (v: Option<int>)
    ensures v.Some? ==> 0 <= v.value < 64
  {
    if 'A' <= c <= 'Z' then Some((c - 'A') as int)
    else if 'a' <= c <= 'z' then Some((c - 'a') as int + 26)
    else if '0' <= c <= '9' then Some((c - '0') as int + 52)
    else if c == (if a.Standard? then '+' else '-') then Some(62)
    else if c == (if a.Standard? then '/' else '_') then Some(63)
    else None
  }

  lemma SymbolOfValue(a: Alphabet, c: char)
    ensures Value(a, c).Some? ==> Symbol(a, Value(a, c).value) == c
  {
  }

  lemma ValueOfSymbol(a: Alphabet, v: int)
    requires 0 <= v < 64
    ensures Value(a, Symbol(a, v)) == Some(v)
    ensures Symbol(a, v) != '=' && Symbol(a, v) != '.'
  {
  }

  // ---------------------------------------------------------------------
  // Groups of three octets and four symbols.

  function Quad(a: Alphabet, x: Byte, y: Byte, z: Byte): (q: string)
    ensures |q| == 4
  {
    [Symbol(a, x / 4), Symbol(a, x % 4 * 16 + y / 16), Symbol(a, y % 16 * 4 + z / 64), Symbol(a, z % 64)]
  }

  /** The octets of four symbols, when all four are in the alphabet. */
  function Triple(a: Alphabet, q: string): (b: Option<seq<Byte>>)
    requires |q| == 4
    ensures b.Some? ==> |b.value| == 3
  {
    match (Value(a, q[0]), Value(a, q[1]), Value(a, q[2]), Value(a, q[3]))
    case (Some(v0), Some(v1), Some(v2), Some(v3)) => Some([v0 * 4 + v1 / 16, v1 % 16 * 16 + v2 / 4, v2 % 4 * 64 + v3])
    case _ => None
  }

  lemma Pack(hi: int, lo: int, n: int)
    requires n == 4 || n == 16 || n == 64
    requires 0 <= lo < n
    ensures (hi * n + lo) / n == hi && (hi * n + lo) % n == lo
  {
  }

  /** Eight bits as six and two, four and four, and two and six. */
  lemma Regroup(x: Byte, y: Byte, z: Byte)
    ensures var v0, v1, v2, v3 := x / 4, x % 4 * 16 + y / 16, y % 16 * 4 + z / 64, z % 64;
            && 0 <= v0 < 64 && 0 <= v1 < 64 && 0 <= v2 < 64 && 0 <= v3 < 64
            && v0 * 4 + v1 / 16 == x && v1 % 16 * 16 + v2 / 4 == y && v2 % 4 * 64 + v3 == z
  {
    Pack(x % 4, y / 16, 16);
    Pack(y % 16, z / 64, 4);
  }

  lemma TripleOfQuad(a: Alphabet, x: Byte, y: Byte, z: Byte)
    ensures Triple(a, Quad(a, x, y, z)) == Some([x, y, z])
  {
    hide Value, Symbol;
    Regroup(x, y, z);
    var v0, v1, v2, v3 := x / 4, x % 4 * 16 + y / 16, y % 16 * 4 + z / 64, z % 64;
    ValueOfSymbol(a, v0);
    ValueOfSymbol(a, v1);
    ValueOfSymbol(a, v2);
    ValueOfSymbol(a, v3);
    assert Quad(a, x, y, z) == [Symbol(a, v0), Symbol(a, v1), Symbol(a, v2), Symbol(a, v3)];
  }

  lemma QuadOfTriple(a: Alphabet, q: string)
    requires |q| == 4 && Triple(a, q).Some?
    ensures var b := Triple(a, q).value; q == Quad(a, b[0], b[1], b[2])
  {
    hide Value, Symbol;
    SymbolOfValue(a, q[0]);
    SymbolOfValue(a, q[1]);
    SymbolOfValue(a, q[2]);
    SymbolOfValue(a, q[3]);
    Ungroup(Value(a, q[0]).value, Value(a, q[1]).value, Value(a, q[2]).value, Value(a, q[3]).value);
  }

  /** Three octets carry the four groups of six bits they came from. */
  lemma Ungroup(v0: int, v1: int, v2: int, v3: int)
    requires 0 <= v0 < 64 && 0 <= v1 < 64 && 0 <= v2 < 64 && 0 <= v3 < 64
    ensures var x, y, z := v0 * 4 + v1 / 16, v1 % 16 * 16 + v2 / 4, v2 % 4 * 64 + v3;
            && x / 4 == v0 && x % 4 * 16 + y / 16 == v1 && y % 16 * 4 + z / 64 == v2 && z % 64 == v3
  {
    Pack(v0, v1 / 16, 4);
    Pack(v1 % 16, v2 / 4, 16);
    Pack(v2 % 4, v3, 64);
  }

  /** Two symbols carry one octet and four spare bits. */
  function OneOctet(a: Alphabet, c: char, d: char): Option<(Byte, int)> {
    match (Value(a, c), Value(a, d))
    case (Some(v0), Some(v1)) => Some((v0 * 4 + v1 / 16, v1 % 16))
    case _ => None
  }

  /** Three symbols carry two octets and two spare bits. */
  function TwoOctets(a: Alphabet, c: char, d: char, e: char): Option<(Byte, Byte, int)> {
    match (Value(a, c), Value(a, d), Value(a, e))
    case (Some(v0), Some(v1), Some(v2)) => Some((v0 * 4 + v1 / 16, v1 % 16 * 16 + v2 / 4, v2 % 4))
    case _ => None
  }

  function OneText(a: Alphabet, x: Byte, spare: int): (t: string)
    requires 0 <= spare < 16
    ensures |t| == 2
  {
    [Symbol(a, x / 4), Symbol(a, x % 4 * 16 + spare)]
  }

  function TwoText(a: Alphabet, x: Byte, y: Byte, spare: int): (t: string)
    requires 0 <= spare < 4
    ensures |t| == 3
  {
    [Symbol(a, x / 4), Symbol(a, x % 4 * 16 + y / 16), Symbol(a, y % 16 * 4 + spare)]
  }

  lemma OneOctetOfText(a: Alphabet, x: Byte, spare: int)
    requires 0 <= spare < 16
    ensures var t := OneText(a, x, spare); OneOctet(a, t[0], t[1]) == Some((x, spare))
    ensures forall k :: 0 <= k < 2 ==> OneText(a, x, spare)[k] != '=' && OneText(a, x, spare)[k] != '.'
  {
    hide Value, Symbol;
    Pack(x % 4, spare, 16);
    ValueOfSymbol(a, x / 4);
    ValueOfSymbol(a, x % 4 * 16 + spare);
  }

  lemma TwoOctetsOfText(a: Alphabet, x: Byte, y: Byte, spare: int)
    requires 0 <= spare < 4
    ensures var t := TwoText(a, x, y, spare); TwoOctets(a, t[0], t[1], t[2]) == Some((x, y, spare))
    ensures forall k :: 0 <= k < 3 ==> TwoText(a, x, y, spare)[k] != '=' && TwoText(a, x, y, spare)[k] != '.'
  {
    hide Value, Symbol;
    Pack(x % 4, y / 16, 16);
    Pack(y % 16, spare, 4);
    ValueOfSymbol(a, x / 4);
    ValueOfSymbol(a, x % 4 * 16 + y / 16);
    ValueOfSymbol(a, y % 16 * 4 + spare);
  }

  lemma TextOfOneOctet(a: Alphabet, c: char, d: char)
    requires OneOctet(a, c, d).Some?
    ensures var (x, spare) := OneOctet(a, c, d).value; 0 <= spare < 16 && [c, d] == OneText(a, x, spare)
  {
    hide Value, Symbol;
    SymbolOfValue(a, c);
    SymbolOfValue(a, d);
  }

  lemma TextOfTwoOctets(a: Alphabet, c: char, d: char, e: char)
    requires TwoOctets(a, c, d, e).Some?
    ensures var (x, y, spare) := TwoOctets(a, c, d, e).value; 0 <= spare < 4 && [c, d, e] == TwoText(a, x, y, spare)
  {
    hide Value, Symbol;
    SymbolOfValue(a, c);
    SymbolOfValue(a, d);
    SymbolOfValue(a, e);
  }

  // ---------------------------------------------------------------------
  // Unpadded base64url, strictly.

  function EncodeUrl(b: seq<Byte>): string {
    if b == [] then []
    else if |b| == 1 then OneText(UrlSafe, b[0], 0)
    else if |b| == 2 then TwoText(UrlSafe, b[0], b[1], 0)
    else Quad(UrlSafe, b[0], b[1], b[2]) + EncodeUrl(b[3..])
  }

  /** No padding, no symbol outside the alphabet, no dangling symbol, and spare
      bits that are zero. */
  function DecodeBase64UrlStrict(text: string): Option<seq<Byte>> {
    if text == [] then Some([])
    else if |text| == 1 then None
    else if |text| == 2 then
      match OneOctet(UrlSafe, text[0], text[1])
      case Some((x, spare)) => if spare == 0 then Some([x]) else None
      case None => None
    else if |text| == 3 then
      match TwoOctets(UrlSafe, text[0], text[1], text[2])
      case Some((x, y, spare)) => if spare == 0 then Some([x, y]) else None
      case None => None
    else
      match (Triple(UrlSafe, text[..4]), DecodeBase64UrlStrict(text[4..]))
      case (Some(group), Some(rest)) => Some(group + rest)
      case _ => None
  }

  lemma {:induction false} StrictDecodesEncoding(b: seq<Byte>)
    ensures DecodeBase64UrlStrict(EncodeUrl(b)) == Some(b)
    ensures forall k :: 0 <= k < |EncodeUrl(b)| ==> EncodeUrl(b)[k] != '.'
  {
    hide Triple, Quad, OneOctet, OneText, TwoOctets, TwoText;
    if |b| == 1 {
      OneOctetOfText(UrlSafe, b[0], 0);
      assert b == [b[0]];
    } else if |b| == 2 {
      TwoOctetsOfText(UrlSafe, b[0], b[1], 0);
      assert b == [b[0], b[1]];
    } else if |b| >= 3 {
      var quad := Quad(UrlSafe, b[0], b[1], b[2]);
      QuadSymbols(UrlSafe, b[0], b[1], b[2]);
      TripleOfQuad(UrlSafe, b[0], b[1], b[2]);
      StrictDecodesEncoding(b[3..]);
      assert (quad + EncodeUrl(b[3..]))[..4] == quad && (quad + EncodeUrl(b[3..]))[4..] == EncodeUrl(b[3..]);
      assert b == [b[0], b[1], b[2]] + b[3..];
    }
  }

  lemma QuadSymbols(a: Alphabet, x: Byte, y: Byte, z: Byte)
    ensures |Quad(a, x, y, z)| == 4
    ensures forall k :: 0 <= k < 4 ==> Quad(a, x, y, z)[k] != '=' && Quad(a, x, y, z)[k] != '.'
  {
    hide Value, Symbol;
    ValueOfSymbol(a, x / 4);
    ValueOfSymbol(a, x % 4 * 16 + y / 16);
    ValueOfSymbol(a, y % 16 * 4 + z / 64);
    ValueOfSymbol(a, z % 64);
  }

  lemma {:induction false} StrictAcceptsOnlyEncodings(text: string)
    requires DecodeBase64UrlStrict(text).Some?
    ensures text == EncodeUrl(DecodeBase64UrlStrict(text).value)
  {
    hide Triple, Quad, OneOctet, OneText, TwoOctets, TwoText;
    if |text| == 2 {
      TextOfOneOctet(UrlSafe, text[0], text[1]);
      assert text == [text[0], text[1]];
    } else if |text| == 3 {
      TextOfTwoOctets(UrlSafe, text[0], text[1], text[2]);
      assert text == [text[0], text[1], text[2]];
    } else if |text| >= 4 {
      QuadOfTriple(UrlSafe, text[..4]);
      StrictAcceptsOnlyEncodings(text[4..]);
      var group, rest := Triple(UrlSafe, text[..4]).value, DecodeBase64UrlStrict(text[4..]).value;
      assert (group + rest)[3..] == rest;
      assert text == text[..4] + text[4..];
    }
  }

  /** One spelling per octet string: the strict decoder accepts a text exactly
      when it is the canonical encoding of its result. */
  lemma StrictIsCanonical(text: string, b: seq<Byte>)
    ensures DecodeBase64UrlStrict(text) == Some(b) <==> text == EncodeUrl(b)
  {
    StrictDecodesEncoding(b);
    if DecodeBase64UrlStrict(text).Some? {
      StrictAcceptsOnlyEncodings(text);
    }
  }

  // ---------------------------------------------------------------------
  // Padded standard base64, spare bits ignored.

  /** The padded decoder: whole groups of four, the canonical padding and nothing
      after it. */
  function DecodePadded(text: string): Option<seq<Byte>> {
    if text == [] then Some([])
    else if |text| < 4 then None
    else if |text| == 4 && text[3] == '=' && text[2] == '=' then
      match OneOctet(Standard, text[0], text[1])
      case Some((x, _)) => Some([x])
      case None => None
    else if |text| == 4 && text[3] == '=' then
      match TwoOctets(Standard, text[0], text[1], text[2])
      case Some((x, y, _)) => Some([x, y])
      case None => None
    else
      match (Triple(Standard, text[..4]), DecodePadded(text[4..]))
      case (Some(group), Some(rest)) => Some(group + rest)
      case _ => None
  }

  function DecodeReceiptBase64(text: string): Option<seq<Byte>> {
    if text == [] then None else DecodePadded(text)
  }

  /** How many ways the spare bits of the last symbol can be set. */
  function Spellings(b: seq<Byte>): nat {
    if |b| % 3 == 0 then 1 else if |b| % 3 == 1 then 16 else 4
  }

  /** The spelling of `b` whose last symbol carries `spare` in its unused bits. */
  function Spelling(b: seq<Byte>, spare: nat): string
    requires spare < Spellings(b)
  {
    if b == [] then []
    else if |b| == 1 then OneText(Standard, b[0], spare) + "=="
    else if |b| == 2 then TwoText(Standard, b[0], b[1], spare) + "="
    else Quad(Standard, b[0], b[1], b[2]) + Spelling(b[3..], spare)
  }

  /** The canonical encoding: spare bits zero. */
  function Encode(b: seq<Byte>): string {
    Spelling(b, 0)
  }

  lemma PaddedGroup(q: string, rest: string)
    requires |q| == 4 && q[3] != '='
    ensures DecodePadded(q + rest) == match (Triple(Standard, q), DecodePadded(rest))
                                      case (Some(group), Some(more)) => Some(group + more)
                                      case _ => None
  {
    hide Triple, OneOctet, TwoOctets;
    assert (q + rest)[..4] == q && (q + rest)[4..] == rest && (q + rest)[3] == q[3];
  }

  lemma LastGroupDecodes(b: seq<Byte>, spare: nat)
    requires 1 <= |b| <= 2 && spare < Spellings(b)
    ensures DecodePadded(Spelling(b, spare)) == Some(b) && |Spelling(b, spare)| == 4
  {
    hide OneOctet, OneText, TwoOctets, TwoText;
    if |b| == 1 {
      OneOctetOfText(Standard, b[0], spare);
      var t := OneText(Standard, b[0], spare);
      assert Spelling(b, spare) == [t[0], t[1], '=', '='];
      assert b == [b[0]];
    } else {
      TwoOctetsOfText(Standard, b[0], b[1], spare);
      var t := TwoText(Standard, b[0], b[1], spare);
      assert Spelling(b, spare) == [t[0], t[1], t[2], '='];
      assert b == [b[0], b[1]];
    }
  }

  lemma {:induction false} PaddedDecodesSpelling(b: seq<Byte>, spare: nat)
    requires spare < Spellings(b)
    ensures DecodePadded(Spelling(b, spare)) == Some(b)
  {
    if |b| >= 3 {
      hide Triple, Quad, DecodePadded, Spelling, Spellings;
      var group, rest := b[..3], b[3..];
      SpellingsOfRest(b);
      assert b == group + rest && group == [b[0], b[1], b[2]];
      QuadSymbols(Standard, b[0], b[1], b[2]);
      TripleOfQuad(Standard, b[0], b[1], b[2]);
      PaddedDecodesSpelling(rest, spare);
      SpellingCons(group, rest, spare);
      PaddedGroup(Quad(Standard, b[0], b[1], b[2]), Spelling(rest, spare));
    } else if b != [] {
      LastGroupDecodes(b, spare);
    }
  }

  /** What the padding of a text's last group says. */
  lemma LastGroupSpells(text: string) returns (spare: nat)
    requires |text| == 4 && text[3] == '=' && DecodePadded(text).Some?
    ensures spare < Spellings(DecodePadded(text).value)
    ensures text == Spelling(DecodePadded(text).value, spare)
  {
    hide Triple, Quad, OneOctet, OneText, TwoOctets, TwoText;
    if text[2] == '=' {
      TextOfOneOctet(Standard, text[0], text[1]);
      spare := OneOctet(Standard, text[0], text[1]).value.1;
      assert text == [text[0], text[1]] + "==";
    } else {
      TextOfTwoOctets(Standard, text[0], text[1], text[2]);
      spare := TwoOctets(Standard, text[0], text[1], text[2]).value.2;
      assert text == [text[0], text[1], text[2]] + "=";
    }
  }

  lemma {:induction false} PaddedAcceptsOnlySpellings(text: string) returns (spare: nat)
    requires DecodePadded(text).Some?
    ensures spare < Spellings(DecodePadded(text).value)
    ensures text == Spelling(DecodePadded(text).value, spare)
  {
    hide Triple, Quad, OneOctet, OneText, TwoOctets, TwoText;
    spare := 0;
    if |text| == 4 && text[3] == '=' {
      spare := LastGroupSpells(text);
    } else if text != [] {
      QuadOfTriple(Standard, text[..4]);
      spare := PaddedAcceptsOnlySpellings(text[4..]);
      var group, rest := Triple(Standard, text[..4]).value, DecodePadded(text[4..]).value;
      SpellingCons(group, rest, spare);
      assert text == text[..4] + text[4..];
    }
  }

  lemma SpellingsOfRest(b: seq<Byte>)
    requires |b| >= 3
    ensures Spellings(b[3..]) == Spellings(b)
  {
    assert (|b| - 3) % 3 == |b| % 3;
  }

  lemma SpellingCons(group: seq<Byte>, rest: seq<Byte>, spare: nat)
    requires |group| == 3 && spare < Spellings(rest)
    ensures spare < Spellings(group + rest)
    ensures Spelling(group + rest, spare) == Quad(Standard, group[0], group[1], group[2]) + Spelling(rest, spare)
  {
    assert (group + rest)[3..] == rest;
  }

  lemma {:induction false} SpellingLength(b: seq<Byte>, spare: nat)
    requires spare < Spellings(b)
    ensures |Spelling(b, spare)| == 4 * ((|b| + 2) / 3)
  {
    if |b| >= 3 {
      hide Quad, Spelling, Spellings;
      var group, rest := b[..3], b[3..];
      assert b == group + rest;
      SpellingsOfRest(b);
      SpellingCons(group, rest, spare);
      SpellingLength(rest, spare);
      assert (|b| + 2) / 3 == 1 + (|b| - 3 + 2) / 3;
    } else {
      hide OneText, TwoText;
    }
  }

  /** Every octet string decodes from its encoding. */
  lemma ReceiptRoundTrip(b: seq<Byte>)
    requires b != []
    ensures DecodeReceiptBase64(Encode(b)) == Some(b)
  {
    PaddedDecodesSpelling(b, 0);
  }

  ghost predicate IsSpelling(b: seq<Byte>, spare: nat, text: string) {
    spare < Spellings(b) && text == Spelling(b, spare)
  }

  /** The accepted texts of `b` are exactly its spellings. */
  lemma ReceiptAcceptsSpellings(b: seq<Byte>, text: string)
    requires b != []
    ensures DecodeReceiptBase64(text) == Some(b) <==> exists spare :: IsSpelling(b, spare, text)
  {
    if DecodeReceiptBase64(text) == Some(b) {
      var spare := PaddedAcceptsOnlySpellings(text);
      assert IsSpelling(b, spare, text);
    }
    if spare :| IsSpelling(b, spare, text) {
      PaddedDecodesSpelling(b, spare);
    }
  }

  /** Where the last data symbol stands: before the padding. */
  function LastSymbol(b: seq<Byte>): int {
    4 * ((|b| + 2) / 3) - 1 - (if |b| % 3 == 0 then 0 else 3 - |b| % 3)
  }

  /** Two spellings have one length and differ at most in the last data symbol,
      where different spare bits give different symbols. */
  lemma {:induction false} SpellingsDifferInSpareBits(b: seq<Byte>, s: nat, t: nat)
    requires s < Spellings(b) && t < Spellings(b)
    ensures |Spelling(b, s)| == |Spelling(b, t)| == 4 * ((|b| + 2) / 3)
    ensures forall k :: 0 <= k < |Spelling(b, s)| && k != LastSymbol(b) ==> Spelling(b, s)[k] == Spelling(b, t)[k]
    ensures s != t ==> 0 <= LastSymbol(b) < |Spelling(b, s)| && Spelling(b, s)[LastSymbol(b)] != Spelling(b, t)[LastSymbol(b)]
  {
    SpellingLength(b, s);
    SpellingLength(b, t);
    if |b| < 3 {
      ShortSpellingsDiffer(b, s, t);
    } else {
      hide Quad, Spelling, Spellings;
      var group, rest := b[..3], b[3..];
      assert b == group + rest;
      SpellingsOfRest(b);
      SpellingCons(group, rest, s);
      SpellingCons(group, rest, t);
      SpellingsDifferInSpareBits(rest, s, t);
      assert LastSymbol(b) == 4 + LastSymbol(rest);
      hide LastSymbol;
      DifferAfter(Quad(Standard, group[0], group[1], group[2]), Spelling(rest, s), Spelling(rest, t), LastSymbol(rest));
    }
  }

  lemma ShortSpellingsDiffer(b: seq<Byte>, s: nat, t: nat)
    requires |b| < 3 && s < Spellings(b) && t < Spellings(b)
    ensures |Spelling(b, s)| == |Spelling(b, t)|
    ensures forall k :: 0 <= k < |Spelling(b, s)| && k != LastSymbol(b) ==> Spelling(b, s)[k] == Spelling(b, t)[k]
    ensures s != t ==> 0 <= LastSymbol(b) < |Spelling(b, s)| && Spelling(b, s)[LastSymbol(b)] != Spelling(b, t)[LastSymbol(b)]
  {
    hide Value, Symbol;
    if |b| == 1 {
      ValueOfSymbol(Standard, b[0] % 4 * 16 + s);
      ValueOfSymbol(Standard, b[0] % 4 * 16 + t);
    } else if |b| == 2 {
      ValueOfSymbol(Standard, b[1] % 16 * 4 + s);
      ValueOfSymbol(Standard, b[1] % 16 * 4 + t);
    }
  }

  /** Texts that differ at most at `at` do so four places on, after four equal symbols. */
  lemma DifferAfter(quad: string, x: string, y: string, at: int)
    requires |quad| == 4 && |x| == |y| && forall k :: 0 <= k < |x| && k != at ==> x[k] == y[k]
    ensures forall k :: 0 <= k < |quad + x| && k != 4 + at ==> (quad + x)[k] == (quad + y)[k]
    ensures 0 <= at < |x| ==> (quad + x)[4 + at] == x[at] && (quad + y)[4 + at] == y[at]
  {
    forall k | 0 <= k < |quad + x| && k != 4 + at ensures (quad + x)[k] == (quad + y)[k] {
      if k >= 4 {
        assert x[k - 4] == y[k - 4];
      }
    }
  }

  /** The first `n` spellings of an octet string. */
  ghost function SpellingSet(b: seq<Byte>, n: nat): set<string>
    requires n <= Spellings(b)
  {
    if n == 0 then {} else SpellingSet(b, n - 1) + {Spelling(b, n - 1)}
  }

  lemma {:induction false} SpellingSetMembers(b: seq<Byte>, n: nat, text: string)
    requires n <= Spellings(b)
    ensures text in SpellingSet(b, n) <==> exists s: nat :: s < n && IsSpelling(b, s, text)
    ensures n == Spellings(b) ==> (text in SpellingSet(b, n) <==> exists s :: IsSpelling(b, s, text))
  {
    if n > 0 {
      SpellingSetMembers(b, n - 1, text);
      assert text == Spelling(b, n - 1) <==> IsSpelling(b, n - 1, text);
    }
  }

  lemma {:induction false} SpellingSetSize(b: seq<Byte>, n: nat)
    requires n <= Spellings(b)
    ensures |SpellingSet(b, n)| == n
  {
    if n > 0 {
      SpellingSetSize(b, n - 1);
      var last := Spelling(b, n - 1);
      SpellingSetMembers(b, n - 1, last);
      if s: nat :| s < n - 1 && IsSpelling(b, s, last) {
        SpellingsDifferInSpareBits(b, s, n - 1);
      }
    }
  }

  /** An octet string has exactly 1, 16 or 4 accepted texts, by its length modulo 3. */
  lemma AcceptedTexts(b: seq<Byte>)
    requires b != []
    ensures forall text :: text in SpellingSet(b, Spellings(b)) <==> DecodeReceiptBase64(text) == Some(b)
    ensures |SpellingSet(b, Spellings(b))| == if |b| % 3 == 0 then 1 else if |b| % 3 == 1 then 16 else 4
  {
    hide Spelling, DecodeReceiptBase64, SpellingSet, IsSpelling;
    forall text ensures text in SpellingSet(b, Spellings(b)) <==> DecodeReceiptBase64(text) == Some(b) {
      SpellingSetMembers(b, Spellings(b), text);
      ReceiptAcceptsSpellings(b, text);
    }
    SpellingSetSize(b, Spellings(b));
  }
}
