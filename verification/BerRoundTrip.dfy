/** Reading BER undoes writing it, for every tree and every mix of length forms,
    and nothing is read that was not written that way. */
module BerRoundTrip {
  import opened Foundation
  import opened Ber

  /** The octets `s` stand in the buffer at `at`. */
  ghost predicate Holds(buf: seq<Byte>, at: nat, s: seq<Byte>) {
    at + |s| <= |buf| && forall k :: 0 <= k < |s| ==> buf[at + k] == s[k]
  }

  lemma HoldsParts(buf: seq<Byte>, at: nat, a: seq<Byte>, b: seq<Byte>)
    requires Holds(buf, at, a + b)
    ensures Holds(buf, at, a) && Holds(buf, at + |a|, b)
  {
    forall k | 0 <= k < |a| ensures buf[at + k] == a[k] {
      assert (a + b)[k] == a[k];
    }
    forall k | 0 <= k < |b| ensures buf[at + |a| + k] == b[k] {
      assert (a + b)[|a| + k] == b[k] && buf[at + (|a| + k)] == (a + b)[|a| + k];
    }
  }

  lemma HoldsWhole(buf: seq<Byte>, at: nat, a: seq<Byte>, b: seq<Byte>)
    requires Holds(buf, at, a) && Holds(buf, at + |a|, b)
    ensures Holds(buf, at, a + b)
  {
    forall k | 0 <= k < |a + b| ensures buf[at + k] == (a + b)[k] {
      if k >= |a| {
        assert buf[at + |a| + (k - |a|)] == b[k - |a|];
      }
    }
  }

  lemma HoldsSlice(buf: seq<Byte>, at: nat, s: seq<Byte>)
    ensures Holds(buf, at, s) <==> at + |s| <= |buf| && buf[at..at + |s|] == s
  {
    if at + |s| <= |buf| {
      var slice := buf[at..at + |s|];
      forall k | 0 <= k < |s| ensures slice[k] == buf[at + k] {
      }
      if slice == s {
        assert Holds(buf, at, s);
      }
    }
  }

  // ---------------------------------------------------------------------
  // Tags and lengths.

  lemma {:induction false} TagEndReads(buf: seq<Byte>, at: nat, tag: seq<Byte>, k: nat)
    requires Holds(buf, at, tag) && 1 <= k < |tag|
    requires tag[|tag| - 1] < 128 && forall j :: k <= j < |tag| - 1 ==> tag[j] >= 128
    ensures TagEnd(buf, at + k) == Some(at + |tag|)
    decreases |tag| - k
  {
    assert buf[at + k] == tag[k];
    if k < |tag| - 1 {
      TagEndReads(buf, at, tag, k + 1);
    }
  }

  lemma {:induction false} BigEndianOf(n: nat, count: nat)
    requires n < Power256(count)
    ensures |ToBigEndian(n, count)| == count && BigEndian(ToBigEndian(n, count)) == n
  {
    if count > 0 {
      BigEndianOf(n / 256, count - 1);
      var b := ToBigEndian(n, count);
      assert b[..|b| - 1] == ToBigEndian(n / 256, count - 1);
    }
  }

  lemma {:induction false} ToBigEndianOf(b: seq<Byte>)
    ensures BigEndian(b) < Power256(|b|) && ToBigEndian(BigEndian(b), |b|) == b
  {
    if b != [] {
      var init, last := b[..|b| - 1], b[|b| - 1];
      ToBigEndianOf(init);
      assert BigEndian(b) / 256 == BigEndian(init) && BigEndian(b) % 256 == last;
      assert b == init + [last];
    }
  }

  lemma LengthReads(buf: seq<Byte>, at: nat, form: Form, length: nat, constructed: bool)
    requires ValidForm(form, length) && Holds(buf, at, LengthOctets(form, length))
    requires if form.Indefinite? then constructed else at + |LengthOctets(form, length)| + length <= |buf|
    ensures var start := at + |LengthOctets(form, length)|;
            ReadLength(buf, at, constructed) == Some((start, if form.Indefinite? then None else Some(start + length)))
  {
    if form.Long? {
      BigEndianOf(length, form.count);
      LongLengthReads(buf, at, form.count, length, constructed);
    } else {
      assert buf[at + 0] == LengthOctets(form, length)[0];
    }
  }

  lemma LongLengthReads(buf: seq<Byte>, at: nat, count: nat, length: nat, constructed: bool)
    requires 1 <= count <= 4 && length < Power256(count) && at + 1 + count + length <= |buf|
    requires Holds(buf, at, LengthOctets(Long(count), length))
    ensures |LengthOctets(Long(count), length)| == 1 + count
    ensures ReadLength(buf, at, constructed) == Some((at + 1 + count, Some(at + 1 + count + length)))
  {
    hide Holds, Power256, ReadLength, BigEndian, ToBigEndian;
    var digits := ToBigEndian(length, count);
    BigEndianOf(length, count);
    HoldsParts(buf, at, [128 + count], digits);
    HoldsSlice(buf, at, [128 + count]);
    HoldsSlice(buf, at + 1, digits);
    assert buf[at] == buf[at..at + 1][0];
    DigitsRead(buf, at, count, length, constructed);
  }

  lemma DigitsRead(buf: seq<Byte>, at: nat, count: nat, length: nat, constructed: bool)
    requires 1 <= count <= 4 && at + 1 + count + length <= |buf|
    requires buf[at] == 128 + count && BigEndian(buf[at + 1..at + 1 + count]) == length
    ensures ReadLength(buf, at, constructed) == Some((at + 1 + count, Some(at + 1 + count + length)))
  {
    hide BigEndian;
  }

  /** Where the parts of a tree's encoding stand. */
  lemma EncodingStands(buf: seq<Byte>, at: nat, t: Tree)
    requires ValidTree(t) && Holds(buf, at, Encode(t))
    ensures var lengthOctets := LengthOctets(t.form, |Content(t)|);
            var start := at + |t.tag| + |lengthOctets|;
            && Holds(buf, at, t.tag) && Holds(buf, at + |t.tag|, lengthOctets) && Holds(buf, start, Content(t))
            && (t.form.Indefinite? ==> Holds(buf, start + |Content(t)|, [0, 0]))
  {
    hide ValidTree, Content, Encode, LengthOctets, Holds;
    EncodeParts(t);
    var lengthOctets, content := LengthOctets(t.form, |Content(t)|), Content(t);
    var tail: seq<Byte> := if t.form.Indefinite? then [0, 0] else [];
    assert Encode(t) == t.tag + (lengthOctets + (content + tail));
    HoldsParts(buf, at, t.tag, lengthOctets + (content + tail));
    HoldsParts(buf, at + |t.tag|, lengthOctets, content + tail);
    HoldsParts(buf, at + |t.tag| + |lengthOctets|, content, tail);
  }

  /** The tag octets at `at` read as the tag they are. */
  lemma TagReads(buf: seq<Byte>, at: nat, tag: seq<Byte>)
    requires ValidTag(tag) && Holds(buf, at, tag)
    ensures buf[at] == tag[0]
    ensures IsHighTag(tag[0]) ==> TagEnd(buf, at + 1) == Some(at + |tag|)
    ensures !IsHighTag(tag[0]) ==> |tag| == 1
  {
    assert buf[at + 0] == tag[0];
    if IsHighTag(tag[0]) {
      TagEndReads(buf, at, tag, 1);
    }
  }

  lemma HeaderReads(buf: seq<Byte>, at: nat, t: Tree)
    requires ValidTree(t) && Holds(buf, at, Encode(t))
    ensures var start := at + |t.tag| + |LengthOctets(t.form, |Content(t)|)|;
            ReadHeader(buf, at)
            == Some(Header(t.tag[0], t.Constructed?, start,
                           if t.form.Indefinite? then None else Some(start + |Content(t)|)))
  {
    hide ValidTree, Content, Encode, LengthOctets, TagEnd, ReadLength, IsHighTag, IsConstructed;
    EncodeParts(t);
    EncodingStands(buf, at, t);
    TagReads(buf, at, t.tag);
    hide Holds;
    LengthReads(buf, at + |t.tag|, t.form, |Content(t)|, t.Constructed?);
  }

  /** What a valid tree's encoding is made of. */
  lemma EncodeParts(t: Tree)
    requires ValidTree(t)
    ensures ValidTag(t.tag) && ValidForm(t.form, |Content(t)|) && IsConstructed(t.tag[0]) == t.Constructed?
    ensures t.form.Indefinite? ==> t.Constructed?
    ensures Encode(t) == t.tag + LengthOctets(t.form, |Content(t)|) + Content(t) + (if t.form.Indefinite? then [0, 0] else [])
    ensures |LengthOctets(t.form, |Content(t)|)| >= 1
    ensures |Encode(t)| >= 2
    ensures NodeOf(t, 0).next == |Encode(t)|
  {
  }

  lemma NextIsAfter(t: Tree, at: nat)
    requires ValidTree(t)
    ensures NodeOf(t, at).next == at + |Encode(t)| && |Encode(t)| >= 2
  {
  }

  // ---------------------------------------------------------------------
  // Reading what was written.

  lemma NotAnEnd(buf: seq<Byte>, at: nat, t: Tree)
    requires ValidTree(t) && !LooksLikeEnd(t) && Holds(buf, at, Encode(t))
    ensures !EndOfContents(buf, at)
  {
    hide ValidTree, Encode, Content;
    EncodeParts(t);
    assert buf[at + 0] == Encode(t)[0] && buf[at + 1] == Encode(t)[1];
    var lengthOctets := LengthOctets(t.form, |Content(t)|);
    if EndOfContents(buf, at) {
      assert t.tag[0] == 0 && t.tag == [0];
      assert Encode(t)[1] == lengthOctets[0];
      ZeroLength(t);
    }
  }

  lemma ZeroLength(t: Tree)
    requires ValidTree(t) && t.tag == [0] && LengthOctets(t.form, |Content(t)|)[0] == 0
    ensures LooksLikeEnd(t)
  {
  }

  function ContentStart(t: Tree, at: nat): nat
    requires ValidTree(t)
  {
    at + |t.tag| + |LengthOctets(t.form, |Content(t)|)|
  }

  function StatedEnd(t: Tree, at: nat): Option<nat>
    requires ValidTree(t)
  {
    if t.form.Indefinite? then None else Some(ContentStart(t, at) + |Content(t)|)
  }

  /** For every tree within the depth bound, written at `at` in any buffer, the
      reader recovers the tree with its children contiguous inside their parent. */
  lemma {:induction false} ElementReads(buf: seq<Byte>, at: nat, depth: nat, t: Tree)
    requires ValidTree(t) && Holds(buf, at, Encode(t)) && depth + Height(t) <= MAX_DEPTH
    ensures Element(buf, at, depth) == Some(NodeOf(t, at))
    decreases t, 1
  {
    hide Encode, LengthOctets, Holds, ReadHeader, ValidTree, Element, Children, NodeOf, Content;
    HeaderReads(buf, at, t);
    EncodingStands(buf, at, t);
    EncodeParts(t);
    if t.Constructed? {
      ContentOfConstructed(t);
      HeightOfConstructed(t);
      var start := ContentStart(t, at);
      ChildrenRead(buf, start, depth, t.parts, StatedEnd(t, at));
      ConstructedReads(buf, at, depth, t);
    } else {
      PrimitiveReads(buf, at, depth, t);
    }
  }

  lemma ContentOfConstructed(t: Tree)
    requires ValidTree(t) && t.Constructed?
    ensures Content(t) == EncodeAll(t.parts) && ValidTrees(t.parts)
    ensures t.form.Indefinite? ==> forall k :: 0 <= k < |t.parts| ==> !LooksLikeEnd(t.parts[k])
  {
  }

  lemma HeightOfConstructed(t: Tree)
    requires t.Constructed?
    ensures Height(t) == HeightOfParts(t.parts)
  {
  }

  lemma PrimitiveReads(buf: seq<Byte>, at: nat, depth: nat, t: Tree)
    requires ValidTree(t) && t.Primitive? && depth <= MAX_DEPTH
    requires ReadHeader(buf, at) == Some(Header(t.tag[0], false, ContentStart(t, at), StatedEnd(t, at)))
    ensures Element(buf, at, depth) == Some(NodeOf(t, at))
  {
    hide ReadHeader, LengthOctets;
  }

  lemma ConstructedReads(buf: seq<Byte>, at: nat, depth: nat, t: Tree)
    requires ValidTree(t) && t.Constructed? && ValidTrees(t.parts) && depth <= MAX_DEPTH
    requires ReadHeader(buf, at) == Some(Header(t.tag[0], true, ContentStart(t, at), StatedEnd(t, at)))
    requires Children(buf, ContentStart(t, at), StatedEnd(t, at), depth)
             == Some((NodesOf(t.parts, ContentStart(t, at)), ContentStart(t, at) + |Content(t)|))
    ensures Element(buf, at, depth) == Some(NodeOf(t, at))
  {
    hide ReadHeader, LengthOctets, Children, NodesOf, Content;
  }

  lemma {:induction false} ChildrenRead(buf: seq<Byte>, cursor: nat, depth: nat, ts: seq<Tree>, end: Option<nat>)
    requires ValidTrees(ts) && Holds(buf, cursor, EncodeAll(ts)) && depth + HeightOfParts(ts) <= MAX_DEPTH
    requires end.Some? ==> end.value == cursor + |EncodeAll(ts)|
    requires end.None? ==> Holds(buf, cursor + |EncodeAll(ts)|, [0, 0])
                           && forall k :: 0 <= k < |ts| ==> !LooksLikeEnd(ts[k])
    ensures Children(buf, cursor, end, depth) == Some((NodesOf(ts, cursor), cursor + |EncodeAll(ts)|))
    decreases ts, 0
  {
    hide Encode, NodeOf, Element, ValidTree, Height, Holds;
    if ts == [] {
      if end.None? {
        EndReads(buf, cursor);
      }
    } else {
      var first, rest := ts[0], ts[1..];
      assert EncodeAll(ts) == Encode(first) + EncodeAll(rest);
      HoldsParts(buf, cursor, Encode(first), EncodeAll(rest));
      NextIsAfter(first, cursor);
      if end.None? {
        NotAnEnd(buf, cursor, first);
      }
      ElementReads(buf, cursor, depth + 1, first);
      ChildrenRead(buf, cursor + |Encode(first)|, depth, rest, end);
    }
  }

  lemma EndReads(buf: seq<Byte>, at: nat)
    requires Holds(buf, at, [0, 0])
    ensures EndOfContents(buf, at)
  {
    assert buf[at + 0] == [0, 0][0] && buf[at + 1] == [0, 0][1];
  }

  // ---------------------------------------------------------------------
  // Whatever is read was written so.

  lemma {:induction false} TagEndWas(buf: seq<Byte>, at: nat)
    requires TagEnd(buf, at).Some?
    ensures var end := TagEnd(buf, at).value;
            buf[end - 1] < 128 && forall j :: at <= j < end - 1 ==> buf[j] >= 128
    decreases |buf| - at
  {
    if buf[at] >= 128 {
      TagEndWas(buf, at + 1);
    }
  }

  lemma LengthWas(buf: seq<Byte>, at: nat, constructed: bool) returns (form: Form, length: nat)
    requires ReadLength(buf, at, constructed).Some?
    ensures form.Indefinite? == ReadLength(buf, at, constructed).value.1.None?
    ensures !form.Indefinite? ==>
              length == ReadLength(buf, at, constructed).value.1.value - ReadLength(buf, at, constructed).value.0
    ensures ValidForm(form, length)
    ensures Holds(buf, at, LengthOctets(form, length))
    ensures at + |LengthOctets(form, length)| == ReadLength(buf, at, constructed).value.0
  {
    var octet := buf[at];
    if octet == 128 {
      form, length := Indefinite, 0;
    } else if octet < 128 {
      form, length := Short, octet;
    } else {
      form, length := LongLengthWas(buf, at, constructed);
    }
  }

  lemma LongLengthWas(buf: seq<Byte>, at: nat, constructed: bool) returns (form: Form, length: nat)
    requires ReadLength(buf, at, constructed).Some? && buf[at] > 128
    ensures form.Long? && ValidForm(form, length)
    ensures Holds(buf, at, LengthOctets(form, length))
    ensures var start := at + |LengthOctets(form, length)|;
            ReadLength(buf, at, constructed) == Some((start, Some(start + length)))
  {
    var count := buf[at] - 128;
    var digits := buf[at + 1..at + 1 + count];
    form, length := Long(count), BigEndian(digits);
    assert ReadLength(buf, at, constructed) == Some((at + 1 + count, Some(at + 1 + count + length)));
    LongLengthStands(buf, at, count);
  }

  lemma LongLengthStands(buf: seq<Byte>, at: nat, count: nat)
    requires at + 1 + count <= |buf| && 1 <= count <= 4 && buf[at] == 128 + count
    ensures var length := BigEndian(buf[at + 1..at + 1 + count]);
            && length < Power256(count)
            && Holds(buf, at, LengthOctets(Long(count), length)) && |LengthOctets(Long(count), length)| == 1 + count
  {
    var digits := buf[at + 1..at + 1 + count];
    ToBigEndianOf(digits);
    assert LengthOctets(Long(count), BigEndian(digits)) == [buf[at]] + digits;
    HoldsSlice(buf, at + 1, digits);
    HoldsWhole(buf, at, [buf[at]], digits);
  }

  lemma TagWas(buf: seq<Byte>, at: nat) returns (tag: seq<Byte>)
    requires ReadHeader(buf, at).Some?
    ensures ValidTag(tag) && Holds(buf, at, tag) && tag[0] == buf[at]
    ensures ReadLength(buf, at + |tag|, IsConstructed(tag[0])).Some?
    ensures var h := ReadHeader(buf, at).value;
            h == Header(tag[0], IsConstructed(tag[0]), ReadLength(buf, at + |tag|, IsConstructed(tag[0])).value.0,
                        ReadLength(buf, at + |tag|, IsConstructed(tag[0])).value.1)
  {
    hide ReadLength, IsConstructed;
    if IsHighTag(buf[at]) {
      var end := TagEnd(buf, at + 1).value;
      TagEndWas(buf, at + 1);
      tag := buf[at..end];
      HoldsSlice(buf, at, tag);
    } else {
      tag := [buf[at]];
    }
  }

  lemma TailStands(buf: seq<Byte>, at: nat, content: seq<Byte>, indefinite: bool)
    requires Holds(buf, at, content) && (indefinite ==> EndOfContents(buf, at + |content|))
    ensures Holds(buf, at + |content|, if indefinite then [0, 0] else [])
  {
  }

  /** The encoding of a tree stands where its parts stand. */
  lemma EncodingFrom(buf: seq<Byte>, at: nat, t: Tree)
    requires ValidTree(t)
    requires Holds(buf, at, t.tag) && Holds(buf, at + |t.tag|, LengthOctets(t.form, |Content(t)|))
    requires Holds(buf, ContentStart(t, at), Content(t))
    requires t.form.Indefinite? ==> EndOfContents(buf, ContentStart(t, at) + |Content(t)|)
    ensures Holds(buf, at, Encode(t))
  {
    hide ValidTree, Content, Encode, LengthOctets, Holds, EndOfContents;
    EncodeParts(t);
    var lengthOctets, content := LengthOctets(t.form, |Content(t)|), Content(t);
    var tail: seq<Byte> := if t.form.Indefinite? then [0, 0] else [];
    TailStands(buf, ContentStart(t, at), content, t.form.Indefinite?);
    HoldsWhole(buf, ContentStart(t, at), content, tail);
    HoldsWhole(buf, at + |t.tag|, lengthOctets, content + tail);
    HoldsWhole(buf, at, t.tag, lengthOctets + (content + tail));
    assert Encode(t) == t.tag + (lengthOctets + (content + tail));
  }

  ghost predicate Stands(buf: seq<Byte>, at: nat, depth: nat, t: Tree, node: Node) {
    ValidTree(t) && Holds(buf, at, Encode(t)) && depth + Height(t) <= MAX_DEPTH && NodeOf(t, at) == node
  }

  /** Every element the reader accepts is the encoding of a tree within the depth
      bound, and the node is that tree's. */
  lemma {:induction false} ElementWasWritten(buf: seq<Byte>, at: nat, depth: nat) returns (t: Tree)
    requires Element(buf, at, depth).Some?
    ensures Stands(buf, at, depth, t, Element(buf, at, depth).value)
    decreases if depth > MAX_DEPTH then 0 else MAX_DEPTH + 1 - depth, 1, 0
  {
    hide Holds, LengthOctets, ValidTag, ValidForm, ReadHeader, ReadLength, IsConstructed, Stands, AllStand, Children,
      EncodeAll, EndOfContents, LooksLikeEnd;
    var h := ReadHeader(buf, at).value;
    var tag := TagWas(buf, at);
    var form, length := LengthWas(buf, at + |tag|, h.constructed);
    if h.constructed {
      var parts := ChildrenWereWritten(buf, h.start, h.end, depth);
      t := ConstructedWas(buf, at, depth, tag, form, length, parts);
    } else {
      t := PrimitiveWas(buf, at, depth, tag, form, length);
    }
  }

  lemma PrimitiveWas(buf: seq<Byte>, at: nat, depth: nat, tag: seq<Byte>, form: Form, length: nat) returns (t: Tree)
    requires Element(buf, at, depth).Some? && ValidTag(tag) && ValidForm(form, length) && !form.Indefinite?
    requires Holds(buf, at, tag) && Holds(buf, at + |tag|, LengthOctets(form, length)) && !IsConstructed(tag[0])
    requires var start := at + |tag| + |LengthOctets(form, length)|;
             ReadHeader(buf, at) == Some(Header(tag[0], false, start, Some(start + length)))
    ensures Stands(buf, at, depth, t, Element(buf, at, depth).value)
  {
    hide ReadHeader, LengthOctets, ValidTag, ValidForm, IsConstructed, Holds, Encode;
    var start := at + |tag| + |LengthOctets(form, length)|;
    var contents := buf[start..start + length];
    t := Primitive(tag, form, contents);
    HoldsSlice(buf, start, contents);
    EncodingFrom(buf, at, t);
  }

  lemma ConstructedWas(buf: seq<Byte>, at: nat, depth: nat, tag: seq<Byte>, form: Form, length: nat, parts: seq<Tree>)
    returns (t: Tree)
    requires Element(buf, at, depth).Some? && ValidTag(tag) && ValidForm(form, length)
    requires Holds(buf, at, tag) && Holds(buf, at + |tag|, LengthOctets(form, length)) && IsConstructed(tag[0])
    requires var start := at + |tag| + |LengthOctets(form, length)|;
             && ReadHeader(buf, at)
                == Some(Header(tag[0], true, start, if form.Indefinite? then None else Some(start + length)))
             && AllStand(buf, start, depth, parts, Children(buf, start, ReadHeader(buf, at).value.end, depth).value.0)
             && start + |EncodeAll(parts)| == Children(buf, start, ReadHeader(buf, at).value.end, depth).value.1
             && (form.Indefinite? ==> EndOfContents(buf, start + |EncodeAll(parts)|) && forall k :: 0 <= k < |parts| ==> !LooksLikeEnd(parts[k]))
    ensures Stands(buf, at, depth, t, Element(buf, at, depth).value)
  {
    hide ReadHeader, ValidTag, IsConstructed, Holds, Encode, EncodeAll, ValidTrees, NodesOf, HeightOfParts, EndOfContents;
    t := Constructed(tag, form, parts);
    EncodingFrom(buf, at, t);
  }

  ghost predicate AllStand(buf: seq<Byte>, at: nat, depth: nat, ts: seq<Tree>, nodes: seq<Node>) {
    && ValidTrees(ts) && Holds(buf, at, EncodeAll(ts)) && depth + HeightOfParts(ts) <= MAX_DEPTH
    && NodesOf(ts, at) == nodes
  }

  lemma {:induction false} ChildrenWereWritten(buf: seq<Byte>, cursor: nat, end: Option<nat>, depth: nat)
    returns (ts: seq<Tree>)
    requires depth <= MAX_DEPTH && cursor <= |buf| && (end.Some? ==> cursor <= end.value <= |buf|)
    requires Children(buf, cursor, end, depth).Some?
    ensures AllStand(buf, cursor, depth, ts, Children(buf, cursor, end, depth).value.0)
    ensures cursor + |EncodeAll(ts)| == Children(buf, cursor, end, depth).value.1
    ensures end.None? ==> EndOfContents(buf, cursor + |EncodeAll(ts)|)
                          && forall k :: 0 <= k < |ts| ==> !LooksLikeEnd(ts[k])
    decreases MAX_DEPTH + 1 - depth, 0, |buf| - cursor
  {
    hide Element, Stands, AllStand;
    if (end.None? && EndOfContents(buf, cursor)) || (end.Some? && cursor >= end.value) {
      ts := [];
      NoneStand(buf, cursor, depth);
    } else {
      var child := Element(buf, cursor, depth + 1).value;
      var t := ElementWasWritten(buf, cursor, depth + 1);
      var rest := ChildrenWereWritten(buf, child.next, end, depth);
      ts := [t] + rest;
      if end.None? {
        EndWas(buf, cursor, depth + 1, t, child);
      }
      OneMoreStands(buf, cursor, depth, t, child, rest, Children(buf, child.next, end, depth).value.0);
    }
  }

  lemma NoneStand(buf: seq<Byte>, at: nat, depth: nat)
    requires at <= |buf| && depth <= MAX_DEPTH
    ensures AllStand(buf, at, depth, [], []) && EncodeAll([]) == []
  {
  }

  lemma EndWas(buf: seq<Byte>, at: nat, depth: nat, t: Tree, node: Node)
    requires Stands(buf, at, depth, t, node) && !EndOfContents(buf, at)
    ensures !LooksLikeEnd(t)
  {
    if LooksLikeEnd(t) {
      assert Encode(t) == [0, 0];
      EndReads(buf, at);
    }
  }

  lemma OneMoreStands(buf: seq<Byte>, at: nat, depth: nat, t: Tree, node: Node, ts: seq<Tree>, nodes: seq<Node>)
    requires Stands(buf, at, depth + 1, t, node) && AllStand(buf, node.next, depth, ts, nodes)
    ensures AllStand(buf, at, depth, [t] + ts, [node] + nodes)
    ensures |EncodeAll([t] + ts)| == node.next - at + |EncodeAll(ts)|
  {
    hide ValidTree, Encode, Holds, NodeOf, Height, EncodeAll, ValidTrees, HeightOfParts, NodesOf;
    NextIsAfter(t, at);
    HoldsWhole(buf, at, Encode(t), EncodeAll(ts));
    PartsCons(t, ts, at);
  }

  lemma PartsCons(t: Tree, ts: seq<Tree>, at: nat)
    requires ValidTree(t) && ValidTrees(ts)
    ensures ValidTrees([t] + ts) && EncodeAll([t] + ts) == Encode(t) + EncodeAll(ts)
    ensures HeightOfParts([t] + ts) == Max(1 + Height(t), HeightOfParts(ts))
    ensures NodesOf([t] + ts, at) == [NodeOf(t, at)] + NodesOf(ts, at + |Encode(t)|)
  {
    hide ValidTree, Encode, NodeOf, Height;
    assert ([t] + ts)[0] == t && ([t] + ts)[1..] == ts;
  }

  /** The reader accepts exactly the encodings of trees within the depth bound. */
  lemma ElementAcceptsEncodings(buf: seq<Byte>, at: nat, depth: nat, node: Node)
    ensures Element(buf, at, depth) == Some(node) <==> exists t :: Stands(buf, at, depth, t, node)
    ensures forall t :: Stands(buf, at, depth, t, node) ==> depth + Height(t) <= 64
  {
    hide Element;
    if Element(buf, at, depth) == Some(node) {
      var t := ElementWasWritten(buf, at, depth);
    }
    if t :| Stands(buf, at, depth, t, node) {
      ElementReads(buf, at, depth, t);
    }
  }

  /** Where the child number `k` starts. */
  function ChildStart(nodes: seq<Node>, from: nat, k: nat): nat
    requires k <= |nodes|
  {
    if k == 0 then from else nodes[k - 1].next
  }

  lemma FirstChild(buf: seq<Byte>, cursor: nat, end: Option<nat>, depth: nat)
    requires depth <= MAX_DEPTH && cursor <= |buf| && (end.Some? ==> cursor <= end.value <= |buf|)
    requires Children(buf, cursor, end, depth).Some?
    ensures var (nodes, stop) := Children(buf, cursor, end, depth).value;
            if nodes == [] then stop == cursor
            else
              && Element(buf, cursor, depth + 1) == Some(nodes[0])
              && cursor < nodes[0].next <= |buf| && (end.Some? ==> nodes[0].next <= end.value)
              && Children(buf, nodes[0].next, end, depth) == Some((nodes[1..], stop))
  {
    hide Element;
  }

  /** Children lie one after the other from the content's start to its end. */
  lemma {:induction false} ChildrenTile(buf: seq<Byte>, cursor: nat, end: Option<nat>, depth: nat)
    requires depth <= MAX_DEPTH && cursor <= |buf| && (end.Some? ==> cursor <= end.value <= |buf|)
    requires Children(buf, cursor, end, depth).Some?
    ensures var (nodes, stop) := Children(buf, cursor, end, depth).value;
            && ChildStart(nodes, cursor, |nodes|) == stop
            && forall k :: 0 <= k < |nodes| ==> Element(buf, ChildStart(nodes, cursor, k), depth + 1) == Some(nodes[k])
    decreases |buf| - cursor
  {
    hide Element, Children;
    var (nodes, stop) := Children(buf, cursor, end, depth).value;
    FirstChild(buf, cursor, end, depth);
    if nodes != [] {
      var rest := nodes[1..];
      ChildrenTile(buf, nodes[0].next, end, depth);
      StartsAfterFirst(buf, nodes, cursor, depth);
    }
  }

  lemma StartsAfterFirst(buf: seq<Byte>, nodes: seq<Node>, cursor: nat, depth: nat)
    requires nodes != [] && Element(buf, cursor, depth + 1) == Some(nodes[0])
    requires var rest := nodes[1..];
             forall k :: 0 <= k < |rest| ==> Element(buf, ChildStart(rest, nodes[0].next, k), depth + 1) == Some(rest[k])
    ensures ChildStart(nodes, cursor, |nodes|) == ChildStart(nodes[1..], nodes[0].next, |nodes| - 1)
    ensures forall k :: 0 <= k < |nodes| ==> Element(buf, ChildStart(nodes, cursor, k), depth + 1) == Some(nodes[k])
  {
    hide Element;
    var rest := nodes[1..];
    forall k | 0 <= k < |nodes| ensures Element(buf, ChildStart(nodes, cursor, k), depth + 1) == Some(nodes[k]) {
      if k > 0 {
        assert ChildStart(rest, nodes[0].next, k - 1) == ChildStart(nodes, cursor, k) && rest[k - 1] == nodes[k];
      }
    }
  }

  // ---------------------------------------------------------------------
  // Octet strings.

  /** The octets of a written tree are its leaves' contents joined, however it was cut up. */
  lemma {:induction false} OctetsAreLeaves(buf: seq<Byte>, at: nat, t: Tree)
    requires ValidTree(t) && Holds(buf, at, Encode(t))
    ensures InBuffer(buf, NodeOf(t, at)) && Octets(buf, NodeOf(t, at)) == Leaves(t)
    decreases t, 1
  {
    hide ValidTree, Encode, LengthOctets, Holds, NodeOf, InBuffer, Octets, Leaves, Content;
    EncodeParts(t);
    EncodingStands(buf, at, t);
    var start := ContentStart(t, at);
    HoldsSlice(buf, start, Content(t));
    if t.Constructed? {
      ContentOfConstructed(t);
      AllOctetsAreLeaves(buf, start, t.parts);
      OctetsOfConstructed(buf, at, t);
    } else {
      OctetsOfPrimitive(buf, at, t);
    }
  }

  lemma OctetsOfPrimitive(buf: seq<Byte>, at: nat, t: Tree)
    requires ValidTree(t) && t.Primitive?
    requires var start := ContentStart(t, at); start + |Content(t)| <= |buf| && buf[start..start + |Content(t)|] == Content(t)
    ensures InBuffer(buf, NodeOf(t, at)) && Octets(buf, NodeOf(t, at)) == Leaves(t)
  {
    hide LengthOctets;
  }

  lemma OctetsOfConstructed(buf: seq<Byte>, at: nat, t: Tree)
    requires ValidTree(t) && t.Constructed? && ValidTrees(t.parts)
    requires ContentStart(t, at) + |Content(t)| <= |buf|
    requires var nodes := NodesOf(t.parts, ContentStart(t, at));
             && (forall k :: 0 <= k < |nodes| ==> InBuffer(buf, nodes[k]))
             && AllOctets(buf, nodes) == AllLeaves(t.parts)
    ensures InBuffer(buf, NodeOf(t, at)) && Octets(buf, NodeOf(t, at)) == Leaves(t)
  {
    hide LengthOctets, Content, NodesOf, AllOctets, AllLeaves;
  }

  lemma {:induction false} AllOctetsAreLeaves(buf: seq<Byte>, at: nat, ts: seq<Tree>)
    requires ValidTrees(ts) && Holds(buf, at, EncodeAll(ts))
    ensures forall k :: 0 <= k < |NodesOf(ts, at)| ==> InBuffer(buf, NodesOf(ts, at)[k])
    ensures AllOctets(buf, NodesOf(ts, at)) == AllLeaves(ts)
    decreases ts, 0
  {
    hide ValidTree, Encode, Holds, NodeOf, InBuffer, Octets, Leaves;
    if ts != [] {
      HoldsParts(buf, at, Encode(ts[0]), EncodeAll(ts[1..]));
      OctetsAreLeaves(buf, at, ts[0]);
      AllOctetsAreLeaves(buf, at + |Encode(ts[0])|, ts[1..]);
      var nodes := NodesOf(ts[1..], at + |Encode(ts[0])|);
      assert NodesOf(ts, at)[1..] == nodes;
    }
  }

  // ---------------------------------------------------------------------
  // The loops.

  /** `header`'s loop over the octets of a high tag number. */
  method PastHighTag(buf: seq<Byte>, from: nat) returns (r: Option<nat>)
    ensures r == TagEnd(buf, from)
  {
    var at := from;
    while at < |buf|
      invariant TagEnd(buf, from) == TagEnd(buf, at)
      decreases |buf| - at
    {
      at := at + 1;
      if buf[at - 1] < 128 {
        return Some(at);
      }
    }
    return None;
  }

  method HeaderAt(buf: seq<Byte>, at: nat) returns (r: Option<Header>)
    ensures r == ReadHeader(buf, at)
  {
    if at + 2 > |buf| {
      return None;
    }
    var first, cursor := buf[at], at + 1;
    if IsHighTag(first) {
      var past := PastHighTag(buf, cursor);
      if past.None? {
        return None;
      }
      cursor := past.value;
    }
    match ReadLength(buf, cursor, IsConstructed(first))
    case None => return None;
    case Some((start, end)) => return Some(Header(first, IsConstructed(first), start, end));
  }

  /** What the whole list of children is, once `done` has been read up to `cursor`. */
  function Onward(done: seq<Node>, rest: Option<(seq<Node>, nat)>): Option<(seq<Node>, nat)> {
    match rest case None => None case Some((nodes, stop)) => Some((done + nodes, stop))
  }

  method ElementAt(buf: seq<Byte>, at: nat, depth: nat) returns (r: Option<Node>)
    ensures r == Element(buf, at, depth)
    decreases if depth > MAX_DEPTH then 0 else MAX_DEPTH + 1 - depth, 1
  {
    hide ReadHeader, Children;
    if depth > MAX_DEPTH {
      return None;
    }
    var h := HeaderAt(buf, at);
    if h.None? {
      return None;
    }
    var Header(tag, constructed, start, end) := h.value;
    if !constructed {
      return Some(Node(tag, false, start, end.value, [], end.value));
    }
    var inside := ChildrenAt(buf, start, end, depth);
    match inside
    case None => return None;
    case Some((children, stop)) =>
      return Some(Node(tag, true, start, stop, children, if end.None? then stop + 2 else stop));
  }

  /** `element`'s loop: append a child and move the cursor past it, until the content ends. */
  method ChildrenAt(buf: seq<Byte>, start: nat, end: Option<nat>, depth: nat) returns (r: Option<(seq<Node>, nat)>)
    requires depth <= MAX_DEPTH && start <= |buf| && (end.Some? ==> start <= end.value <= |buf|)
    ensures r == Children(buf, start, end, depth)
    decreases MAX_DEPTH + 1 - depth, 0
  {
    hide Element;
    var children: seq<Node>, cursor := [], start;
    ghost var whole := Children(buf, start, end, depth);
    OnwardFromNone(whole);
    while !(if end.None? then EndOfContents(buf, cursor) else cursor >= end.value)
      invariant start <= cursor <= |buf| && (end.Some? ==> cursor <= end.value)
      invariant whole == Onward(children, Children(buf, cursor, end, depth))
      decreases |buf| - cursor
    {
      var child := ElementAt(buf, cursor, depth + 1);
      if child.None? || (end.Some? && child.value.next > end.value) {
        return None;
      }
      OnwardTwice(children, child.value, Children(buf, child.value.next, end, depth));
      children := children + [child.value];
      cursor := child.value.next;
    }
    assert children + [] == children;
    return Some((children, cursor));
  }

  lemma OnwardFromNone(rest: Option<(seq<Node>, nat)>)
    ensures Onward([], rest) == rest
  {
    if rest.Some? {
      assert [] + rest.value.0 == rest.value.0;
    }
  }

  lemma OnwardTwice(done: seq<Node>, node: Node, rest: Option<(seq<Node>, nat)>)
    ensures Onward(done, Onward([node], rest)) == Onward(done + [node], rest)
  {
    if rest.Some? {
      assert done + ([node] + rest.value.0) == done + [node] + rest.value.0;
    }
  }
}
