/** The BER reader of `rust/fuzz/derive-seeds.py`: section 8.1 of X.690, with
    definite and indefinite lengths and high tag numbers, and the octet strings of
    section 8.7. */
module Ber {
  import opened Foundation

  const MAX_DEPTH: nat := 64

  // ---------------------------------------------------------------------
  // Reading.

  /** Where the tag octets that start at `at` end, the first already seen to need more. */
  function TagEnd(buf: seq<Byte>, at: nat): (r: Option<nat>)
    ensures r.Some? ==> at < r.value <= |buf|
    decreases |buf| - at
  {
    if at >= |buf| then None
    else if buf[at] < 128 then Some(at + 1)
    else TagEnd(buf, at + 1)
  }

  function BigEndian(b: seq<Byte>): nat {
    if b == [] then 0
    else
      var last: int := b[|b| - 1];
      256 * BigEndian(b[..|b| - 1]) + last
  }

  /** A header: where the content starts, and where it ends when that is stated. */
  datatype Header = Header(tag: Byte, constructed: bool, start: nat, end: Option<nat>)

  predicate IsConstructed(tag: Byte) {
    tag / 32 % 2 == 1
  }

  predicate IsHighTag(tag: Byte) {
    tag % 32 == 31
  }

  /** An identifier octet, section 8.1.2 of X.690: a class, whether it is constructed,
      and a tag number, 31 for a number that does not fit. */
  function Identifier(tagClass: nat, constructed: bool, number: nat): Byte
    requires tagClass < 4 && number < 32
  {
    64 * tagClass + (if constructed then 32 else 0) + number
  }

  lemma IdentifierReads(tagClass: nat, constructed: bool, number: nat)
    requires tagClass < 4 && number < 32
    ensures IsConstructed(Identifier(tagClass, constructed, number)) == constructed
    ensures IsHighTag(Identifier(tagClass, constructed, number)) <==> number == 31
  {
  }

  /** The length octets at `at`: where the content starts and ends. */
  function ReadLength(buf: seq<Byte>, at: nat, constructed: bool): (r: Option<(nat, Option<nat>)>)
    ensures r.Some? ==> at < r.value.0 <= |buf|
    ensures r.Some? && r.value.1.Some? ==> r.value.0 <= r.value.1.value <= |buf|
    ensures r.Some? && r.value.1.None? ==> constructed
  {
    if at >= |buf| then None
    else
      var length := buf[at];
      if length == 128 then (if constructed then Some((at + 1, None)) else None)
      else if length > 128 then
        var count := length - 128;
        if count > 4 || at + 1 + count > |buf| then None
        else
          var value := BigEndian(buf[at + 1..at + 1 + count]);
          var start := at + 1 + count;
          if start + value > |buf| then None else Some((start, Some(start + value)))
      else if at + 1 + length > |buf| then None
      else Some((at + 1, Some(at + 1 + length)))
  }

  function ReadHeader(buf: seq<Byte>, at: nat): (r: Option<Header>)
    ensures r.Some? ==> at + 2 <= r.value.start <= |buf|
    ensures r.Some? && r.value.end.Some? ==> r.value.start <= r.value.end.value <= |buf|
    ensures r.Some? && r.value.end.None? ==> r.value.constructed
  {
    if at + 2 > |buf| then None
    else
      var tag := buf[at];
      var afterTag := if IsHighTag(tag) then TagEnd(buf, at + 1) else Some(at + 1);
      if afterTag.None? then None
      else
        match ReadLength(buf, afterTag.value, IsConstructed(tag))
        case None => None
        case Some((start, end)) => Some(Header(tag, IsConstructed(tag), start, end))
  }

  /** An element: its content octets are `start` to `end`, and the next element
      starts at `next`. */
  datatype Node = Node(tag: Byte, constructed: bool, start: nat, end: nat, children: seq<Node>, next: nat)

  predicate EndOfContents(buf: seq<Byte>, at: nat) {
    at + 2 <= |buf| && buf[at] == 0 && buf[at + 1] == 0
  }

  function Element(buf: seq<Byte>, at: nat, depth: nat): (r: Option<Node>)
    ensures r.Some? ==> at + 2 <= r.value.next <= |buf|
    ensures r.Some? ==> at + 2 <= r.value.start <= r.value.end <= r.value.next
    decreases if depth > MAX_DEPTH then 0 else MAX_DEPTH + 1 - depth, 1, 0
  {
    if depth > MAX_DEPTH then None
    else match ReadHeader(buf, at)
    case None => None
    case Some(h) =>
      if !h.constructed then Some(Node(h.tag, false, h.start, h.end.value, [], h.end.value))
      else match Children(buf, h.start, h.end, depth)
      case None => None
      case Some((children, end)) =>
        Some(Node(h.tag, true, h.start, end, children, if h.end.None? then end + 2 else end))
  }

  /** The children from `cursor` to the stated end, or to the end-of-contents
      octets when none is stated; and where the content ends. */
  function Children(buf: seq<Byte>, cursor: nat, end: Option<nat>, depth: nat): (r: Option<(seq<Node>, nat)>)
    requires depth <= MAX_DEPTH && cursor <= |buf|
    requires end.Some? ==> cursor <= end.value <= |buf|
    ensures r.Some? ==> cursor <= r.value.1 && r.value.1 + (if end.None? then 2 else 0) <= |buf|
    ensures r.Some? && end.Some? ==> r.value.1 == end.value
    decreases MAX_DEPTH + 1 - depth, 0, |buf| - cursor
  {
    if end.None? && EndOfContents(buf, cursor) then Some(([], cursor))
    else if end.Some? && cursor >= end.value then Some(([], end.value))
    else match Element(buf, cursor, depth + 1)
    case None => None
    case Some(child) =>
      if end.Some? && child.next > end.value then None
      else match Children(buf, child.next, end, depth)
      case None => None
      case Some((rest, stop)) => Some(([child] + rest, stop))
  }

  /** An octet string's contents, the chunks of a constructed one joined. */
  function Octets(buf: seq<Byte>, node: Node): seq<Byte>
    requires InBuffer(buf, node)
  {
    if !node.constructed then buf[node.start..node.end] else AllOctets(buf, node.children)
  }

  function AllOctets(buf: seq<Byte>, nodes: seq<Node>): seq<Byte>
    requires forall k :: 0 <= k < |nodes| ==> InBuffer(buf, nodes[k])
  {
    if nodes == [] then [] else Octets(buf, nodes[0]) + AllOctets(buf, nodes[1..])
  }

  predicate InBuffer(buf: seq<Byte>, node: Node) {
    && node.start <= node.end <= |buf|
    && forall k :: 0 <= k < |node.children| ==> InBuffer(buf, node.children[k])
  }

  // ---------------------------------------------------------------------
  // Writing.

  /** How a length is written: in one octet, in `count` further octets, or as
      indefinite, closed by end-of-contents octets. */
  datatype Form = Short | Long(count: nat) | Indefinite

  /** A value as it is written: its tag octets, the form of its length, and its
      octets or its parts. */
  datatype Tree =
    | Primitive(tag: seq<Byte>, form: Form, contents: seq<Byte>)
    | Constructed(tag: seq<Byte>, form: Form, parts: seq<Tree>)

  predicate ValidTag(tag: seq<Byte>) {
    && tag != []
    && if IsHighTag(tag[0])
       then |tag| >= 2 && tag[|tag| - 1] < 128 && forall k :: 1 <= k < |tag| - 1 ==> tag[k] >= 128
       else |tag| == 1
  }

  function Power256(count: nat): nat {
    if count == 0 then 1 else 256 * Power256(count - 1)
  }

  predicate ValidForm(form: Form, length: nat) {
    match form
    case Short => length < 128
    case Long(count) => 1 <= count <= 4 && length < Power256(count)
    case Indefinite => true
  }

  /** A part whose encoding would be read as the end of its indefinite parent. */
  predicate LooksLikeEnd(t: Tree) {
    t == Primitive([0], Short, [])
  }

  predicate ValidTree(t: Tree)
    decreases t, 1
  {
    && ValidTag(t.tag)
    && ValidForm(t.form, |Content(t)|)
    && match t
       case Primitive(tag, form, _) => !IsConstructed(tag[0]) && !form.Indefinite?
       case Constructed(tag, form, parts) =>
         && IsConstructed(tag[0])
         && ValidTrees(parts)
         && (form.Indefinite? ==> forall k :: 0 <= k < |parts| ==> !LooksLikeEnd(parts[k]))
  }

  predicate ValidTrees(ts: seq<Tree>)
    decreases ts, 0
  {
    ts == [] || (ValidTree(ts[0]) && ValidTrees(ts[1..]))
  }

  function ToBigEndian(n: nat, count: nat): seq<Byte> {
    if count == 0 then [] else ToBigEndian(n / 256, count - 1) + [n % 256]
  }

  function LengthOctets(form: Form, length: nat): seq<Byte>
    requires ValidForm(form, length)
  {
    match form
    case Short => [length]
    case Long(count) => [128 + count] + ToBigEndian(length, count)
    case Indefinite => [128]
  }

  function Content(t: Tree): seq<Byte>
    decreases t, 0
  {
    match t
    case Primitive(_, _, contents) => contents
    case Constructed(_, _, parts) => EncodeAll(parts)
  }

  /** The octets of a tree; a length that does not fit its form is written as nothing. */
  function Encode(t: Tree): seq<Byte>
    decreases t, 1
  {
    var content := Content(t);
    t.tag
    + (if ValidForm(t.form, |content|) then LengthOctets(t.form, |content|) else [])
    + content
    + (if t.form.Indefinite? then [0, 0] else [])
  }

  function EncodeAll(ts: seq<Tree>): seq<Byte>
    decreases ts, 2
  {
    if ts == [] then [] else Encode(ts[0]) + EncodeAll(ts[1..])
  }

  function Max(a: nat, b: nat): nat {
    if a > b then a else b
  }

  function Height(t: Tree): nat
    decreases t, 1
  {
    match t case Primitive(_, _, _) => 0 case Constructed(_, _, parts) => HeightOfParts(parts)
  }

  /** One more than the highest part; 0 when there is none. */
  function HeightOfParts(ts: seq<Tree>): nat
    decreases ts, 0
  {
    if ts == [] then 0 else Max(1 + Height(ts[0]), HeightOfParts(ts[1..]))
  }

  /** The primitive contents of a tree, in order. */
  function Leaves(t: Tree): seq<Byte>
    decreases t, 1
  {
    match t case Primitive(_, _, contents) => contents case Constructed(_, _, parts) => AllLeaves(parts)
  }

  function AllLeaves(ts: seq<Tree>): seq<Byte>
    decreases ts, 0
  {
    if ts == [] then [] else Leaves(ts[0]) + AllLeaves(ts[1..])
  }

  /** The node of a tree written at `at`: children one after the other, filling the
      content from its start to its end. */
  function NodeOf(t: Tree, at: nat): Node
    requires ValidTree(t)
    decreases t, 1
  {
    var content := Content(t);
    var start := at + |t.tag| + |LengthOctets(t.form, |content|)|;
    var end := start + |content|;
    match t
    case Primitive(tag, _, _) => Node(tag[0], false, start, end, [], end)
    case Constructed(tag, form, parts) =>
      Node(tag[0], true, start, end, NodesOf(parts, start), if form.Indefinite? then end + 2 else end)
  }

  function NodesOf(ts: seq<Tree>, at: nat): seq<Node>
    requires ValidTrees(ts)
    decreases ts, 0
  {
    if ts == [] then [] else [NodeOf(ts[0], at)] + NodesOf(ts[1..], at + |Encode(ts[0])|)
  }
}
