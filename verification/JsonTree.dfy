/** JSON documents with references: the `$ref` texts a document holds, changing
    them throughout, the values JSON pointers (RFC 6901) reach, and setting a value
    at a path. */
module JsonTree {
  import opened Foundation
  import opened Decimal
  import opened Json

  const REF: string := "$ref"

  // ---------------------------------------------------------------------
  // References.

  /** The document holds a `$ref` with the text `s`. */
  ghost predicate Mentions(v: Value, s: string)
    decreases v, 0
  {
    match v
    case Object(m) => exists key :: key in m && MentionsAt(key, m[key], s)
    case Array(items) => exists i :: 0 <= i < |items| && Mentions(items[i], s)
    case _ => false
  }

  /** So does a value that stands under `key`. */
  ghost predicate MentionsAt(key: string, v: Value, s: string)
    decreases v, 1
  {
    if key == REF && v.Text? then v.text == s else Mentions(v, s)
  }

  /** Every `$ref` text replaced by its image. */
  function MapRefs(v: Value, f: string -> string): Value
    decreases v, 0
  {
    match v
    case Object(m) => Object(map key | key in m :: MapAt(key, m[key], f))
    case Array(items) => Array(seq(|items|, i requires 0 <= i < |items| => MapRefs(items[i], f)))
    case _ => v
  }

  function MapAt(key: string, v: Value, f: string -> string): Value
    decreases v, 1
  {
    if key == REF && v.Text? then Text(f(v.text)) else MapRefs(v, f)
  }

  lemma MentionsOfMapAt(key: string, v: Value, f: string -> string, s: string)
    ensures MentionsAt(key, MapAt(key, v, f), s)
            <==> if key == REF && v.Text? then f(v.text) == s else Mentions(MapRefs(v, f), s)
  {
    assert MapRefs(v, f).Text? <==> v.Text?;
  }

  /** The texts after a replacement are the images of the texts before. */
  lemma {:induction false} MentionsOfMap(v: Value, f: string -> string, s: string)
    ensures Mentions(MapRefs(v, f), s) ==> exists t :: Mentions(v, t) && f(t) == s
    decreases v
  {
    if Mentions(MapRefs(v, f), s) {
      match v
      case Object(m) =>
        var key :| key in m && MentionsAt(key, MapAt(key, m[key], f), s);
        var x := m[key];
        MentionsOfMapAt(key, x, f, s);
        if key == REF && x.Text? {
          assert MentionsAt(key, x, x.text);
          assert Mentions(v, x.text);
        } else {
          MentionsOfMap(x, f, s);
          var t :| Mentions(x, t) && f(t) == s;
          assert MentionsAt(key, x, t);
          assert Mentions(v, t);
        }
      case Array(items) =>
        var i :| 0 <= i < |items| && Mentions(MapRefs(items[i], f), s);
        MentionsOfMap(items[i], f, s);
        var t :| Mentions(items[i], t) && f(t) == s;
        assert Mentions(v, t);
    }
  }

  /** Replacing nothing that is mentioned changes nothing. */
  lemma {:induction false} MapOfUnmentioned(v: Value, f: string -> string)
    requires forall s :: Mentions(v, s) ==> f(s) == s
    ensures MapRefs(v, f) == v
    decreases v
  {
    match v
    case Object(m) =>
      forall key | key in m ensures MapAt(key, m[key], f) == m[key] {
        assert forall s :: MentionsAt(key, m[key], s) ==> Mentions(v, s);
        if key == REF && m[key].Text? {
          assert MentionsAt(key, m[key], m[key].text);
        } else {
          assert forall s :: Mentions(m[key], s) ==> MentionsAt(key, m[key], s);
          MapOfUnmentioned(m[key], f);
        }
      }
      assert MapRefs(v, f).members == m;
    case Array(items) =>
      forall i | 0 <= i < |items| ensures MapRefs(items[i], f) == items[i] {
        assert forall s :: Mentions(items[i], s) ==> Mentions(v, s);
        MapOfUnmentioned(items[i], f);
      }
      assert MapRefs(v, f).items == items;
    case _ =>
  }

  lemma {:induction false} MapTwice(v: Value, f: string -> string, g: string -> string, h: string -> string)
    requires forall s :: h(s) == g(f(s))
    ensures MapRefs(MapRefs(v, f), g) == MapRefs(v, h)
    decreases v
  {
    match v
    case Object(m) =>
      forall key | key in m ensures MapAt(key, MapAt(key, m[key], f), g) == MapAt(key, m[key], h) {
        MapTwice(m[key], f, g, h);
        MapAtTwice(key, m[key], f, g, h);
      }
      var twice, once := MapRefs(MapRefs(v, f), g).members, MapRefs(v, h).members;
      assert twice.Keys == once.Keys == m.Keys;
      assert twice == once;
    case Array(items) =>
      forall i | 0 <= i < |items| ensures MapRefs(MapRefs(items[i], f), g) == MapRefs(items[i], h) {
        MapTwice(items[i], f, g, h);
      }
      var twice, once := MapRefs(MapRefs(v, f), g).items, MapRefs(v, h).items;
      assert |twice| == |once| == |items|;
      assert twice == once;
    case _ =>
  }

  lemma MapAtTwice(key: string, v: Value, f: string -> string, g: string -> string, h: string -> string)
    requires (forall s :: h(s) == g(f(s))) && MapRefs(MapRefs(v, f), g) == MapRefs(v, h)
    ensures MapAt(key, MapAt(key, v, f), g) == MapAt(key, v, h)
  {
    assert MapRefs(v, f).Text? <==> v.Text?;
  }

  // ---------------------------------------------------------------------
  // Pointers.

  /** An array index as a token writes it: digits, no leading zero. */
  function ArrayIndex(token: string): Option<nat> {
    match ReadDigits(token)
    case None => None
    case Some(n) => if Digits(n) == token then Some(n) else None
  }

  function Child(v: Value, token: string): Option<Value> {
    match v
    case Object(m) => if token in m then Some(m[token]) else None
    case Array(items) =>
      (match ArrayIndex(token)
       case Some(n) => if n < |items| then Some(items[n]) else None
       case None => None)
    case _ => None
  }

  /** The value a path of tokens reaches. */
  function Resolve(v: Value, path: seq<string>): Option<Value>
    decreases path
  {
    if path == [] then Some(v)
    else match Child(v, path[0])
    case None => None
    case Some(c) => Resolve(c, path[1..])
  }

  lemma ChildOfMap(v: Value, f: string -> string, token: string)
    ensures Child(MapRefs(v, f), token)
            == match Child(v, token) case None => None case Some(c) => Some(MapAt(token, c, f))
  {
    if v.Array? {
      assert ReadDigits("$ref").None?;
    }
  }

  function ImageAt(path: seq<string>, v: Option<Value>, f: string -> string): Option<Value>
    requires path != []
  {
    match v case None => None case Some(t) => Some(MapAt(path[|path| - 1], t, f))
  }

  /** A pointer reaches, after a replacement, the image of what it reached before. */
  lemma {:induction false} ResolveOfMap(v: Value, f: string -> string, path: seq<string>)
    requires path != []
    ensures Resolve(MapRefs(v, f), path) == ImageAt(path, Resolve(v, path), f)
    decreases path
  {
    hide Child;
    ChildOfMap(v, f, path[0]);
    var c := Child(v, path[0]);
    if c.Some? {
      if |path| == 1 {
        assert path[1..] == [];
      } else if c.value.Text? {
        TextHasNoChild(c.value.text, path[1]);
        TextHasNoChild(f(c.value.text), path[1]);
      } else {
        ResolveOfMap(c.value, f, path[1..]);
      }
    }
  }

  lemma TextHasNoChild(text: string, token: string)
    ensures Child(Text(text), token) == None
  {
  }

  lemma {:induction false} ResolveAppend(v: Value, a: seq<string>, b: seq<string>)
    ensures Resolve(v, a + b) == match Resolve(v, a) case None => None case Some(c) => Resolve(c, b)
    decreases a
  {
    hide Child;
    if a == [] {
      assert a + b == b;
    } else {
      assert (a + b)[0] == a[0] && (a + b)[1..] == a[1..] + b;
      if Child(v, a[0]).Some? {
        ResolveAppend(Child(v, a[0]).value, a[1..], b);
      }
    }
  }

  // ---------------------------------------------------------------------
  // Setting a value at a path, as indexed assignment does.

  function MembersOf(v: Value): map<string, Value>
    requires v.Null? || v.Object?
  {
    if v.Object? then v.members else map[]
  }

  function ChildOrNull(members: map<string, Value>, key: string): Value {
    if key in members then members[key] else Null
  }

  /** Objects are made where there is nothing; `None` where something else stands. */
  function SetPath(v: Value, path: seq<string>, x: Value): Option<Value>
    decreases path
  {
    if path == [] then Some(x)
    else if !v.Null? && !v.Object? then None
    else
      match SetPath(ChildOrNull(MembersOf(v), path[0]), path[1..], x)
      case None => None
      case Some(c) => Some(Object(MembersOf(v)[path[0] := c]))
  }

  lemma {:induction false} ResolveWhatWasSet(v: Value, path: seq<string>, x: Value)
    requires SetPath(v, path, x).Some?
    ensures Resolve(SetPath(v, path, x).value, path) == Some(x)
    decreases path
  {
    if path != [] {
      ResolveWhatWasSet(ChildOrNull(MembersOf(v), path[0]), path[1..], x);
    }
  }

  /** Neither path is a prefix of the other. */
  ghost predicate Apart(p: seq<string>, q: seq<string>) {
    exists i :: 0 <= i < |p| && i < |q| && p[i] != q[i]
  }

  lemma {:induction false} ResolveElsewhere(v: Value, path: seq<string>, x: Value, p: seq<string>)
    requires SetPath(v, path, x).Some? && Apart(p, path)
    ensures Resolve(SetPath(v, path, x).value, p) == Resolve(v, p)
    decreases path
  {
    var i :| 0 <= i < |p| && i < |path| && p[i] != path[i];
    if p[0] == path[0] {
      var c := ChildOrNull(MembersOf(v), path[0]);
      assert p[1..][i - 1] != path[1..][i - 1];
      ResolveElsewhere(c, path[1..], x, p[1..]);
      NullReachesNothing(p[1..]);
    }
  }

  lemma NullReachesNothing(path: seq<string>)
    requires path != []
    ensures Resolve(Null, path) == None
  {
  }

  /** Setting a value adds only that value's references. */
  lemma {:induction false} MentionsOfSet(v: Value, path: seq<string>, x: Value, s: string)
    requires SetPath(v, path, x).Some? && path != [] && Mentions(SetPath(v, path, x).value, s)
    ensures Mentions(v, s) || MentionsAt(path[|path| - 1], x, s)
    decreases path
  {
    var c := ChildOrNull(MembersOf(v), path[0]);
    var placed := SetPath(c, path[1..], x).value;
    var m := MembersOf(v)[path[0] := placed];
    var key :| key in m && MentionsAt(key, m[key], s);
    if key != path[0] {
      assert key in v.members && v.members[key] == m[key];
    } else if |path| > 1 {
      SetIsAnObject(c, path[1..], x);
      MentionsOfSet(c, path[1..], x, s);
      if Mentions(c, s) {
        assert path[0] in v.members && MentionsAt(path[0], v.members[path[0]], s);
      }
    }
  }

  lemma SetIsAnObject(v: Value, path: seq<string>, x: Value)
    requires SetPath(v, path, x).Some? && path != []
    ensures SetPath(v, path, x).value.Object?
  {
  }

  /** Setting a value where another path leads does not stand in that path's way. */
  lemma {:induction false} SetAside(v: Value, p: seq<string>, x: Value, q: seq<string>, y: Value)
    requires SetPath(v, p, x).Some? && SetPath(v, q, y).Some? && Apart(p, q)
    ensures SetPath(SetPath(v, p, x).value, q, y).Some?
    decreases p
  {
    var i :| 0 <= i < |p| && i < |q| && p[i] != q[i];
    if p[0] == q[0] {
      assert p[1..][i - 1] != q[1..][i - 1];
      SetAside(ChildOrNull(MembersOf(v), p[0]), p[1..], x, q[1..], y);
    }
  }

  lemma {:induction false} NullTakesAnything(path: seq<string>, x: Value)
    ensures SetPath(Null, path, x).Some?
  {
    if path != [] {
      NullTakesAnything(path[1..], x);
    }
  }

  /** A text reached under `$ref` is a reference. */
  lemma {:induction false} ReachedRefIsMentioned(v: Value, path: seq<string>, s: string)
    requires path != [] && path[|path| - 1] == REF && Resolve(v, path) == Some(Text(s))
    ensures Mentions(v, s)
    decreases path
  {
    var c := Child(v, path[0]).value;
    if |path| == 1 {
      assert c == Text(s) by {
        assert path[1..] == [];
      }
      assert ReadDigits("$ref").None?;
      assert MentionsAt(path[0], v.members[path[0]], s);
    } else {
      ReachedRefIsMentioned(c, path[1..], s);
      if v.Object? {
        assert MentionsAt(path[0], v.members[path[0]], s);
      }
    }
  }

  // ---------------------------------------------------------------------
  // Pointer texts.

  /** The text up to the first slash. */
  function UpToSlash(s: string): (t: string)
    ensures t <= s && '/' !in t && (|t| < |s| ==> s[|t|] == '/')
  {
    if s == [] || s[0] == '/' then [] else [s[0]] + UpToSlash(s[1..])
  }

  /** `~1` is a slash and `~0` a tilde. */
  function Unescape(s: string): string {
    if s == [] then []
    else if |s| >= 2 && s[0] == '~' && s[1] == '1' then ['/'] + Unescape(s[2..])
    else if |s| >= 2 && s[0] == '~' && s[1] == '0' then ['~'] + Unescape(s[2..])
    else [s[0]] + Unescape(s[1..])
  }

  predicate IsPointer(s: string) {
    s == [] || s[0] == '/'
  }

  function Tokens(pointer: string): seq<string>
    requires IsPointer(pointer)
    decreases |pointer|
  {
    if pointer == [] then []
    else
      var token := UpToSlash(pointer[1..]);
      [Unescape(token)] + Tokens(pointer[1 + |token|..])
  }

  lemma {:induction false} UpToSlashAppend(a: string, b: string)
    requires IsPointer(b)
    ensures UpToSlash(a + b) == UpToSlash(a)
  {
    if a == [] {
      assert a + b == b;
    } else {
      assert (a + b)[0] == a[0] && (a + b)[1..] == a[1..] + b;
      UpToSlashAppend(a[1..], b);
    }
  }

  lemma TokensFirst(pointer: string, token: string, rest: string)
    requires pointer == ['/'] + token + rest && '/' !in token && IsPointer(rest)
    ensures Tokens(pointer) == [Unescape(token)] + Tokens(rest)
  {
    hide Unescape;
    assert pointer[1..] == token + rest;
    WholeToken(token);
    UpToSlashAppend(token, rest);
    assert pointer[1 + |token|..] == rest;
  }

  lemma {:induction false} WholeToken(s: string)
    ensures UpToSlash(s) == s <==> '/' !in s
  {
    if s != [] && s[0] != '/' {
      WholeToken(s[1..]);
      assert s == [s[0]] + s[1..];
    }
  }

  lemma NoTokens()
    ensures Tokens([]) == []
  {
  }

  lemma {:induction false} TokensAppend(a: string, b: string)
    requires IsPointer(a) && IsPointer(b)
    ensures IsPointer(a + b) && Tokens(a + b) == Tokens(a) + Tokens(b)
    decreases |a|
  {
    hide Unescape, UpToSlash, Tokens;
    if a == [] {
      assert a + b == b;
      NoTokens();
      assert [] + Tokens(b) == Tokens(b);
    } else {
      var token := UpToSlash(a[1..]);
      var rest := a[1 + |token|..];
      assert a == ['/'] + token + rest;
      assert a + b == ['/'] + token + (rest + b);
      TokensAppend(rest, b);
      TokensFirst(a, token, rest);
      TokensFirst(a + b, token, rest + b);
    }
  }

  predicate HasEscape(s: string) {
    exists i :: 0 <= i < |s| - 1 && s[i] == '~' && (s[i + 1] == '0' || s[i + 1] == '1')
  }

  lemma {:induction false} UnescapeLength(s: string)
    ensures |Unescape(s)| <= |s|
    decreases |s|
  {
    if |s| >= 2 && s[0] == '~' && (s[1] == '0' || s[1] == '1') {
      UnescapeLength(s[2..]);
    } else if s != [] {
      UnescapeLength(s[1..]);
    }
  }

  lemma {:induction false} UnescapedIff(s: string)
    ensures Unescape(s) == s <==> !HasEscape(s)
    decreases |s|
  {
    if |s| >= 2 && s[0] == '~' && (s[1] == '0' || s[1] == '1') {
      UnescapeLength(s[2..]);
      assert HasEscape(s);
    } else if s != [] {
      var rest := s[1..];
      UnescapedIff(rest);
      assert s == [s[0]] + rest;
      if i :| 0 <= i < |s| - 1 && s[i] == '~' && (s[i + 1] == '0' || s[i + 1] == '1') {
        assert rest[i - 1] == '~' && rest[i - 1 + 1] == s[i + 1];
      }
      if i :| 0 <= i < |rest| - 1 && rest[i] == '~' && (rest[i + 1] == '0' || rest[i + 1] == '1') {
        assert s[i + 1] == '~' && s[i + 1 + 1] == rest[i + 1];
      }
    }
  }

  /** A name that a pointer can carry as it is. */
  predicate PlainName(name: string) {
    '/' !in name && !HasEscape(name)
  }

  /** Otherwise not even its first token is the name. */
  lemma FirstTokenDiffers(name: string)
    requires !PlainName(name)
    ensures Tokens(['/'] + name) != [] && Tokens(['/'] + name)[0] != name
  {
    var pointer := ['/'] + name;
    assert pointer[1..] == name;
    WholeToken(name);
    UnescapedIff(name);
    UnescapeLength(UpToSlash(name));
  }

  /** A name written unescaped is one token, itself, exactly when it is plain. */
  lemma OneTokenIff(name: string)
    ensures Tokens(['/'] + name) == [name] <==> PlainName(name)
  {
    var pointer := ['/'] + name;
    assert pointer[1..] == name;
    var token := UpToSlash(name);
    WholeToken(name);
    UnescapedIff(name);
    var rest := pointer[1 + |token|..];
    assert Tokens(pointer) == [Unescape(token)] + Tokens(rest);
    if token == name {
      assert rest == [] && [Unescape(name)] + [] == [Unescape(name)];
    } else {
      assert rest != [];
      assert |Tokens(rest)| >= 1;
    }
  }
}
