/** What references, as they are written, reach in the served document. */
module SchemaMeaning {
  import opened Foundation
  import opened Json
  import opened JsonTree
  import opened SchemaBundle

  /** What a local reference reaches in a document. */
  function ResolveRef(doc: Value, ref: string): Option<Value> {
    if Local(ref) then Resolve(doc, Tokens(ref[1..])) else None
  }

  // ---------------------------------------------------------------------
  // Tokens.

  lemma PlainWords()
    ensures PlainName("components") && PlainName("schemas")
  {
  }

  lemma WordTokens()
    ensures Tokens("/components") == ["components"] && Tokens("/schemas") == ["schemas"]
  {
    hide Tokens, PlainName, Unescape, UpToSlash;
    PlainWords();
    OneTokenIff("components");
    OneTokenIff("schemas");
    assert "/components" == ['/'] + "components" && "/schemas" == ['/'] + "schemas";
  }

  /** The tokens of the reference written for a name, plain or not. */
  lemma BaseTokens(name: string)
    ensures Local(Base(name)) && IsPointer(Base(name)[1..])
    ensures Tokens(Base(name)[1..]) == ["components", "schemas"] + Tokens(['/'] + name)
  {
    hide Tokens, Unescape, UpToSlash;
    BaseIsNotExternal(name, []);
    var a, b, c := "/components", "/schemas", ['/'] + name;
    assert Base(name)[1..] == a + (b + c);
    WordTokens();
    TokensAppend(b, c);
    TokensAppend(a, b + c);
    assert ["components"] + (["schemas"] + Tokens(c)) == ["components", "schemas"] + Tokens(c);
  }

  lemma PlainBaseTokens(name: string)
    requires PlainName(name)
    ensures Tokens(Base(name)[1..]) == BasePath(name)
  {
    hide Tokens, PlainName;
    BaseTokens(name);
    OneTokenIff(name);
    assert ["components", "schemas"] + [name] == BasePath(name);
  }

  lemma LocalTokens(ref: string)
    requires Local(ref)
    ensures |ref| > 1 && IsPointer(ref[1..]) && Tokens(ref[1..]) != []
  {
  }

  lemma AnchoredTokens(name: string, ref: string)
    requires Local(ref)
    ensures Local(Reanchored(Base(name), ref))
    ensures IsPointer(Base(name)[1..])
    ensures Tokens(Reanchored(Base(name), ref)[1..]) == Tokens(Base(name)[1..]) + Tokens(ref[1..])
  {
    hide Tokens, Base;
    BaseTokens(name);
    var pointer := Base(name)[1..];
    assert Reanchored(Base(name), ref)[1..] == pointer + ref[1..];
    TokensAppend(pointer, ref[1..]);
  }

  // ---------------------------------------------------------------------
  // References under a plain name.

  /** The bundle exists and the reference number `k` is the last with its name. */
  ghost predicate Bundled(files: Files, doc: Value, refs: seq<string>, k: nat) {
    && AllExternal(refs) && Bundle(files, doc, refs).Some? && k < |refs|
    && forall j :: k < j < |refs| ==> NameOf(refs[j]) != NameOf(refs[k])
  }

  /** An external reference, rewritten, reaches its schema in the served document. */
  lemma ExternalRefKeepsMeaning(files: Files, doc: Value, refs: seq<string>, k: nat)
    requires Bundled(files, doc, refs, k) && PlainName(NameOf(refs[k]))
    ensures ResolveRef(Bundle(files, doc, refs).value, Base(NameOf(refs[k]))) == SchemaFor(files, refs[k])
       <==> !RewrittenAsRef(files, refs, k)
  {
    hide Bundle, SchemaFor, NameOf, External, Base, Resolve, Tokens, PlainName, RewrittenAsRef;
    BaseTokens(NameOf(refs[k]));
    PlainBaseTokens(NameOf(refs[k]));
    EmbeddedStandsIff(files, doc, refs, k);
  }

  /** Where the file is missing, the reference reaches an object that says so. */
  lemma MissingFileSaysSo(files: Files, doc: Value, refs: seq<string>, k: nat)
    requires Bundled(files, doc, refs, k) && PlainName(NameOf(refs[k])) && files(FileOf(refs[k])) == None
    ensures ResolveRef(Bundle(files, doc, refs).value, Base(NameOf(refs[k])))
         == Some(Object(map["description" := Text(FileOf(refs[k]) + ": not present when this binary was built")]))
  {
    hide Bundle, NameOf, FileOf, External, Base, ResolveRef, PlainName;
    ExternalRefKeepsMeaning(files, doc, refs, k);
  }

  /** The reference goes through a root member that embedding drops. */
  predicate ThroughDroppedRoot(schema: Value, ref: string)
    requires Local(ref)
  {
    schema.Object? && Tokens(ref[1..])[0] in {"$id", "$schema"}
  }

  lemma StrippedReaches(schema: Value, path: seq<string>)
    requires path != []
    ensures Resolve(Stripped(schema), path)
            == if schema.Object? && path[0] in {"$id", "$schema"} then None else Resolve(schema, path)
  {
  }

  /** What a local reference of an embedded schema reaches, re-anchored. */
  lemma LocalRefReaches(files: Files, doc: Value, refs: seq<string>, k: nat, schema: Value, ref: string)
    requires Bundled(files, doc, refs, k) && PlainName(NameOf(refs[k]))
    requires files(FileOf(refs[k])) == Some(schema) && Local(ref)
    ensures Tokens(ref[1..]) != []
    ensures var base := Base(NameOf(refs[k]));
            ResolveRef(Bundle(files, doc, refs).value, Reanchored(base, ref))
            == if ThroughDroppedRoot(schema, ref) then None
               else ImageAt(Tokens(ref[1..]), ResolveRef(schema, ref), Anchor(base))
  {
    hide Bundle, NameOf, FileOf, External, Base, Resolve, Tokens, PlainName, MapRefs, Stripped, Local, Reanchored, Mentions;
    var name := NameOf(refs[k]);
    LocalTokens(ref);
    var served, path := Bundle(files, doc, refs).value, Tokens(ref[1..]);
    AnchoredTokens(name, ref);
    PlainBaseTokens(name);
    ResolveAppend(served, BasePath(name), path);
    NamePathReaches(files, doc, refs, k);
    ResolveOfMap(Stripped(schema), Anchor(Base(name)), path);
    StrippedReaches(schema, path);
    BelowTheName(files, refs, k, path);
  }

  /** Below its own root, an embedded schema is what it was. */
  lemma BelowTheName(files: Files, refs: seq<string>, k: nat, path: seq<string>)
    requires AllExternal(refs) && k < |refs| && SchemaFor(files, refs[k]).Some? && path != []
    ensures var schema := SchemaFor(files, refs[k]).value;
            Resolve(MapAt(NameOf(refs[k]), schema, Served(refs[k..])), path) == Resolve(schema, path)
  {
    hide SchemaFor, NameOf, External, Base, Mentions, MapRefs;
    var schema := SchemaFor(files, refs[k]).value;
    if !(NameOf(refs[k]) == REF && schema.Text?) {
      forall s | Mentions(schema, s) ensures Served(refs[k..])(s) == s {
        EmbeddedIsInside(files, refs[k], s);
      }
      MapOfUnmentioned(schema, Served(refs[k..]));
    }
  }

  /** A local reference of an embedded schema, re-anchored, reaches in the served
      document the re-anchored image of what it reached in its own file, exactly
      unless it reached something through a root member that embedding drops. */
  lemma LocalRefKeepsMeaning(files: Files, doc: Value, refs: seq<string>, k: nat, schema: Value, ref: string)
    requires Bundled(files, doc, refs, k) && PlainName(NameOf(refs[k]))
    requires files(FileOf(refs[k])) == Some(schema) && Local(ref)
    ensures KeepsLocal(files, doc, refs, k, schema, ref)
       <==> !(ThroughDroppedRoot(schema, ref) && ResolveRef(schema, ref).Some?)
  {
    hide Bundle, NameOf, FileOf, External, Base, Resolve, Tokens, PlainName, Local, Reanchored;
    LocalRefReaches(files, doc, refs, k, schema, ref);
  }

  ghost predicate KeepsLocal(files: Files, doc: Value, refs: seq<string>, k: nat, schema: Value, ref: string)
    requires Bundled(files, doc, refs, k) && Local(ref)
  {
    LocalTokens(ref);
    var base := Base(NameOf(refs[k]));
    ResolveRef(Bundle(files, doc, refs).value, Reanchored(base, ref))
    == ImageAt(Tokens(ref[1..]), ResolveRef(schema, ref), Anchor(base))
  }

  // ---------------------------------------------------------------------
  // Only a plain name keeps its references, over all documents.

  /** In this bundle of all a document's references, the one written for `ref`
      reaches its schema. */
  ghost predicate ReachedIn(ref: string, files: Files, doc: Value, refs: seq<string>, k: nat) {
    (Collected(doc, refs) && Bundled(files, doc, refs, k) && refs[k] == ref && !RewrittenAsRef(files, refs, k)) ==>
      ResolveRef(Bundle(files, doc, refs).value, Base(NameOf(refs[k]))) == SchemaFor(files, refs[k])
  }

  /** In this bundle of all a document's references, a local reference that the
      schema holds keeps its meaning unless it goes through a dropped root member. */
  ghost predicate LocalKeptIn(ref: string, local: string, files: Files, doc: Value, refs: seq<string>, k: nat, schema: Value)
    requires Local(local)
  {
    LocalTokens(local);
    (&& Collected(doc, refs) && Bundled(files, doc, refs, k) && refs[k] == ref
     && files(FileOf(refs[k])) == Some(schema) && Mentions(Stripped(schema), local)
     && !(ThroughDroppedRoot(schema, local) && ResolveRef(schema, local).Some?)) ==>
      KeepsLocal(files, doc, refs, k, schema, local)
  }

  /** A value that holds one reference and nothing else, under `key`. */
  function Holder(key: string, ref: string): Value {
    Object(map[key := Object(map[REF := Text(ref)])])
  }

  lemma HolderMentions(key: string, ref: string, s: string)
    ensures Mentions(Holder(key, ref), s) <==> s == ref
  {
    var inner := Object(map[REF := Text(ref)]);
    var holder := Holder(key, ref);
    assert Mentions(inner, s) <==> MentionsAt(REF, inner.members[REF], s);
    assert holder.members[key] == inner && key in holder.members;
    if Mentions(holder, s) {
      var k :| k in holder.members && MentionsAt(k, holder.members[k], s);
      assert k == key;
    }
    assert MentionsAt(key, inner, s) ==> Mentions(holder, s);
  }

  lemma HolderIsCollected(ref: string)
    requires External(ref)
    ensures Collected(Holder("x", ref), [ref])
  {
    hide External, Holder, Mentions;
    forall s ensures Mentions(Holder("x", ref), s) <==> s == ref {
      HolderMentions("x", ref, s);
    }
  }

  /** A document with no `components` takes a schema anywhere. */
  lemma HolderTakes(ref: string, path: seq<string>, x: Value)
    requires path != [] && path[0] == "components"
    ensures SetPath(Holder("x", ref), path, x).Some?
    ensures Resolve(Holder("x", ref), path) == None
  {
    assert |"components"| != |"x"|;
    NullTakesAnything(path[1..], x);
  }

  function EveryFileIs(schema: Value): Files {
    file => Some(schema)
  }

  const EMPTY: Value := Object(map[])

  lemma EmptyIsEmbedded(ref: string)
    requires External(ref)
    ensures SchemaFor(EveryFileIs(EMPTY), ref) == Some(EMPTY)
  {
    hide NameOf, External;
    assert forall s :: !Mentions(EMPTY, s);
    assert Stripped(EMPTY) == EMPTY && MapRefs(EMPTY, Anchor(Base(NameOf(ref)))) == EMPTY;
  }

  /** A bundle of one reference exists where its schema embeds and the path is clear. */
  lemma OneRefIsBundled(files: Files, ref: string, doc: Value)
    requires External(ref) && SchemaFor(files, ref).Some?
    requires SetPath(doc, BasePath(NameOf(ref)), SchemaFor(files, ref).value).Some?
    ensures Bundled(files, doc, [ref], 0)
  {
    hide NameOf, External, SetPath, BasePath, SchemaFor;
    assert [ref][..0] == [];
    assert Bundle(files, doc, []) == Some(doc);
    assert Bundle(files, doc, [ref]) == Step(files, doc, ref);
  }

  lemma BasePathIsApart(name: string, more: seq<string>)
    requires !PlainName(name)
    ensures Tokens(['/'] + name) != []
    ensures Apart(["components", "schemas"] + Tokens(['/'] + name) + more, BasePath(name))
  {
    hide Tokens, PlainName;
    FirstTokenDiffers(name);
    var path := ["components", "schemas"] + Tokens(['/'] + name) + more;
    assert path[2] == Tokens(['/'] + name)[0] && path[2] != BasePath(name)[2];
  }

  /** In a document that holds only that reference, the one written for a name that
      is not plain reaches nothing. */
  lemma NameIsLost(ref: string)
    requires External(ref) && !PlainName(NameOf(ref))
    ensures Collected(Holder("x", ref), [ref]) && Bundled(EveryFileIs(EMPTY), Holder("x", ref), [ref], 0)
    ensures SchemaFor(EveryFileIs(EMPTY), ref).Some?
    ensures ResolveRef(Bundle(EveryFileIs(EMPTY), Holder("x", ref), [ref]).value, Base(NameOf(ref))) == None
  {
    hide NameOf, External, PlainName, Tokens, Bundle, Base, SchemaFor, Holder, Collected, Resolve, SetPath;
    var name, doc := NameOf(ref), Holder("x", ref);
    HolderIsCollected(ref);
    EmptyIsEmbedded(ref);
    HolderTakes(ref, BasePath(name), EMPTY);
    OneRefIsBundled(EveryFileIs(EMPTY), ref, doc);
    BaseTokens(name);
    BasePathIsApart(name, []);
    var path := ["components", "schemas"] + Tokens(['/'] + name);
    assert path + [] == path;
    HolderTakes(ref, path, EMPTY);
    OwnPathKeepsMeaning(EveryFileIs(EMPTY), doc, [ref], path);
  }

  /** An external reference reaches its schema in every bundle of a document's
      references, exactly when the name it gives is plain: no slash, and no escape of
      a JSON pointer. */
  lemma NameIsReachedIff(ref: string)
    requires External(ref)
    ensures (forall files: Files, doc: Value, refs: seq<string>, k: nat :: ReachedIn(ref, files, doc, refs, k))
       <==> PlainName(NameOf(ref))
  {
    hide NameOf, PlainName, Base, Bundle, SchemaFor, RewrittenAsRef, ResolveRef, External, Collected, Holder;
    if PlainName(NameOf(ref)) {
      forall files: Files, doc: Value, refs: seq<string>, k: nat ensures ReachedIn(ref, files, doc, refs, k) {
        if Bundled(files, doc, refs, k) && refs[k] == ref {
          ExternalRefKeepsMeaning(files, doc, refs, k);
        }
      }
    } else {
      NameIsLost(ref);
      EmptyIsNotRewritten(ref);
      assert !ReachedIn(ref, EveryFileIs(EMPTY), Holder("x", ref), [ref], 0);
    }
  }

  lemma EmptyIsNotRewritten(ref: string)
    requires External(ref)
    ensures !RewrittenAsRef(EveryFileIs(EMPTY), [ref], 0)
  {
  }

  /** So it is for every local reference that the embedded schemas hold. */
  lemma LocalIsKeptIff(ref: string, local: string)
    requires External(ref) && Local(local)
    ensures (forall files: Files, doc: Value, refs: seq<string>, k: nat, schema: Value ::
               LocalKeptIn(ref, local, files, doc, refs, k, schema))
       <==> PlainName(NameOf(ref))
  {
    hide NameOf, FileOf, PlainName, Base, Bundle, ResolveRef, External, Local, KeepsLocal, ThroughDroppedRoot, Collected,
      Mentions, Stripped, Holder;
    if PlainName(NameOf(ref)) {
      forall files: Files, doc: Value, refs: seq<string>, k: nat, schema: Value
        ensures LocalKeptIn(ref, local, files, doc, refs, k, schema) {
        if Bundled(files, doc, refs, k) && refs[k] == ref && files(FileOf(refs[k])) == Some(schema) {
          LocalRefKeepsMeaning(files, doc, refs, k, schema, local);
        }
      }
    } else {
      var schema := Holder("y", local);
      var doc := Stranger(ref, local);
      HolderReaches(local);
      HolderIsEmbedded(ref, local);
      assert !LocalKeptIn(ref, local, EveryFileIs(schema), doc, [ref], 0, schema);
    }
  }

  /** What a value that holds one local reference reaches: never an empty object, and
      never through a dropped root member. */
  lemma HolderReaches(local: string)
    requires Local(local)
    ensures Tokens(local[1..]) != []
    ensures !(ThroughDroppedRoot(Holder("y", local), local) && ResolveRef(Holder("y", local), local).Some?)
    ensures forall base :: ImageAt(Tokens(local[1..]), ResolveRef(Holder("y", local), local), Anchor(base)) != Some(EMPTY)
  {
    hide Tokens, Anchor;
    LocalTokens(local);
    var path := Tokens(local[1..]);
    PathInHolder(local, path);
    assert |"$id"| != |"y"| && |"$schema"| != |"y"|;
    forall base ensures ImageAt(path, Resolve(Holder("y", local), path), Anchor(base)) != Some(EMPTY) {
      ImageInHolder(local, path, Anchor(base));
    }
  }

  lemma PathInHolder(local: string, path: seq<string>)
    requires path != []
    ensures var reached := Resolve(Holder("y", local), path);
            reached.Some? ==>
              path[0] == "y" && (reached.value == Object(map[REF := Text(local)]) || reached.value == Text(local))
  {
    var inner := Object(map[REF := Text(local)]);
    if path[0] == "y" {
      var rest := path[1..];
      assert Resolve(Holder("y", local), path) == Resolve(inner, rest);
      if rest != [] && rest[0] == REF {
        assert Child(inner, REF) == Some(Text(local));
        assert Resolve(inner, rest) == Resolve(Text(local), rest[1..]);
      }
    }
  }

  lemma ImageInHolder(local: string, path: seq<string>, f: string -> string)
    requires path != []
    ensures ImageAt(path, Resolve(Holder("y", local), path), f) != Some(EMPTY)
  {
    hide Resolve, Holder;
    PathInHolder(local, path);
    var inner := Object(map[REF := Text(local)]);
    var key := path[|path| - 1];
    assert REF in inner.members && REF in MapRefs(inner, f).members && REF !in EMPTY.members;
    assert MapAt(key, inner, f) == MapRefs(inner, f) && MapAt(key, Text(local), f).Text?;
  }

  lemma HolderIsEmbedded(ref: string, local: string)
    requires External(ref) && Local(local)
    ensures SchemaFor(EveryFileIs(Holder("y", local)), ref).Some?
    ensures Mentions(Stripped(Holder("y", local)), local)
  {
    hide External, NameOf, Mentions, Local;
    var schema := Holder("y", local);
    assert |"$id"| != |"y"| && |"$schema"| != |"y"|;
    assert Stripped(schema) == schema;
    hide Holder;
    forall s ensures Mentions(schema, s) <==> s == local {
      HolderMentions("y", local, s);
    }
  }

  /** A document that holds the reference, and an empty object where the re-anchored
      local reference leads. */
  lemma Stranger(ref: string, local: string) returns (doc: Value)
    requires External(ref) && Local(local) && !PlainName(NameOf(ref))
    ensures Collected(doc, [ref])
    ensures Bundled(EveryFileIs(Holder("y", local)), doc, [ref], 0)
    ensures !KeepsLocal(EveryFileIs(Holder("y", local)), doc, [ref], 0, Holder("y", local), local)
  {
    hide NameOf, External, PlainName, Tokens, Bundle, Base, Local, Reanchored, SetPath, Resolve, MapRefs, Holder,
      SchemaFor, Collected, Mentions, Apart, BasePath;
    var name, files := NameOf(ref), EveryFileIs(Holder("y", local));
    LocalTokens(local);
    BaseTokens(name);
    AnchoredTokens(name, local);
    BasePathIsApart(name, Tokens(local[1..]));
    var path := ["components", "schemas"] + Tokens(['/'] + name) + Tokens(local[1..]);
    HolderIsEmbedded(ref, local);
    HolderTakes(ref, path, EMPTY);
    BasePathStarts(name);
    HolderTakes(ref, BasePath(name), SchemaFor(files, ref).value);
    SetAside(Holder("x", ref), path, EMPTY, BasePath(name), SchemaFor(files, ref).value);
    doc := SetPath(Holder("x", ref), path, EMPTY).value;
    ResolveWhatWasSet(Holder("x", ref), path, EMPTY);
    StrangerIsCollected(ref, path, doc);
    OneRefIsBundled(files, ref, doc);
    OwnPathKeepsMeaning(files, doc, [ref], path);
    EmptyStays(path, Served([ref]));
    HolderReaches(local);
  }

  lemma BasePathStarts(name: string)
    ensures BasePath(name) != [] && BasePath(name)[0] == "components"
  {
  }

  lemma EmptyStays(path: seq<string>, f: string -> string)
    requires path != []
    ensures ImageAt(path, Some(EMPTY), f) == Some(EMPTY)
  {
    assert MapRefs(EMPTY, f) == EMPTY;
  }

  lemma StrangerIsCollected(ref: string, path: seq<string>, doc: Value)
    requires External(ref) && path != [] && path[0] == "components"
    requires SetPath(Holder("x", ref), path, EMPTY) == Some(doc)
    ensures Collected(doc, [ref])
  {
    hide External, SetPath, Mentions, Holder;
    var own := ["x", REF];
    assert Apart(own, path) by {
      assert |"x"| != |"components"| && own[0] != path[0];
    }
    ResolveElsewhere(Holder("x", ref), path, EMPTY, own);
    RefInHolder(ref);
    ReachedRefIsMentioned(doc, own, ref);
    forall s | Mentions(doc, s) ensures s == ref {
      MentionsOfSet(Holder("x", ref), path, EMPTY, s);
      NothingInEmpty(path[|path| - 1], s);
      HolderMentions("x", ref, s);
    }
  }

  lemma NothingInEmpty(key: string, s: string)
    ensures !MentionsAt(key, EMPTY, s)
  {
  }

  lemma RefInHolder(ref: string)
    ensures Resolve(Holder("x", ref), ["x", REF]) == Some(Text(ref))
  {
    var path := ["x", REF];
    assert path[1..] == [REF] && [REF][1..] == [];
    assert Resolve(Object(map[REF := Text(ref)]), [REF]) == Some(Text(ref));
  }

  // ---------------------------------------------------------------------
  // References that lose their meaning, at an input.

  const A_FILE: string := SCHEMA_DIR + "a.json"

  const SELF_NAMED: Value :=
    Object(map["$id" := Text("urn:a"), "x" := Object(map[REF := Text("#/$id")])])

  lemma NameOfAFile()
    ensures External(A_FILE) && NameOf(A_FILE) == "a" && PlainName("a")
  {
    assert FileOf(A_FILE) == "a.json";
    assert "a.json"[1..] == ".json" && "a.json"[..1] == "a";
    assert TrimEnd("a.json", ".json") == TrimEnd("a", ".json") == "a";
    assert TrimEnd("a", ".schema") == "a";
  }

  /** A schema that refers to its own `$id`, and a document that refers to the
      schema: the reference reaches the `$id` in the file, and nothing in the served
      document. */
  lemma OwnIdIsLost()
    ensures External(A_FILE) && Collected(Holder("x", A_FILE), [A_FILE])
    ensures Bundle(EveryFileIs(SELF_NAMED), Holder("x", A_FILE), [A_FILE]).Some?
    ensures Mentions(Stripped(SELF_NAMED), "#/$id")
    ensures ResolveRef(SELF_NAMED, "#/$id") == Some(Text("urn:a"))
    ensures ResolveRef(Bundle(EveryFileIs(SELF_NAMED), Holder("x", A_FILE), [A_FILE]).value,
                       Reanchored(Base(NameOf(A_FILE)), "#/$id")) == None
  {
    hide Bundle, Tokens, NameOf, External, Base, FileOf, Reanchored, PlainName, Resolve, Holder, Collected, Mentions;
    NameOfAFile();
    HolderIsCollected(A_FILE);
    SelfNamedIsBundled();
    IdTokens();
    IdIsReached();
    SelfNamedIsLocal();
    assert Local("#/$id") && "#/$id"[1..] == "/$id";
    LocalRefReaches(EveryFileIs(SELF_NAMED), Holder("x", A_FILE), [A_FILE], 0, SELF_NAMED, "#/$id");
  }

  lemma IdTokens()
    ensures Tokens("/$id") == ["$id"]
  {
    hide Tokens;
    assert PlainName("$id");
    OneTokenIff("$id");
    assert "/$id" == ['/'] + "$id";
  }

  lemma IdIsReached()
    ensures ResolveRef(SELF_NAMED, "#/$id") == Some(Text("urn:a"))
  {
    hide Tokens;
    IdTokens();
    assert "#/$id"[1..] == "/$id" && ["$id"][1..] == [];
    assert Child(SELF_NAMED, "$id") == Some(Text("urn:a"));
  }

  lemma SelfNamedIsBundled()
    requires External(A_FILE)
    ensures Bundled(EveryFileIs(SELF_NAMED), Holder("x", A_FILE), [A_FILE], 0)
  {
    hide NameOf, External, SetPath, Holder;
    SelfNamedIsLocal();
    var files := EveryFileIs(SELF_NAMED);
    HolderTakes(A_FILE, BasePath(NameOf(A_FILE)), SchemaFor(files, A_FILE).value);
    OneRefIsBundled(files, A_FILE, Holder("x", A_FILE));
  }

  lemma SelfNamedIsLocal()
    ensures LocalOnly(Stripped(SELF_NAMED)) && Mentions(Stripped(SELF_NAMED), "#/$id")
  {
    hide Mentions;
    assert Stripped(SELF_NAMED) == Holder("x", "#/$id") by {
      assert Stripped(SELF_NAMED).members == map["x" := Object(map[REF := Text("#/$id")])];
    }
    forall s ensures Mentions(Holder("x", "#/$id"), s) <==> s == "#/$id" {
      HolderMentions("x", "#/$id", s);
    }
  }

  const SLASHED: string := SCHEMA_DIR + "a/b.json"

  /** A schema in a subdirectory, and a document that refers to it: the reference
      written for it reaches nothing. */
  lemma SlashedNameIsLost()
    ensures External(SLASHED) && Collected(Holder("x", SLASHED), [SLASHED])
    ensures Bundle(EveryFileIs(EMPTY), Holder("x", SLASHED), [SLASHED]).Some?
    ensures SchemaFor(EveryFileIs(EMPTY), SLASHED).Some?
    ensures ResolveRef(Bundle(EveryFileIs(EMPTY), Holder("x", SLASHED), [SLASHED]).value, Base(NameOf(SLASHED))) == None
  {
    hide Bundle, NameOf, SchemaFor, PlainName, Base, ResolveRef, Holder, Collected;
    NameOfSlashed();
    NameIsLost(SLASHED);
  }

  lemma NameOfSlashed()
    ensures External(SLASHED) && NameOf(SLASHED) == "a/b" && !PlainName(NameOf(SLASHED))
  {
    assert FileOf(SLASHED) == "a/b.json";
    assert "a/b.json"[3..] == ".json" && "a/b.json"[..3] == "a/b";
    assert TrimEnd("a/b.json", ".json") == TrimEnd("a/b", ".json") == "a/b";
    assert TrimEnd("a/b", ".schema") == "a/b";
    assert "a/b"[1] == '/';
  }

  const REF_FILE: string := SCHEMA_DIR + "$ref.json"

  /** When a schema file called `$ref.json` is a text in the schema directory, a
      document that refers to it is left with that text as an external reference. */
  lemma TextCalledRefRemains()
    ensures External(A_FILE) && External(REF_FILE) && Collected(Holder("x", REF_FILE), [REF_FILE])
    ensures Bundle(EveryFileIs(Text(A_FILE)), Holder("x", REF_FILE), [REF_FILE]).Some?
    ensures Mentions(Bundle(EveryFileIs(Text(A_FILE)), Holder("x", REF_FILE), [REF_FILE]).value, A_FILE)
  {
    hide Bundle, NameOf, FileOf, Mentions, External, Holder, Collected, SetPath, SchemaFor;
    var files, doc := EveryFileIs(Text(A_FILE)), Holder("x", REF_FILE);
    NameOfRefFile();
    HolderIsCollected(REF_FILE);
    TextIsEmbedded(files, REF_FILE, A_FILE);
    HolderTakes(REF_FILE, BasePath(NameOf(REF_FILE)), Text(A_FILE));
    OneRefIsBundled(files, REF_FILE, doc);
    assert [REF_FILE][0..] == [REF_FILE];
    assert SpeaksAsRef(files, [REF_FILE], 0, A_FILE);
    SpokenIsMentioned(files, doc, [REF_FILE], 0, A_FILE);
  }

  lemma NameOfRefFile()
    ensures External(REF_FILE) && NameOf(REF_FILE) == REF && External(A_FILE) && A_FILE != REF_FILE
  {
    assert FileOf(REF_FILE) == "$ref.json";
    assert "$ref.json"[4..] == ".json" && "$ref.json"[..4] == "$ref";
    assert TrimEnd("$ref.json", ".json") == TrimEnd("$ref", ".json") == "$ref";
    assert TrimEnd("$ref", ".schema") == "$ref";
    assert |A_FILE| != |REF_FILE|;
  }

  // ---------------------------------------------------------------------
  // The whole document.

  /** Where schema names differ and are plain and no schema file is itself a text
      called `$ref`, the served document keeps every meaning: nothing refers
      outside; each external reference reaches its schema; each local one of an
      embedded schema, unless through a dropped root member, reaches the image of its
      target; and each path of the document itself, apart from the schemas, reaches
      what it reached, with external references rewritten. */
  lemma ServedDocumentKeepsMeaning(files: Files, doc: Value, refs: seq<string>)
    requires AllExternal(refs) && Collected(doc, refs) && NamesDiffer(refs) && Bundle(files, doc, refs).Some?
    requires forall k :: 0 <= k < |refs| ==> PlainName(NameOf(refs[k]))
    requires forall k :: 0 <= k < |refs| && NameOf(refs[k]) == REF ==> !SchemaIsText(files, refs[k])
    ensures forall s :: Mentions(Bundle(files, doc, refs).value, s) ==> !External(s)
    ensures forall k :: 0 <= k < |refs| ==>
              ResolveRef(Bundle(files, doc, refs).value, Base(NameOf(refs[k]))) == SchemaFor(files, refs[k])
    ensures forall k: nat, schema, ref ::
              (k < |refs| && files(FileOf(refs[k])) == Some(schema) && Local(ref) && !ThroughDroppedRoot(schema, ref)) ==>
                Bundled(files, doc, refs, k) && KeepsLocal(files, doc, refs, k, schema, ref)
    ensures forall path :: path != [] && (forall k :: 0 <= k < |refs| ==> Apart(path, BasePath(NameOf(refs[k])))) ==>
              Resolve(Bundle(files, doc, refs).value, path) == ImageAt(path, Resolve(doc, path), Served(refs))
  {
    hide Bundle, SchemaFor, NameOf, FileOf, External, Base, Resolve, Tokens, PlainName, Mentions, Apart, MapAt, KeepsLocal,
      Local, ThroughDroppedRoot, ResolveRef, Served;
    NoExternalReferenceRemainsIff(files, doc, refs);
    forall k: nat | k < |refs|
      ensures ResolveRef(Bundle(files, doc, refs).value, Base(NameOf(refs[k]))) == SchemaFor(files, refs[k]) {
      ExternalRefKeepsMeaning(files, doc, refs, k);
    }
    forall k: nat, schema, ref | k < |refs| && files(FileOf(refs[k])) == Some(schema) && Local(ref)
                                 && !ThroughDroppedRoot(schema, ref)
      ensures Bundled(files, doc, refs, k) && KeepsLocal(files, doc, refs, k, schema, ref) {
      LocalRefKeepsMeaning(files, doc, refs, k, schema, ref);
    }
    forall path | path != [] && (forall k :: 0 <= k < |refs| ==> Apart(path, BasePath(NameOf(refs[k]))))
      ensures Resolve(Bundle(files, doc, refs).value, path) == ImageAt(path, Resolve(doc, path), Served(refs)) {
      OwnPathKeepsMeaning(files, doc, refs, path);
    }
  }

  predicate SchemaIsText(files: Files, ref: string)
    requires External(ref)
  {
    files(FileOf(ref)).Some? && files(FileOf(ref)).value.Text?
  }
}
