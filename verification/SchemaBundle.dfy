/** The bundling of the wire schemas into the served OpenAPI document,
    `rust/server/build.rs`: every reference keeps its meaning. */
module SchemaBundle {
  import opened Foundation
  import opened Json
  import opened JsonTree

  const SCHEMA_DIR: string := "../bindings/wire/schema/"

  /** The schema files that exist at build time. */
  type Files = string -> Option<Value>

  predicate External(ref: string) {
    SCHEMA_DIR <= ref
  }

  predicate Local(ref: string) {
    "#/" <= ref
  }

  /** `text` without any number of `suffix` at its end. */
  function TrimEnd(text: string, suffix: string): string
    requires suffix != []
  {
    if |text| >= |suffix| && text[|text| - |suffix|..] == suffix
    then TrimEnd(text[..|text| - |suffix|], suffix)
    else text
  }

  function FileOf(ref: string): string
    requires External(ref)
  {
    ref[|SCHEMA_DIR|..]
  }

  function NameOf(ref: string): string
    requires External(ref)
  {
    TrimEnd(TrimEnd(FileOf(ref), ".json"), ".schema")
  }

  /** `unit` written `n` times. */
  function Times(unit: string, n: nat): string {
    if n == 0 then [] else Times(unit, n - 1) + unit
  }

  predicate EndsIn(text: string, suffix: string) {
    |text| >= |suffix| && text[|text| - |suffix|..] == suffix
  }

  lemma TimesMore(unit: string, n: nat)
    ensures Times(unit, n + 1) == Times(unit, n) + unit && Times(unit, 0) == []
  {
  }

  lemma Trim(text: string, suffix: string)
    requires suffix != []
    ensures !EndsIn(text, suffix) ==> TrimEnd(text, suffix) == text
  {
  }

  lemma {:induction false} TrimmedIs(text: string, suffix: string) returns (n: nat)
    requires suffix != []
    ensures text == TrimEnd(text, suffix) + Times(suffix, n) && !EndsIn(TrimEnd(text, suffix), suffix)
    decreases |text|
  {
    hide TrimEnd, Times, EndsIn;
    Trim(text, suffix);
    if EndsIn(text, suffix) {
      var init := Without(text, suffix);
      n := TrimmedIs(init, suffix);
      TimesMore(suffix, n);
      var name, times := TrimEnd(init, suffix), Times(suffix, n);
      assert (name + times) + suffix == name + (times + suffix);
      n := n + 1;
    } else {
      n := 0;
      TimesMore(suffix, 0);
      assert text + [] == text;
    }
  }

  lemma Without(text: string, suffix: string) returns (init: string)
    requires suffix != [] && EndsIn(text, suffix)
    ensures text == init + suffix && |init| < |text| && TrimEnd(text, suffix) == TrimEnd(init, suffix)
  {
    init := text[..|text| - |suffix|];
    assert text == init + suffix;
  }

  /** A reference is the schema directory, the name, any number of `.schema` and any
      number of `.json`; the name does not end in `.schema`, nor, with those put back,
      in `.json`. */
  lemma NameMeans(ref: string) returns (schemas: nat, jsons: nat)
    requires External(ref)
    ensures ref == "../bindings/wire/schema/" + (NameOf(ref) + Times(".schema", schemas) + Times(".json", jsons))
    ensures !EndsIn(NameOf(ref), ".schema") && !EndsIn(NameOf(ref) + Times(".schema", schemas), ".json")
    ensures FileOf(ref) == NameOf(ref) + Times(".schema", schemas) + Times(".json", jsons)
  {
    hide TrimEnd, Times, EndsIn;
    var file := FileOf(ref);
    assert ref == SCHEMA_DIR + file;
    jsons := TrimmedIs(file, ".json");
    schemas := TrimmedIs(TrimEnd(file, ".json"), ".schema");
  }

  /** Where a schema goes, as a reference and as a path. */
  function Base(name: string): string {
    "#/components/schemas/" + name
  }

  function BasePath(name: string): seq<string> {
    ["components", "schemas", name]
  }

  // ---------------------------------------------------------------------
  // Embedding one schema.

  function Reanchored(base: string, ref: string): string {
    if ref == [] then ref else base + ref[1..]
  }

  function Anchor(base: string): string -> string {
    ref => Reanchored(base, ref)
  }

  ghost predicate LocalOnly(v: Value) {
    forall s :: Mentions(v, s) ==> Local(s)
  }

  function Stripped(schema: Value): Value {
    match schema
    case Object(m) => Object(m - {"$id", "$schema"})
    case _ => schema
  }

  /** `None` where the build refuses a reference that is not local. */
  ghost function Embed(schema: Value, name: string): Option<Value> {
    if LocalOnly(Stripped(schema)) then Some(MapRefs(Stripped(schema), Anchor(Base(name)))) else None
  }

  function Placeholder(file: string): Value {
    Object(map["description" := Text(file + ": not present when this binary was built")])
  }

  ghost function SchemaFor(files: Files, ref: string): Option<Value>
    requires External(ref)
  {
    match files(FileOf(ref))
    case None => Some(Placeholder(FileOf(ref)))
    case Some(schema) => Embed(schema, NameOf(ref))
  }

  lemma BaseIsNotExternal(name: string, rest: string)
    ensures !External(Base(name) + rest) && !External(Base(name)) && Local(Base(name))
  {
    assert (Base(name) + rest)[0] == '#' && Base(name)[0] == '#' && SCHEMA_DIR[0] == '.';
  }

  /** What is embedded refers to nothing outside. */
  lemma EmbeddedIsInside(files: Files, ref: string, s: string)
    requires External(ref) && SchemaFor(files, ref).Some? && Mentions(SchemaFor(files, ref).value, s)
    ensures !External(s)
  {
    var schema := files(FileOf(ref));
    if schema.Some? {
      var base := Base(NameOf(ref));
      MentionsOfMap(Stripped(schema.value), Anchor(base), s);
      var t :| Mentions(Stripped(schema.value), t) && Anchor(base)(t) == s;
      assert Local(t);
      BaseIsNotExternal(NameOf(ref), t[1..]);
    } else {
      PlaceholderIsInside(FileOf(ref), s);
    }
  }

  lemma PlaceholderIsInside(file: string, s: string)
    ensures !Mentions(Placeholder(file), s)
  {
    assert |"description"| != |REF|;
    var placeholder := Placeholder(file);
    forall key | key in placeholder.members ensures !MentionsAt(key, placeholder.members[key], s) {
      assert key == "description" && placeholder.members[key].Text?;
    }
  }

  // ---------------------------------------------------------------------
  // The loop.

  function Retarget(from: string, to: string): string -> string {
    ref => if ref == from then to else ref
  }

  ghost function Step(files: Files, doc: Value, ref: string): Option<Value>
    requires External(ref)
  {
    match SchemaFor(files, ref)
    case None => None
    case Some(schema) =>
      match SetPath(doc, BasePath(NameOf(ref)), schema)
      case None => None
      case Some(placed) => Some(MapRefs(placed, Retarget(ref, Base(NameOf(ref)))))
  }

  ghost predicate AllExternal(refs: seq<string>) {
    forall k :: 0 <= k < |refs| ==> External(refs[k])
  }

  ghost function Bundle(files: Files, doc: Value, refs: seq<string>): Option<Value>
    requires AllExternal(refs)
  {
    if refs == [] then Some(doc)
    else match Bundle(files, doc, refs[..|refs| - 1])
    case None => None
    case Some(before) => Step(files, before, refs[|refs| - 1])
  }

  lemma LastStep(files: Files, doc: Value, refs: seq<string>) returns (before: Value, schema: Value, put: Value)
    requires AllExternal(refs) && refs != [] && Bundle(files, doc, refs).Some?
    ensures var last := refs[|refs| - 1];
            && Bundle(files, doc, refs[..|refs| - 1]) == Some(before)
            && SchemaFor(files, last) == Some(schema)
            && SetPath(before, BasePath(NameOf(last)), schema) == Some(put)
            && Bundle(files, doc, refs) == Some(MapRefs(put, Retarget(last, Base(NameOf(last)))))
  {
    hide SchemaFor, SetPath, NameOf;
    before := Bundle(files, doc, refs[..|refs| - 1]).value;
    schema := SchemaFor(files, refs[|refs| - 1]).value;
    put := SetPath(before, BasePath(NameOf(refs[|refs| - 1])), schema).value;
  }

  // ---------------------------------------------------------------------
  // What the loop does to a path.

  /** How the served document writes a reference of the original. */
  function Served(refs: seq<string>): string -> string {
    ref => if External(ref) && ref in refs then Base(NameOf(ref)) else ref
  }

  /** What a path reaches away from the embedded schemas is what it reached, with
      the external references rewritten. */
  lemma {:induction false} OwnPathKeepsMeaning(files: Files, doc: Value, refs: seq<string>, path: seq<string>)
    requires AllExternal(refs) && Bundle(files, doc, refs).Some? && path != []
    requires forall k :: 0 <= k < |refs| ==> Apart(path, BasePath(NameOf(refs[k])))
    ensures Resolve(Bundle(files, doc, refs).value, path) == ImageAt(path, Resolve(doc, path), Served(refs))
  {
    hide SchemaFor, SetPath, NameOf, External, Base, Resolve, MapRefs, MapAt, Apart, BasePath;
    if refs == [] {
      Unserved(path, Resolve(doc, path));
    } else {
      var init, last := refs[..|refs| - 1], refs[|refs| - 1];
      var before, schema, put := LastStep(files, doc, refs);
      assert forall k :: 0 <= k < |init| ==> init[k] == refs[k];
      OwnPathKeepsMeaning(files, doc, init, path);
      ResolveElsewhere(before, BasePath(NameOf(last)), schema, path);
      ResolveOfMap(put, Retarget(last, Base(NameOf(last))), path);
      if Resolve(doc, path).Some? {
        ServedTwice(init, last, path[|path| - 1], Resolve(doc, path).value);
        assert refs == init + [last];
      }
    }
  }

  lemma Unserved(path: seq<string>, v: Option<Value>)
    requires path != []
    ensures ImageAt(path, v, Served([])) == v
  {
    if v.Some? {
      MapOfUnmentioned(v.value, Served([]));
    }
  }

  lemma ServedTwice(init: seq<string>, last: string, key: string, v: Value)
    requires AllExternal(init) && External(last)
    ensures MapAt(key, MapAt(key, v, Served(init)), Retarget(last, Base(NameOf(last)))) == MapAt(key, v, Served(init + [last]))
  {
    hide NameOf, MapRefs, MapAt, Base, External;
    var f, g, h := Served(init), Retarget(last, Base(NameOf(last))), Served(init + [last]);
    forall s ensures h(s) == g(f(s)) {
      if External(s) {
        BaseIsNotExternal(NameOf(s), []);
      }
    }
    MapTwice(v, f, g, h);
    MapAtTwice(key, v, f, g, h);
  }

  /** What an embedded schema's name reaches at the end: the schema of the last file
      with that name, itself rewritten only where it is a text under `$ref`. */
  lemma {:induction false} NamePathReaches(files: Files, doc: Value, refs: seq<string>, k: nat)
    requires AllExternal(refs) && Bundle(files, doc, refs).Some? && k < |refs|
    requires forall j :: k < j < |refs| ==> NameOf(refs[j]) != NameOf(refs[k])
    ensures SchemaFor(files, refs[k]).Some?
    ensures Resolve(Bundle(files, doc, refs).value, BasePath(NameOf(refs[k])))
         == Some(MapAt(NameOf(refs[k]), SchemaFor(files, refs[k]).value, Served(refs[k..])))
  {
    hide SchemaFor, SetPath, NameOf, External, Base, Resolve, MapRefs, MapAt, Retarget, Served;
    var init, last := refs[..|refs| - 1], refs[|refs| - 1];
    var before, schema, put := LastStep(files, doc, refs);
    var name := NameOf(refs[k]);
    var path := BasePath(name);
    ResolveOfMap(put, Retarget(last, Base(NameOf(last))), path);
    if k == |refs| - 1 {
      ResolveWhatWasSet(before, path, schema);
      Unserved(path, Some(schema));
      ServedTwice([], last, name, schema);
      assert refs[k..] == [] + [last];
    } else {
      assert init[k] == refs[k] && forall j :: 0 <= j < |init| ==> init[j] == refs[j];
      NamePathReaches(files, doc, init, k);
      assert path[2] != BasePath(NameOf(last))[2];
      ResolveElsewhere(before, BasePath(NameOf(last)), schema, path);
      ServedTwice(init[k..], last, name, SchemaFor(files, refs[k]).value);
      assert refs[k..] == init[k..] + [last];
    }
  }

  /** The schema file is a text that goes under `$ref` and is a reference bundled
      with it or later: the one case in which an embedded schema is rewritten. */
  predicate RewrittenAsRef(files: Files, refs: seq<string>, k: nat)
    requires k < |refs| && External(refs[k])
  {
    && NameOf(refs[k]) == REF
    && match files(FileOf(refs[k]))
       case Some(Text(t)) => t in refs[k..]
       case _ => false
  }

  lemma SchemaIsTextIff(files: Files, ref: string)
    requires External(ref) && SchemaFor(files, ref).Some?
    ensures SchemaFor(files, ref).value.Text? <==> files(FileOf(ref)).Some? && files(FileOf(ref)).value.Text?
    ensures SchemaFor(files, ref).value.Text? ==> files(FileOf(ref)) == SchemaFor(files, ref)
  {
    hide LocalOnly;
  }

  /** Each name holds, in the served document, the schema of the last file with
      that name, exactly unless that is a text under `$ref` that is rewritten. */
  lemma EmbeddedStandsIff(files: Files, doc: Value, refs: seq<string>, k: nat)
    requires AllExternal(refs) && Bundle(files, doc, refs).Some? && k < |refs|
    requires forall j :: k < j < |refs| ==> NameOf(refs[j]) != NameOf(refs[k])
    ensures SchemaFor(files, refs[k]).Some?
    ensures Resolve(Bundle(files, doc, refs).value, BasePath(NameOf(refs[k]))) == SchemaFor(files, refs[k])
       <==> !RewrittenAsRef(files, refs, k)
  {
    hide Bundle, SchemaFor, NameOf, FileOf, External, Base, Resolve, Mentions, MapRefs, BasePath;
    NamePathReaches(files, doc, refs, k);
    SchemaIsTextIff(files, refs[k]);
    var schema, rest := SchemaFor(files, refs[k]).value, refs[k..];
    if NameOf(refs[k]) == REF && schema.Text? {
      if schema.text in rest {
        var j :| 0 <= j < |rest| && rest[j] == schema.text;
        assert rest[j] == refs[k + j];
        BaseIsNotExternal(NameOf(schema.text), []);
      }
    } else {
      forall s | Mentions(schema, s) ensures Served(rest)(s) == s {
        EmbeddedIsInside(files, refs[k], s);
      }
      MapOfUnmentioned(schema, Served(rest));
    }
  }

  // ---------------------------------------------------------------------
  // What is left outside.

  /** The references the source collects. */
  ghost predicate Collected(doc: Value, refs: seq<string>) {
    Distinct(refs) && forall s :: s in refs <==> External(s) && Mentions(doc, s)
  }

  /** A schema file that is the text `s`, goes under `$ref` and is not rewritten. */
  predicate SpeaksAsRef(files: Files, refs: seq<string>, k: nat, s: string) {
    && k < |refs| && External(refs[k]) && NameOf(refs[k]) == REF
    && files(FileOf(refs[k])) == Some(Text(s)) && s !in refs[k..]
  }

  /** An external reference left at the end was in the document and not collected,
      or is a schema file itself. */
  lemma {:induction false} OnlyTheRestIsLeft(files: Files, doc: Value, refs: seq<string>, s: string)
    requires AllExternal(refs) && Bundle(files, doc, refs).Some?
    requires External(s) && Mentions(Bundle(files, doc, refs).value, s)
    ensures (Mentions(doc, s) && s !in refs) || exists k :: SpeaksAsRef(files, refs, k, s)
  {
    hide SchemaFor, SetPath, NameOf, FileOf, Mentions, External, Base, SpeaksAsRef;
    if refs != [] {
      var init, last := refs[..|refs| - 1], refs[|refs| - 1];
      assert refs == init + [last];
      var before, schema, put := LastStep(files, doc, refs);
      var to := Base(NameOf(last));
      MentionsOfMap(put, Retarget(last, to), s);
      var t :| Mentions(put, t) && Retarget(last, to)(t) == s;
      BaseIsNotExternal(NameOf(last), []);
      assert t == s != last;
      MentionsOfSet(before, BasePath(NameOf(last)), schema, s);
      if Mentions(before, s) {
        OnlyTheRestIsLeft(files, doc, init, s);
        if k :| SpeaksAsRef(files, init, k, s) {
          StillSpeaks(files, init, last, k, s);
        }
      } else {
        SetSpeaks(files, refs, schema, s);
      }
    }
  }

  lemma StillSpeaks(files: Files, init: seq<string>, last: string, k: nat, s: string)
    requires SpeaksAsRef(files, init, k, s) && s != last
    ensures SpeaksAsRef(files, init + [last], k, s)
  {
    hide NameOf, FileOf, External;
    assert (init + [last])[k..] == init[k..] + [last];
  }

  lemma SetSpeaks(files: Files, refs: seq<string>, schema: Value, s: string)
    requires refs != [] && External(refs[|refs| - 1]) && External(s) && s != refs[|refs| - 1]
    requires SchemaFor(files, refs[|refs| - 1]) == Some(schema)
    requires MentionsAt(NameOf(refs[|refs| - 1]), schema, s)
    ensures SpeaksAsRef(files, refs, |refs| - 1, s)
  {
    hide NameOf, FileOf, External, SchemaFor;
    var k := |refs| - 1;
    SchemaIsTextIff(files, refs[k]);
    assert refs[k..] == [refs[k]];
    if Mentions(schema, s) {
      EmbeddedIsInside(files, refs[k], s);
    }
  }

  ghost predicate NamesDiffer(refs: seq<string>)
    requires AllExternal(refs)
  {
    forall i, j :: 0 <= i < j < |refs| ==> NameOf(refs[i]) != NameOf(refs[j])
  }

  /** No external reference is left in the served document, exactly unless a schema
      file called `$ref` is itself such a text. */
  lemma NoExternalReferenceRemainsIff(files: Files, doc: Value, refs: seq<string>)
    requires AllExternal(refs) && NamesDiffer(refs) && Collected(doc, refs) && Bundle(files, doc, refs).Some?
    ensures (forall s :: Mentions(Bundle(files, doc, refs).value, s) ==> !External(s))
       <==> !exists k, s :: External(s) && SpeaksAsRef(files, refs, k, s)
  {
    hide Bundle, Mentions, External, NameOf, FileOf, SpeaksAsRef;
    var out := Bundle(files, doc, refs).value;
    forall s | Mentions(out, s) && External(s) ensures exists k :: SpeaksAsRef(files, refs, k, s) {
      OnlyTheRestIsLeft(files, doc, refs, s);
    }
    forall k, s | External(s) && SpeaksAsRef(files, refs, k, s) ensures Mentions(out, s) {
      SpokenIsMentioned(files, doc, refs, k, s);
    }
  }

  lemma SpokenIsMentioned(files: Files, doc: Value, refs: seq<string>, k: nat, s: string)
    requires AllExternal(refs) && NamesDiffer(refs) && Bundle(files, doc, refs).Some?
    requires SpeaksAsRef(files, refs, k, s)
    ensures Mentions(Bundle(files, doc, refs).value, s)
  {
    hide Bundle, Mentions, External, NameOf, FileOf, Resolve, SchemaFor, Base;
    NamePathReaches(files, doc, refs, k);
    SchemaIsTextIff(files, refs[k]);
    TextIsEmbedded(files, refs[k], s);
    ReachedRefIsMentioned(Bundle(files, doc, refs).value, BasePath(REF), s);
  }

  lemma TextIsEmbedded(files: Files, ref: string, s: string)
    requires External(ref) && files(FileOf(ref)) == Some(Text(s))
    ensures SchemaFor(files, ref) == Some(Text(s))
  {
    hide NameOf, FileOf, External;
    assert LocalOnly(Text(s));
  }
}
