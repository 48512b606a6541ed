/** `rust/server/build.rs` as it runs: the walks over the tree, and the loop. */
module SchemaBuild {
  import opened Foundation
  import opened Json
  import opened JsonTree
  import opened TextOrder
  import opened SchemaBundle

  // ---------------------------------------------------------------------
  // The walks over the tree, member by member.

  ghost predicate LocalAt(key: string, v: Value) {
    forall s :: MentionsAt(key, v, s) ==> Local(s)
  }

  lemma LocalMembers(m: map<string, Value>)
    ensures LocalOnly(Object(m)) <==> forall key :: key in m ==> LocalAt(key, m[key])
  {
    hide Local;
    if LocalOnly(Object(m)) {
      forall key, s | key in m && MentionsAt(key, m[key], s) ensures Local(s) {
        assert Mentions(Object(m), s);
      }
    }
  }

  lemma LocalItems(items: seq<Value>)
    ensures LocalOnly(Array(items)) <==> forall i :: 0 <= i < |items| ==> LocalOnly(items[i])
  {
    hide Local;
    if LocalOnly(Array(items)) {
      forall i, s | 0 <= i < |items| && Mentions(items[i], s) ensures Local(s) {
        assert Mentions(Array(items), s);
      }
    }
  }

  /** `anchor_local_refs`; `None` where it refuses a reference. */
  method AnchorLocalRefs(v: Value, base: string) returns (r: Option<Value>)
    ensures r == if LocalOnly(v) then Some(MapRefs(v, Anchor(base))) else None
    decreases v, 1
  {
    match v
    case Object(m) =>
      var members := AnchorMembers(v, base);
      LocalMembers(m);
      return if members.None? then None else Some(Object(members.value));
    case Array(items) =>
      var all := AnchorItems(v, base);
      LocalItems(items);
      assert all.Some? ==> all.value == MapRefs(v, Anchor(base)).items;
      return if all.None? then None else Some(Array(all.value));
    case _ =>
      return Some(v);
  }

  method AnchorMembers(v: Value, base: string) returns (r: Option<map<string, Value>>)
    requires v.Object?
    ensures r.Some? <==> forall key :: key in v.members ==> LocalAt(key, v.members[key])
    ensures r.Some? ==> r.value == MapRefs(v, Anchor(base)).members
    decreases v, 0
  {
    hide Local;
    var m := v.members;
    var out: map<string, Value> := map[];
    var left := m.Keys;
    while left != {}
      invariant left <= m.Keys && out.Keys == m.Keys - left
      invariant forall key :: key in out ==> LocalAt(key, m[key]) && out[key] == MapAt(key, m[key], Anchor(base))
      decreases |left|
    {
      var key :| key in left;
      var x := m[key];
      if key == REF && x.Text? {
        assert MentionsAt(key, x, x.text);
        if !Local(x.text) {
          return None;
        }
        out := out[key := Text(Reanchored(base, x.text))];
      } else {
        var anchored := AnchorLocalRefs(x, base);
        assert LocalAt(key, x) <==> LocalOnly(x) by {
          assert forall s :: MentionsAt(key, x, s) <==> Mentions(x, s);
        }
        if anchored.None? {
          return None;
        }
        out := out[key := anchored.value];
      }
      left := left - {key};
    }
    return Some(out);
  }

  method AnchorItems(v: Value, base: string) returns (r: Option<seq<Value>>)
    requires v.Array?
    ensures r.Some? <==> forall i :: 0 <= i < |v.items| ==> LocalOnly(v.items[i])
    ensures r.Some? ==> |r.value| == |v.items|
    ensures r.Some? ==> forall i :: 0 <= i < |v.items| ==> r.value[i] == MapRefs(v.items[i], Anchor(base))
    decreases v, 0
  {
    hide LocalOnly, MapRefs;
    var items := v.items;
    var out: seq<Value> := [];
    for i := 0 to |items|
      invariant |out| == i
      invariant forall k :: 0 <= k < i ==> LocalOnly(items[k]) && out[k] == MapRefs(items[k], Anchor(base))
    {
      var anchored := AnchorLocalRefs(items[i], base);
      if anchored.None? {
        return None;
      }
      out := out + [anchored.value];
    }
    return Some(out);
  }

  /** `rewrite_ref`. */
  method RewriteRef(v: Value, from: string, to: string) returns (r: Value)
    ensures r == MapRefs(v, Retarget(from, to))
    decreases v, 1
  {
    match v
    case Object(m) =>
      var members := RewriteMembers(v, from, to);
      return Object(members);
    case Array(items) =>
      var all := RewriteItems(v, from, to);
      assert all == MapRefs(v, Retarget(from, to)).items;
      return Array(all);
    case _ =>
      return v;
  }

  method RewriteMembers(v: Value, from: string, to: string) returns (out: map<string, Value>)
    requires v.Object?
    ensures out == MapRefs(v, Retarget(from, to)).members
    decreases v, 0
  {
    var m, left := v.members, v.members.Keys;
    out := map[];
    while left != {}
      invariant left <= m.Keys && out.Keys == m.Keys - left
      invariant forall key :: key in out ==> out[key] == MapAt(key, m[key], Retarget(from, to))
      decreases |left|
    {
      var key :| key in left;
      var x := Text(to);
      if !(key == REF && m[key] == Text(from)) {
        x := RewriteRef(m[key], from, to);
      }
      out := out[key := x];
      left := left - {key};
    }
  }

  method RewriteItems(v: Value, from: string, to: string) returns (out: seq<Value>)
    requires v.Array?
    ensures |out| == |v.items| && forall i :: 0 <= i < |v.items| ==> out[i] == MapRefs(v.items[i], Retarget(from, to))
    decreases v, 0
  {
    hide MapRefs, Retarget;
    out := [];
    for i := 0 to |v.items|
      invariant |out| == i
      invariant forall k :: 0 <= k < i ==> out[k] == MapRefs(v.items[k], Retarget(from, to))
    {
      var x := RewriteRef(v.items[i], from, to);
      out := out + [x];
    }
  }

  /** `collect_refs`: the external references are pushed, some more than once. */
  method CollectRefs(v: Value, out: seq<string>) returns (r: seq<string>)
    ensures forall s :: s in r <==> s in out || (External(s) && Mentions(v, s))
    decreases v
  {
    hide External;
    r := out;
    match v
    case Object(m) =>
      var left := m.Keys;
      while left != {}
        invariant left <= m.Keys
        invariant forall s :: s in r <==> s in out || (External(s) && MentionedOutside(m, left, s))
        decreases |left|
      {
        var key :| key in left;
        var x := m[key];
        forall s ensures MentionedOutside(m, left - {key}, s) <==> MentionedOutside(m, left, s) || MentionsAt(key, x, s) {
          OneMoreMember(m, left, key, s);
        }
        if key == REF && x.Text? {
          if External(x.text) {
            r := r + [x.text];
          }
        } else {
          r := CollectRefs(x, r);
        }
        left := left - {key};
      }
      forall s ensures MentionedOutside(m, {}, s) <==> Mentions(v, s) {
        NothingOutside(m, s);
      }
    case Array(items) =>
      for i := 0 to |items|
        invariant forall s :: s in r <==> s in out || (External(s) && MentionedBefore(items, i, s))
      {
        r := CollectRefs(items[i], r);
      }
    case _ =>
  }

  ghost predicate MentionedOutside(m: map<string, Value>, left: set<string>, s: string) {
    exists key :: key in m && key !in left && MentionsAt(key, m[key], s)
  }

  ghost predicate MentionedBefore(items: seq<Value>, n: nat, s: string)
    requires n <= |items|
  {
    exists i :: 0 <= i < n && Mentions(items[i], s)
  }

  lemma OneMoreMember(m: map<string, Value>, left: set<string>, key: string, s: string)
    requires key in left && key in m
    ensures MentionedOutside(m, left - {key}, s) <==> MentionedOutside(m, left, s) || MentionsAt(key, m[key], s)
  {
    hide MentionsAt;
    if MentionsAt(key, m[key], s) {
      assert key in m && key !in left - {key};
    }
    if other :| other in m && other !in left && MentionsAt(other, m[other], s) {
      assert other !in left - {key};
    }
  }

  lemma NothingOutside(m: map<string, Value>, s: string)
    ensures MentionedOutside(m, {}, s) <==> Mentions(Object(m), s)
  {
  }

  /** `embed_schema`. */
  method EmbedSchema(schema: Value, name: string) returns (r: Option<Value>)
    ensures r == Embed(schema, name)
  {
    hide LocalOnly, MapRefs, Base;
    r := AnchorLocalRefs(Stripped(schema), Base(name));
  }

  /** The loop over the collected references. */
  method BundleRefs(files: Files, doc: Value, refs: seq<string>) returns (r: Option<Value>)
    requires AllExternal(refs)
    ensures r == Bundle(files, doc, refs)
  {
    hide Embed, SetPath, MapRefs, NameOf, FileOf, External, Base, Bundle, BasePath;
    var out := doc;
    NothingToBundle(files, doc, refs);
    for n := 0 to |refs|
      invariant Bundle(files, doc, refs[..n]) == Some(out)
    {
      var ref := refs[n];
      var name := NameOf(ref);
      var schema: Option<Value>;
      match files(FileOf(ref)) {
        case Some(s) => schema := EmbedSchema(s, name);
        case None => schema := Some(Placeholder(FileOf(ref)));
      }
      assert schema == SchemaFor(files, ref);
      var put := if schema.None? then None else SetPath(out, BasePath(name), schema.value);
      BundleOneMore(files, doc, refs, n);
      if put.None? {
        RefusedOnce(files, doc, refs, n + 1);
        return None;
      }
      out := RewriteRef(put.value, ref, Base(name));
    }
    assert refs[..|refs|] == refs;
    return Some(out);
  }

  lemma NothingToBundle(files: Files, doc: Value, refs: seq<string>)
    requires AllExternal(refs)
    ensures Bundle(files, doc, refs[..0]) == Some(doc)
  {
  }

  lemma BundleOneMore(files: Files, doc: Value, refs: seq<string>, n: nat)
    requires AllExternal(refs) && n < |refs| && Bundle(files, doc, refs[..n]).Some?
    ensures Bundle(files, doc, refs[..n + 1]) == Step(files, Bundle(files, doc, refs[..n]).value, refs[n])
  {
    hide Step;
    assert refs[..n + 1][..n] == refs[..n] && refs[..n + 1][n] == refs[n];
  }

  /** `bundle_openapi` after the document is read: collect the references, sort them
      and drop repeats, and bundle them in that order. The list is the one ascending
      list of the document's external references. */
  method BundleOpenApi(files: Files, doc: Value) returns (r: Option<Value>)
    ensures exists refs :: SortedRefs(doc, refs)
    ensures forall refs :: SortedRefs(doc, refs) ==> r == Bundle(files, doc, refs)
  {
    hide Bundle, External, Mentions, Ascending;
    var collected := CollectRefs(doc, []);
    var sorted := SortedOnce(collected);
    SortedOnceIsAscending(collected);
    AscendingIsDistinct(sorted);
    forall k | 0 <= k < |sorted| ensures External(sorted[k]) {
      assert sorted[k] in sorted;
    }
    assert SortedRefs(doc, sorted);
    r := BundleRefs(files, doc, sorted);
    forall refs | SortedRefs(doc, refs) ensures refs == sorted {
      AscendingIsUnique(refs, sorted);
    }
  }

  /** The external references of a document, ascending, each once. */
  ghost predicate SortedRefs(doc: Value, refs: seq<string>) {
    Ascending(refs) && Collected(doc, refs) && AllExternal(refs)
  }

  lemma {:induction false} RefusedOnce(files: Files, doc: Value, refs: seq<string>, n: nat)
    requires AllExternal(refs) && n <= |refs| && Bundle(files, doc, refs[..n]).None?
    ensures Bundle(files, doc, refs).None?
  {
    hide Step;
    if n == |refs| {
      assert refs[..n] == refs;
    } else {
      assert refs[..|refs| - 1][..n] == refs[..n];
      RefusedOnce(files, doc, refs[..|refs| - 1], n);
    }
  }
}
