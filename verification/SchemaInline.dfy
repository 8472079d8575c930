/** Inlining of "$ref" in tool output schemas. */
module SchemaInline {
  import opened Events
  import opened PlanRef
  import opened PlanParams

  const DEFS_PREFIX: string := "#/$defs/"
  const REF: string := "$ref"
  const DEFS: string := "$defs"

  type Defs = map<string, Json>

  /** What a reference to a definition being expanded becomes. */
  const ANY_OBJECT: Json := JObject(map["type" := JString("object")])

  /** refName: the definition named by a reference, or "". */
  function RefName(ref: string): string { if DEFS_PREFIX <= ref then ref[|DEFS_PREFIX|..] else "" }

  /** Only "#/$defs/" and a name names a definition. */
  lemma RefNameExactly(ref: string, name: string)
    requires name != ""
    ensures RefName(ref) == name <==> ref == "#/$defs/" + name
  {
    if DEFS_PREFIX <= ref { assert ref == DEFS_PREFIX + ref[|DEFS_PREFIX|..]; }
  }

  predicate IsRef(j: Json) { j.JObject? && REF in j.fields && j.fields[REF].JString? }

  function NameOf(j: Json): string
    requires IsRef(j)
  {
    RefName(j.fields[REF].s)
  }

  /** The reference can be followed. */
  predicate IsOpenRef(j: Json, defs: Defs, expanding: set<string>) {
    IsRef(j) && NameOf(j) != "" && NameOf(j) !in expanding && NameOf(j) in defs
  }

  lemma FewerLeft(defs: Defs, expanding: set<string>, name: string)
    requires name in defs && name !in expanding
    ensures |defs.Keys - (expanding + {name})| < |defs.Keys - expanding|
  {
    var a, b := defs.Keys - expanding, defs.Keys - (expanding + {name});
    assert a == b + {name} && name !in b;
  }

  /** walkInline. It ends because either fewer definitions remain unexpanded or the node is smaller. */
  function WalkInline(node: Json, defs: Defs, expanding: set<string>): Json
    decreases |defs.Keys - expanding|, node
  {
    if IsOpenRef(node, defs, expanding) then
      FewerLeft(defs, expanding, NameOf(node));
      WalkInline(defs[NameOf(node)], defs, expanding + {NameOf(node)})
    else if IsRef(node) then
      if NameOf(node) != "" && NameOf(node) in expanding then ANY_OBJECT else node
    else
      match node
      case JObject(fields) => JObject(map k | k in fields :: WalkInline(fields[k], defs, expanding))
      case JArray(items) => JArray(seq(|items|, i requires 0 <= i < |items| => WalkInline(items[i], defs, expanding)))
      case _ => node
  }

  datatype Inlined = Schema(json: Json) | NotASchema | Panics

  /** inlineRefs: only an object is a schema (null counts as an empty one); the result of the walk must be an object
      again. */
  function InlineRefs(schema: Json): Inlined {
    if schema.JNull? then Schema(schema)
    else if !schema.JObject? then NotASchema
    else if DEFS !in schema.fields || !schema.fields[DEFS].JObject? then Schema(schema)
    else
      match WalkInline(schema, schema.fields[DEFS].fields, {})
      case JObject(fields) => Schema(JObject(fields - {DEFS}))
      case _ => Panics
  }

  // ---------- no reference is left ----------

  predicate NoRefs(j: Json) {
    match j
    case JObject(fields) => REF !in fields && forall k :: k in fields ==> NoRefs(fields[k])
    case JArray(items) => forall i :: 0 <= i < |items| ==> NoRefs(items[i])
    case _ => true
  }

  predicate Resolves(j: Json, defs: Defs) { IsRef(j) && NameOf(j) != "" && NameOf(j) in defs }

  /** Wherever the key "$ref" occurs, it is a string naming a definition. */
  predicate GoodRefs(j: Json, defs: Defs) {
    match j
    case JObject(fields) =>
      if REF in fields then Resolves(j, defs) else forall k :: k in fields ==> GoodRefs(fields[k], defs)
    case JArray(items) => forall i :: 0 <= i < |items| ==> GoodRefs(items[i], defs)
    case _ => true
  }

  ghost predicate GoodDefs(defs: Defs) { forall name :: name in defs ==> GoodRefs(defs[name], defs) }

  /** With good definitions, mutually recursive or not, inlining leaves no reference exactly when the node's own are
      good. */
  lemma {:induction false} InlinedExactly(node: Json, defs: Defs, expanding: set<string>)
    requires GoodDefs(defs) && expanding <= defs.Keys
    ensures NoRefs(WalkInline(node, defs, expanding)) <==> GoodRefs(node, defs)
    decreases |defs.Keys - expanding|, node, 1
  {
    if IsOpenRef(node, defs, expanding) {
      FewerLeft(defs, expanding, NameOf(node));
      InlinedExactly(defs[NameOf(node)], defs, expanding + {NameOf(node)});
    } else if !IsRef(node) {
      if node.JObject? { InlinedObject(node, defs, expanding); }
      if node.JArray? { InlinedArray(node, defs, expanding); }
    }
  }

  lemma {:induction false} InlinedObject(node: Json, defs: Defs, expanding: set<string>)
    requires GoodDefs(defs) && expanding <= defs.Keys && node.JObject? && !IsRef(node)
    ensures NoRefs(WalkInline(node, defs, expanding)) <==> GoodRefs(node, defs)
    decreases |defs.Keys - expanding|, node, 0
  {
    var out := WalkInline(node, defs, expanding);
    forall k | k in node.fields ensures NoRefs(out.fields[k]) <==> GoodRefs(node.fields[k], defs) {
      InlinedExactly(node.fields[k], defs, expanding);
    }
    ObjectExact(node.fields, out.fields, defs);
  }

  lemma {:induction false} InlinedArray(node: Json, defs: Defs, expanding: set<string>)
    requires GoodDefs(defs) && expanding <= defs.Keys && node.JArray?
    ensures NoRefs(WalkInline(node, defs, expanding)) <==> GoodRefs(node, defs)
    decreases |defs.Keys - expanding|, node, 0
  {
    var out := WalkInline(node, defs, expanding);
    forall i | 0 <= i < |node.items| ensures NoRefs(out.items[i]) <==> GoodRefs(node.items[i], defs) {
      InlinedExactly(node.items[i], defs, expanding);
    }
    ArrayExact(node.items, out.items, defs);
  }

  lemma ObjectExact(fields: map<string, Json>, out: map<string, Json>, defs: Defs)
    requires !IsRef(JObject(fields)) && out.Keys == fields.Keys
    requires forall k :: k in fields ==> (NoRefs(out[k]) <==> GoodRefs(fields[k], defs))
    ensures NoRefs(JObject(out)) <==> GoodRefs(JObject(fields), defs)
  {
    assert forall k :: k in out <==> k in fields;
  }

  lemma ArrayExact(items: seq<Json>, out: seq<Json>, defs: Defs)
    requires |out| == |items| && forall i :: 0 <= i < |items| ==> (NoRefs(out[i]) <==> GoodRefs(items[i], defs))
    ensures NoRefs(JArray(out)) <==> GoodRefs(JArray(items), defs)
  {
  }

  /** A node without references is left as it is. */
  lemma {:induction false} NothingToInline(node: Json, defs: Defs, expanding: set<string>)
    requires NoRefs(node)
    ensures WalkInline(node, defs, expanding) == node
    decreases node
  {
    match node {
      case JObject(fields) =>
        forall k | k in fields ensures WalkInline(fields[k], defs, expanding) == fields[k] {
          NothingToInline(fields[k], defs, expanding);
        }
        assert WalkInline(node, defs, expanding).fields == fields;
      case JArray(items) =>
        forall i | 0 <= i < |items| ensures WalkInline(items[i], defs, expanding) == items[i] {
          NothingToInline(items[i], defs, expanding);
        }
        assert WalkInline(node, defs, expanding).items == items;
      case _ =>
    }
  }

  /** The references of the root, outside its definitions, are good. */
  ghost predicate GoodRoot(fields: map<string, Json>, defs: Defs) {
    if REF in fields then Resolves(JObject(fields), defs)
    else forall k :: k in fields && k != DEFS ==> GoodRefs(fields[k], defs)
  }

  /** Where a chain of references that can be followed ends. */
  function ChainEnd(node: Json, defs: Defs, expanding: set<string>): Json
    decreases |defs.Keys - expanding|
  {
    if IsOpenRef(node, defs, expanding) then
      FewerLeft(defs, expanding, NameOf(node));
      ChainEnd(defs[NameOf(node)], defs, expanding + {NameOf(node)})
    else node
  }

  lemma {:induction false} EndsAsChain(node: Json, defs: Defs, expanding: set<string>)
    ensures WalkInline(node, defs, expanding).JObject? <==> ChainEnd(node, defs, expanding).JObject?
    decreases |defs.Keys - expanding|
  {
    if IsOpenRef(node, defs, expanding) {
      FewerLeft(defs, expanding, NameOf(node));
      EndsAsChain(defs[NameOf(node)], defs, expanding + {NameOf(node)});
    }
  }

  predicate HasDefs(schema: Json) { schema.JObject? && DEFS in schema.fields && schema.fields[DEFS].JObject? }

  /** Inlining panics if and only if the schema has definitions and the root's chain of references ends in
      something that is not an object. */
  lemma PanicsExactly(schema: Json)
    ensures InlineRefs(schema).Panics?
            <==> HasDefs(schema) && !ChainEnd(schema, schema.fields[DEFS].fields, {}).JObject?
  {
    if HasDefs(schema) { EndsAsChain(schema, schema.fields[DEFS].fields, {}); }
  }

  /** It does at {"$defs": {"x": true}, "$ref": "#/$defs/x"}. */
  lemma PanicsAt()
    ensures InlineRefs(JObject(map[DEFS := JObject(map["x" := JBool(true)]), REF := JString("#/$defs/x")])).Panics?
  {
    var defs: Defs := map["x" := JBool(true)];
    var root := JObject(map[DEFS := JObject(defs), REF := JString("#/$defs/x")]);
    assert NameOf(root) == "x";
    assert ChainEnd(JBool(true), defs, {} + {"x"}) == JBool(true);
    PanicsExactly(root);
  }

  /** With good definitions, inlining that does not panic leaves no reference if and only if the root's own are good. */
  lemma InlineRefsExact(fields: map<string, Json>)
    requires HasDefs(JObject(fields)) && GoodDefs(fields[DEFS].fields) && !InlineRefs(JObject(fields)).Panics?
    ensures NoRefs(InlineRefs(JObject(fields)).json) <==> GoodRoot(fields, fields[DEFS].fields)
  {
    var root, defs := JObject(fields), fields[DEFS].fields;
    var out := WalkInline(root, defs, {}).fields;
    if IsRef(root) {
      InlinedExactly(root, defs, {});
      if GoodRoot(fields, defs) { RemovedField(out, DEFS); } else { assert REF in out - {DEFS}; }
    } else {
      forall k | k in fields ensures k in out && (NoRefs(out[k]) <==> GoodRefs(fields[k], defs)) {
        InlinedExactly(fields[k], defs, {});
      }
      assert out.Keys == fields.Keys;
      assert forall k :: k in out - {DEFS} <==> k in fields && k != DEFS;
    }
  }

  lemma RemovedField(fields: map<string, Json>, key: string)
    requires NoRefs(JObject(fields))
    ensures NoRefs(JObject(fields - {key}))
  {
  }

  /** Any reference that names no definition, has an empty name or is not a string stays behind, whatever the
      definitions hold; one that is a string leaves its whole node as it was. */
  lemma BadRefsStay(node: Json, defs: Defs, expanding: set<string>)
    requires node.JObject? && REF in node.fields && !Resolves(node, defs) && expanding <= defs.Keys
    ensures var out := WalkInline(node, defs, expanding);
            out.JObject? && REF in out.fields && (IsRef(node) ==> out == node)
  {
    if IsRef(node) && NameOf(node) in expanding { assert NameOf(node) in defs; }
  }

  /** A definition that refers to itself becomes {"type": "object"}. */
  lemma SelfReference(name: string)
    requires name != ""
    ensures var ref := JObject(map[REF := JString("#/$defs/" + name)]);
            WalkInline(ref, map[name := ref], {}) == JObject(map["type" := JString("object")])
  {
    var ref := JObject(map[REF := JString("#/$defs/" + name)]);
    var defs: Defs := map[name := ref];
    assert ("#/$defs/" + name)[|DEFS_PREFIX|..] == name;
    assert NameOf(ref) == name;
    FewerLeft(defs, {}, name);
    assert WalkInline(ref, defs, {} + {name}) == ANY_OBJECT;
  }

  /** Unless the root is itself a reference, it loses its definitions and no other field. */
  lemma RootFieldsKept(fields: map<string, Json>)
    requires HasDefs(JObject(fields)) && !IsRef(JObject(fields))
    ensures InlineRefs(JObject(fields)).Schema? && InlineRefs(JObject(fields)).json.JObject?
    ensures InlineRefs(JObject(fields)).json.fields.Keys == fields.Keys - {DEFS}
  {
    var out := WalkInline(JObject(fields), fields[DEFS].fields, {}).fields;
    assert out.Keys == fields.Keys;
  }

  // ---------- the meaning of the result ----------

  /** Follows a path from a node, resolving references as they are met. */
  function Follow(node: Json, p: Path, defs: Defs, expanding: set<string>): Option<(Json, set<string>)>
    decreases |p|, |defs.Keys - expanding|
  {
    if IsOpenRef(node, defs, expanding) then
      FewerLeft(defs, expanding, NameOf(node));
      Follow(defs[NameOf(node)], p, defs, expanding + {NameOf(node)})
    else if p == [] then Some((node, expanding))
    else
      var here := if IsRef(node) then ANY_OBJECT else node;
      if HasChild(here, p[0]) then Follow(Child(here, p[0]), p[1..], defs, expanding) else None
  }

  lemma InlineChild(node: Json, t: Token, defs: Defs, expanding: set<string>)
    requires !IsRef(node)
    ensures HasChild(WalkInline(node, defs, expanding), t) <==> HasChild(node, t)
    ensures HasChild(node, t) ==>
      Child(WalkInline(node, defs, expanding), t) == WalkInline(Child(node, t), defs, expanding)
  {
  }

  lemma GoodChild(node: Json, t: Token, defs: Defs)
    requires GoodRefs(node, defs) && HasChild(node, t) && !IsRef(node)
    ensures GoodRefs(Child(node, t), defs)
  {
  }

  lemma ClosedNode(node: Json, defs: Defs, expanding: set<string>)
    requires GoodRefs(node, defs) && !IsOpenRef(node, defs, expanding)
    ensures var here := if IsRef(node) then ANY_OBJECT else node;
            !IsRef(here) && GoodRefs(here, defs)
              && WalkInline(here, defs, expanding) == WalkInline(node, defs, expanding)
  {
    NothingToInline(ANY_OBJECT, defs, expanding);
  }

  /** The inlined schema has at each place what following the references from there finds. */
  lemma {:induction false} InlinedIsFollowed(node: Json, p: Path, defs: Defs, expanding: set<string>)
    requires GoodDefs(defs) && GoodRefs(node, defs)
    ensures Get(WalkInline(node, defs, expanding), p) ==
      match Follow(node, p, defs, expanding)
      case None => None
      case Some(found) => Some(WalkInline(found.0, defs, found.1))
    decreases |p|, |defs.Keys - expanding|
  {
    if IsOpenRef(node, defs, expanding) {
      FewerLeft(defs, expanding, NameOf(node));
      InlinedIsFollowed(defs[NameOf(node)], p, defs, expanding + {NameOf(node)});
    } else if p != [] {
      var here := if IsRef(node) then ANY_OBJECT else node;
      ClosedNode(node, defs, expanding);
      InlineChild(here, p[0], defs, expanding);
      if HasChild(here, p[0]) {
        GoodChild(here, p[0], defs);
        InlinedIsFollowed(Child(here, p[0]), p[1..], defs, expanding);
      }
    }
  }
}
