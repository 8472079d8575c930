/** Acceptance of a plan before it runs. */
module Plan {
  import opened Events
  import opened Text
  import opened PlanRef
  import opened PlanParams

  const MAX_STEPS := 10

  datatype Params = NoParams | Malformed | Given(json: Json)

  datatype PlanStep = PlanStep(id: string, tool: string, params: Params)

  datatype Tool = Tool(input: Option<Json>, output: Option<Json>)

  type Registry = map<string, Tool>

  datatype PlanError =
    | NoSteps
    | TooManySteps(n: nat)
    | IdRequired(i: nat)
    | ToolRequired(i: nat)
    | UnknownTool(id: string, tool: string)
    | DuplicateId(id: string)
    | BadParams(id: string)
    | UnknownStep(id: string, target: string)
    | ForwardReference(id: string, target: string)
    | PathNotInOutput(id: string, ref: Ref)
    | UnknownParameter(id: string)

  /** Absent parameters stand for the empty object. */
  function ParamsJson(s: PlanStep): Option<Json> {
    match s.params case NoParams => Some(JObject(map[])) case Malformed => None case Given(j) => Some(j)
  }

  // ---------- what schemas admit ----------

  function TextField(fields: map<string, Json>, k: string): string {
    if k in fields && fields[k].JString? then fields[k].s else ""
  }

  predicate HasCombiner(fields: map<string, Json>) { "oneOf" in fields || "anyOf" in fields || "allOf" in fields }

  /** validateSchemaPath. */
  predicate PathAdmitted(schema: Json, path: seq<PathSegment>)
    requires schema.JObject?
    decreases |path|
  {
    var fields, kind := schema.fields, TextField(schema.fields, "type");
    if HasCombiner(fields) then false
    else if path == [] then true
    else
      match path[0]
      case Field(f) =>
        (kind == "" || kind == "object")
        && if "properties" !in fields || !fields["properties"].JObject? then true
           else
             var props := fields["properties"].fields;
             f in props && props[f].JObject? && PathAdmitted(props[f], path[1..])
      case Index(_) =>
        (kind == "" || kind == "array")
        && if "items" !in fields || !fields["items"].JObject? then true
           else PathAdmitted(fields["items"], path[1..])
  }

  /** ValidateRefPath; a null schema decodes to one with no fields. */
  predicate RefAdmitted(output: Option<Json>, path: seq<PathSegment>) {
    output.None? || path == [] || output.value.JNull? || (output.value.JObject? && PathAdmitted(output.value, path))
  }

  /** The schema lists every parameter it allows. */
  predicate IsClosed(schema: Json) {
    schema.JObject? && "additionalProperties" in schema.fields && schema.fields["additionalProperties"] == JBool(false)
  }

  function KnownKeys(schema: Json): set<string> {
    if schema.JObject? && "properties" in schema.fields && schema.fields["properties"].JObject?
    then schema.fields["properties"].fields.Keys else {}
  }

  function TopKeys(j: Json): set<string> { if j.JObject? then j.fields.Keys else {} }

  ghost predicate HasRefUnder(j: Json, k: string) { exists p :: StartsWith(p, Key(k)) && RefAt(j, p).Some? }

  predicate StartsWith(p: Path, t: Token) { p != [] && p[0] == t }

  /** Under a closed schema every top-level parameter that holds no reference is a known one. */
  ghost predicate InputAdmitted(j: Json, input: Option<Json>) {
    input.Some? && IsClosed(input.value) ==>
      forall k :: k in TopKeys(j) && !HasRefUnder(j, k) ==> k in KnownKeys(input.value)
  }

  // ---------- what schemas admit, by the places of the schema ----------

  /** Where the schema describes the value at a path. */
  function SchemaPlace(path: seq<PathSegment>): Path {
    if path == [] then [] else
      (match path[0] case Field(f) => [Key("properties"), Key(f)] case Index(_) => [Key("items")])
      + SchemaPlace(path[1..])
  }

  predicate HasType(schema: Json, kind: string) {
    match Get(schema, [Key("type")]) case Some(JString(s)) => s == "" || s == kind case _ => true
  }

  predicate IsObjectAt(schema: Json, p: Path) { Get(schema, p).Some? && Get(schema, p).value.JObject? }

  /** A description on the way allows the next segment: no combiner, the right type, and a listed field. */
  predicate Allows(schema: Json, rest: seq<PathSegment>) {
    && Get(schema, [Key("oneOf")]).None? && Get(schema, [Key("anyOf")]).None? && Get(schema, [Key("allOf")]).None?
    && (rest != [] ==>
          match rest[0]
          case Field(f) =>
            && HasType(schema, "object")
            && (IsObjectAt(schema, [Key("properties")]) ==> IsObjectAt(schema, [Key("properties"), Key(f)]))
          case Index(_) => HasType(schema, "array"))
  }

  /** Every object that the schema has on the way down the path allows what comes next. */
  ghost predicate AllowsAlong(schema: Json, path: seq<PathSegment>) {
    forall k {:trigger SchemaPlace(path[..k])} ::
      0 <= k <= |path| && IsObjectAt(schema, SchemaPlace(path[..k])) ==>
        Allows(Get(schema, SchemaPlace(path[..k])).value, path[k..])
  }

  lemma OneKey(schema: Json, k: string)
    ensures Get(schema, [Key(k)]) == if HasChild(schema, Key(k)) then Some(schema.fields[k]) else None
  {
    assert [Key(k)][1..] == [];
  }

  lemma TwoKeys(schema: Json, k: string, f: string)
    ensures Get(schema, [Key(k), Key(f)]) ==
            if HasChild(schema, Key(k)) && HasChild(schema.fields[k], Key(f)) then Some(schema.fields[k].fields[f])
            else None
  {
    assert [Key(k), Key(f)][1..] == [Key(f)];
    if HasChild(schema, Key(k)) { OneKey(schema.fields[k], f); }
  }

  lemma {:induction false} GetConcat(j: Json, a: Path, b: Path)
    ensures Get(j, a + b) == match Get(j, a) case None => None case Some(x) => Get(x, b)
    decreases |a|
  {
    if a == [] {
      assert a + b == b;
    } else {
      assert (a + b)[1..] == a[1..] + b;
      if HasChild(j, a[0]) { GetConcat(Child(j, a[0]), a[1..], b); }
    }
  }

  /** What the schema says of the first segment's value, if it is an object. */
  function Described(schema: Json, g: PathSegment): Option<Json> {
    match Get(schema, SchemaPlace([g])) case Some(JObject(fields)) => Some(JObject(fields)) case _ => None
  }

  lemma PlaceOfOne(g: PathSegment)
    ensures SchemaPlace([g]) == match g case Field(f) => [Key("properties"), Key(f)] case Index(_) => [Key("items")]
  {
    assert [g][1..] == [];
  }

  lemma AdmittedStep(schema: Json, path: seq<PathSegment>)
    requires schema.JObject?
    ensures PathAdmitted(schema, path) <==>
            Allows(schema, path)
            && (path != [] && Described(schema, path[0]).Some? ==>
                  PathAdmitted(Described(schema, path[0]).value, path[1..]))
  {
    OneKey(schema, "oneOf");
    OneKey(schema, "anyOf");
    OneKey(schema, "allOf");
    OneKey(schema, "type");
    OneKey(schema, "properties");
    OneKey(schema, "items");
    if path != [] {
      PlaceOfOne(path[0]);
      if path[0].Field? { TwoKeys(schema, "properties", path[0].name); }
    }
  }

  lemma PlaceStep(schema: Json, path: seq<PathSegment>, k: nat)
    requires 0 < k <= |path|
    ensures var rest := SchemaPlace(path[1..][..k - 1]);
            Get(schema, SchemaPlace(path[..k])) ==
            match Get(schema, SchemaPlace([path[0]])) case None => None case Some(x) => Get(x, rest)
  {
    PlaceOfOne(path[0]);
    assert path[..k][1..] == path[1..][..k - 1];
    assert SchemaPlace(path[..k]) == SchemaPlace([path[0]]) + SchemaPlace(path[1..][..k - 1]);
    GetConcat(schema, SchemaPlace([path[0]]), SchemaPlace(path[1..][..k - 1]));
  }

  lemma OnlyObjectsGoOn(x: Json, path: seq<PathSegment>)
    requires !x.JObject?
    ensures !IsObjectAt(x, SchemaPlace(path))
  {
  }

  /** The condition at one place, for the path of the description below. */
  lemma AllowsBelow(schema: Json, path: seq<PathSegment>, k: nat)
    requires 0 < k <= |path|
    ensures var below := path[1..]; var sub := Described(schema, path[0]);
      && (sub.None? ==> !IsObjectAt(schema, SchemaPlace(path[..k])))
      && (sub.Some? ==> Get(schema, SchemaPlace(path[..k])) == Get(sub.value, SchemaPlace(below[..k - 1])))
      && path[k..] == below[k - 1..]
  {
    PlaceStep(schema, path, k);
    var x := Get(schema, SchemaPlace([path[0]]));
    if x.Some? && !x.value.JObject? { OnlyObjectsGoOn(x.value, path[1..][..k - 1]); }
  }

  lemma AlongStep(schema: Json, path: seq<PathSegment>)
    requires schema.JObject?
    ensures AllowsAlong(schema, path) <==>
            Allows(schema, path)
            && (path != [] && Described(schema, path[0]).Some? ==>
                  AllowsAlong(Described(schema, path[0]).value, path[1..]))
  {
    assert path[..0] == [] && path[0..] == path && Get(schema, []) == Some(schema);
    if AllowsAlong(schema, path) {
      assert IsObjectAt(schema, SchemaPlace(path[..0]));
      if path != [] && Described(schema, path[0]).Some? {
        var sub, below := Described(schema, path[0]).value, path[1..];
        forall k | 0 <= k <= |below| && IsObjectAt(sub, SchemaPlace(below[..k]))
          ensures Allows(Get(sub, SchemaPlace(below[..k])).value, below[k..])
        {
          AllowsBelow(schema, path, k + 1);
          assert IsObjectAt(schema, SchemaPlace(path[..k + 1]));
        }
      }
    } else {
      var k :| 0 <= k <= |path| && IsObjectAt(schema, SchemaPlace(path[..k]))
        && !Allows(Get(schema, SchemaPlace(path[..k])).value, path[k..]);
      if k > 0 { AllowsBelow(schema, path, k); }
    }
  }

  /** A path is admitted exactly when every description on its way allows the next segment; where the schema says
      nothing more, anything goes. */
  lemma {:induction false} AdmittedExactly(schema: Json, path: seq<PathSegment>)
    requires schema.JObject?
    ensures PathAdmitted(schema, path) <==> AllowsAlong(schema, path)
    decreases |path|
  {
    AdmittedStep(schema, path);
    AlongStep(schema, path);
    if path != [] && Described(schema, path[0]).Some? { AdmittedExactly(Described(schema, path[0]).value, path[1..]); }
  }

  /** Without an output schema, with a null one, or for the whole output every path is admitted; a schema that is not an
      object admits no other. */
  lemma RefAdmittedCorners(output: Option<Json>, path: seq<PathSegment>)
    ensures path == [] || output == None || output == Some(JNull) ==> RefAdmitted(output, path)
    ensures path != [] && output.Some? && !output.value.JNull? && !output.value.JObject? ==> !RefAdmitted(output, path)
    ensures path != [] && output.Some? && output.value.JObject? ==>
      (RefAdmitted(output, path) <==> AllowsAlong(output.value, path))
  {
    if output.Some? && output.value.JObject? { AdmittedExactly(output.value, path); }
  }

  /** An input is refused exactly if the schema forbids further properties and some top-level field of the parameters
      that holds no reference is not among its properties. */
  lemma RefusedExactly(j: Json, input: Option<Json>)
    ensures !InputAdmitted(j, input) <==>
            && input.Some? && Get(input.value, [Key("additionalProperties")]) == Some(JBool(false))
            && exists k :: Get(j, [Key(k)]).Some? && !HasRefUnder(j, k)
                           && Get(input.value, [Key("properties"), Key(k)]).None?
  {
    if input.Some? {
      OneKey(input.value, "additionalProperties");
      forall k ensures Get(j, [Key(k)]).Some? <==> k in TopKeys(j) { OneKey(j, k); }
      forall k ensures Get(input.value, [Key("properties"), Key(k)]).Some? <==> k in KnownKeys(input.value) {
        TwoKeys(input.value, "properties", k);
      }
    }
  }

  // ---------- accepted plans ----------

  predicate IdsDistinct(steps: seq<PlanStep>) {
    forall h, i :: 0 <= h < i < |steps| ==> steps[h].id != steps[i].id
  }

  predicate Named(s: PlanStep, reg: Registry) { s.id != "" && s.tool != "" && s.tool in reg }

  predicate AllNamed(steps: seq<PlanStep>, reg: Registry) {
    forall i :: 0 <= i < |steps| ==> Named(steps[i], reg)
  }

  predicate IsTarget(steps: seq<PlanStep>, reg: Registry, h: int, ref: Ref) {
    0 <= h < |steps| && steps[h].id == ref.stepId && steps[h].tool in reg
      && RefAdmitted(reg[steps[h].tool].output, ref.path)
  }

  /** The reference, used in step i, names an earlier step whose output admits its path. */
  predicate RefAccepted(steps: seq<PlanStep>, reg: Registry, i: nat, ref: Ref) {
    exists h :: 0 <= h < i && IsTarget(steps, reg, h, ref)
  }

  ghost predicate RefsAccepted(steps: seq<PlanStep>, reg: Registry, i: nat, j: Json) {
    forall p :: RefAt(j, p).Some? ==> RefAccepted(steps, reg, i, RefAt(j, p).value)
  }

  ghost predicate StepAccepted(steps: seq<PlanStep>, reg: Registry, i: nat)
    requires i < |steps| && steps[i].tool in reg
  {
    match ParamsJson(steps[i])
    case None => false
    case Some(j) => RefsValid(j) && RefsAccepted(steps, reg, i, j) && InputAdmitted(j, reg[steps[i].tool].input)
  }

  ghost predicate Accepted(steps: seq<PlanStep>, reg: Registry) {
    && 1 <= |steps| <= MAX_STEPS && AllNamed(steps, reg) && IdsDistinct(steps)
    && forall i :: 0 <= i < |steps| ==> StepAccepted(steps, reg, i)
  }

  // ---------- the two phases ----------

  ghost predicate StructureOk(steps: seq<PlanStep>, reg: Registry) { AllNamed(steps, reg) && IdsDistinct(steps) }

  function StructureErrors(steps: seq<PlanStep>, reg: Registry, i: nat, seen: set<string>): seq<PlanError>
    requires i < |steps|
  {
    (if steps[i].id == "" then [IdRequired(i)] else [])
    + (if steps[i].tool == "" then [ToolRequired(i)]
       else if steps[i].tool !in reg then [UnknownTool(steps[i].id, steps[i].tool)] else [])
    + (if steps[i].id != "" && steps[i].id in seen then [DuplicateId(steps[i].id)] else [])
  }

  method CheckStructure(steps: seq<PlanStep>, reg: Registry) returns (errs: seq<PlanError>)
    ensures errs == [] <==> StructureOk(steps, reg)
  {
    errs := [];
    var seen: set<string> := {};
    for i := 0 to |steps|
      invariant errs == [] <==> StructureOk(steps[..i], reg)
      invariant forall id :: id in seen <==> id != "" && exists h :: 0 <= h < i && steps[h].id == id
    {
      StructureSnoc(steps, reg, i, seen);
      errs := errs + StructureErrors(steps, reg, i, seen);
      if steps[i].id != "" { seen := seen + {steps[i].id}; }
    }
    assert steps[..|steps|] == steps;
  }

  lemma StructureSnoc(steps: seq<PlanStep>, reg: Registry, i: nat, seen: set<string>)
    requires i < |steps|
    requires forall id :: id in seen <==> id != "" && exists h :: 0 <= h < i && steps[h].id == id
    ensures StructureOk(steps[..i + 1], reg)
            <==> StructureOk(steps[..i], reg) && StructureErrors(steps, reg, i, seen) == []
  {
    var now, next := steps[..i], steps[..i + 1];
    assert forall h :: 0 <= h < i ==> now[h] == steps[h] && next[h] == steps[h];
    assert next[i] == steps[i];
    if StructureOk(now, reg) && StructureErrors(steps, reg, i, seen) == [] {
      forall h, k | 0 <= h < k < |next| ensures next[h].id != next[k].id {
        if k < i { assert now[h].id != now[k].id; }
      }
    }
    if StructureOk(next, reg) {
      forall h | 0 <= h < i ensures Named(now[h], reg) { assert Named(next[h], reg); }
      forall h, k | 0 <= h < k < i ensures now[h].id != now[k].id { assert next[h].id != next[k].id; }
      assert Named(next[i], reg);
    }
  }

  method IndexIds(steps: seq<PlanStep>) returns (at: map<string, nat>)
    requires IdsDistinct(steps)
    ensures IndexesIds(steps, at)
  {
    at := map[];
    for i := 0 to |steps|
      invariant forall h :: 0 <= h < i ==> steps[h].id in at && at[steps[h].id] == h
      invariant forall id :: id in at ==> at[id] < i && steps[at[id]].id == id
    {
      at := at[steps[i].id := i];
    }
  }

  ghost predicate IndexesIds(steps: seq<PlanStep>, at: map<string, nat>) {
    && (forall h :: 0 <= h < |steps| ==> steps[h].id in at && at[steps[h].id] == h)
    && (forall id :: id in at ==> at[id] < |steps| && steps[at[id]].id == id)
  }

  function RefError(steps: seq<PlanStep>, reg: Registry, at: map<string, nat>, i: nat, ref: Ref): Option<PlanError>
    requires i < |steps| && AllNamed(steps, reg) && IndexesIds(steps, at)
  {
    if ref.stepId !in at then Some(UnknownStep(steps[i].id, ref.stepId))
    else if at[ref.stepId] >= i then Some(ForwardReference(steps[i].id, ref.stepId))
    else
      assert Named(steps[at[ref.stepId]], reg);
      if !RefAdmitted(reg[steps[at[ref.stepId]].tool].output, ref.path) then Some(PathNotInOutput(steps[i].id, ref))
      else None
  }

  lemma RefErrorExact(steps: seq<PlanStep>, reg: Registry, at: map<string, nat>, i: nat, ref: Ref)
    requires i < |steps| && AllNamed(steps, reg) && IndexesIds(steps, at)
    ensures RefError(steps, reg, at, i, ref).None? <==> RefAccepted(steps, reg, i, ref)
  {
    if RefError(steps, reg, at, i, ref).None? { assert IsTarget(steps, reg, at[ref.stepId], ref); }
  }

  // ---------- parameters outside the references ----------

  /** The top-level field a pointer goes through: SplitN(pointer[1:], "/", 2)[0], unescaped. */
  function TopField(pointer: string): Option<string> {
    if pointer != [] && pointer[0] == '/' then Some(Unescape(FirstToken(pointer[1..]))) else None
  }

  function FirstToken(s: string): string { Split(s)[0] }

  lemma TopFieldOf(p: Path)
    ensures TopField(PointerOf(p)) == if p == [] then None else Some(Render(p[0]))
  {
    PointerShape(RenderAll(p));
    if p != [] {
      SplitPointer(RenderAll(p));
      EscapeRoundTrip(Render(p[0]));
    }
  }

  ghost predicate FieldsOf(refs: seq<FoundRef>, fields: set<string>) {
    forall f :: f in fields <==> exists i :: 0 <= i < |refs| && TopField(refs[i].pointer) == Some(f)
  }

  method RefFields(refs: seq<FoundRef>) returns (fields: set<string>)
    ensures FieldsOf(refs, fields)
  {
    fields := {};
    for i := 0 to |refs|
      invariant forall f :: f in fields <==> exists h :: 0 <= h < i && TopField(refs[h].pointer) == Some(f)
    {
      match TopField(refs[i].pointer) {
        case None =>
        case Some(f) => fields := fields + {f};
      }
    }
  }

  /** Going by the pointers found, the stripped fields are the ones that hold a reference. */
  lemma StrippedFields(j: Json, refs: seq<FoundRef>, paths: seq<Path>, fields: set<string>, k: string)
    requires Lists(j, [], refs, paths) && FieldsOf(refs, fields) && k in TopKeys(j)
    ensures k in fields <==> HasRefUnder(j, k)
  {
    if k in fields {
      var i :| 0 <= i < |refs| && TopField(refs[i].pointer) == Some(k);
      assert IsListed(j, [], refs[i], paths[i]) && [] + paths[i] == paths[i];
      TopFieldOf(paths[i]);
      assert HasChild(j, paths[i][0]);
      assert StartsWith(paths[i], Key(k));
    }
    if HasRefUnder(j, k) {
      var p :| StartsWith(p, Key(k)) && RefAt(j, p).Some?;
      var i :| 0 <= i < |paths| && paths[i] == p;
      assert IsListed(j, [], refs[i], paths[i]) && [] + p == p;
      TopFieldOf(p);
    }
  }

  /** validateNonRefParams. */
  predicate NonRefParamsKnown(j: Json, refFields: set<string>, input: Option<Json>) {
    input.Some? && IsClosed(input.value) ==> TopKeys(j) - refFields <= KnownKeys(input.value)
  }

  lemma NonRefParamsExact(j: Json, refs: seq<FoundRef>, paths: seq<Path>, fields: set<string>, input: Option<Json>)
    requires Lists(j, [], refs, paths) && FieldsOf(refs, fields)
    ensures NonRefParamsKnown(j, fields, input) <==> InputAdmitted(j, input)
  {
    forall k | k in TopKeys(j) ensures k in fields <==> HasRefUnder(j, k) { StrippedFields(j, refs, paths, fields, k); }
  }

  // ---------- one step of the second phase ----------

  lemma RefsListed(steps: seq<PlanStep>, reg: Registry, i: nat, j: Json, refs: seq<FoundRef>, paths: seq<Path>)
    requires Lists(j, [], refs, paths)
    ensures RefsAccepted(steps, reg, i, j) <==> forall h :: 0 <= h < |refs| ==> RefAccepted(steps, reg, i, refs[h].ref)
  {
    if RefsAccepted(steps, reg, i, j) {
      forall h | 0 <= h < |refs| ensures RefAccepted(steps, reg, i, refs[h].ref) {
        assert IsListed(j, [], refs[h], paths[h]);
      }
    }
    if forall h :: 0 <= h < |refs| ==> RefAccepted(steps, reg, i, refs[h].ref) {
      forall p | RefAt(j, p).Some? ensures RefAccepted(steps, reg, i, RefAt(j, p).value) {
        var h :| 0 <= h < |paths| && paths[h] == p;
        assert IsListed(j, [], refs[h], paths[h]);
      }
    }
  }

  method CheckRefs(steps: seq<PlanStep>, reg: Registry, at: map<string, nat>, i: nat, refs: seq<FoundRef>)
    returns (errs: seq<PlanError>)
    requires i < |steps| && AllNamed(steps, reg) && IndexesIds(steps, at)
    ensures errs == [] <==> forall h :: 0 <= h < |refs| ==> RefAccepted(steps, reg, i, refs[h].ref)
  {
    errs := [];
    for h := 0 to |refs|
      invariant errs == [] <==> forall k :: 0 <= k < h ==> RefAccepted(steps, reg, i, refs[k].ref)
    {
      RefErrorExact(steps, reg, at, i, refs[h].ref);
      match RefError(steps, reg, at, i, refs[h].ref) {
        case None =>
        case Some(e) => errs := errs + [e];
      }
    }
  }

  method CheckStep(steps: seq<PlanStep>, reg: Registry, at: map<string, nat>, i: nat) returns (errs: seq<PlanError>)
    requires i < |steps| && AllNamed(steps, reg) && IndexesIds(steps, at) && steps[i].tool in reg
    ensures errs == [] <==> StepAccepted(steps, reg, i)
  {
    var params := ParamsJson(steps[i]);
    if params.None? { return [BadParams(steps[i].id)]; }
    var j := params.value;
    var ok, refs; ghost var paths;
    ok, refs, paths := FindRefs(j);
    if !ok { return [BadParams(steps[i].id)]; }
    errs := CheckRefs(steps, reg, at, i, refs);
    RefsListed(steps, reg, i, j, refs, paths);
    var fields := RefFields(refs);
    NonRefParamsExact(j, refs, paths, fields, reg[steps[i].tool].input);
    if !NonRefParamsKnown(j, fields, reg[steps[i].tool].input) { errs := errs + [UnknownParameter(steps[i].id)]; }
  }

  /** ValidatePlan: no error is reported exactly for the accepted plans. */
  method ValidatePlan(steps: seq<PlanStep>, reg: Registry) returns (errs: seq<PlanError>)
    ensures errs == [] <==> Accepted(steps, reg)
  {
    if |steps| == 0 { return [NoSteps]; }
    if |steps| > MAX_STEPS { return [TooManySteps(|steps|)]; }
    errs := CheckStructure(steps, reg);
    if errs != [] { return; }
    var at := IndexIds(steps);
    for i := 0 to |steps|
      invariant errs == [] <==> forall h :: 0 <= h < i ==> StepAccepted(steps, reg, h)
    {
      assert Named(steps[i], reg);
      var more := CheckStep(steps, reg, at, i);
      errs := errs + more;
    }
  }
}
