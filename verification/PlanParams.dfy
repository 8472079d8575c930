/** Substitution of references in plan parameters: by collected pointers, against one structural pass. */
module PlanParams {
  import opened Ordering
  import opened Events
  import opened Text
  import opened PlanRef

  // ---------- places in a parameter tree ----------

  datatype Token = Key(k: string) | Pos(i: nat)

  type Path = seq<Token>

  function Render(t: Token): string { match t case Key(k) => k case Pos(i) => Itoa(i) }

  function RenderAll(p: Path): seq<string> {
    if p == [] then [] else [Render(p[0])] + RenderAll(p[1..])
  }

  function PointerOf(p: Path): string { Pointer(RenderAll(p)) }

  predicate HasChild(j: Json, t: Token) {
    (j.JObject? && t.Key? && t.k in j.fields) || (j.JArray? && t.Pos? && t.i < |j.items|)
  }

  function Child(j: Json, t: Token): (c: Json)
    requires HasChild(j, t)
    ensures c < j
  {
    if j.JObject? then j.fields[t.k] else j.items[t.i]
  }

  function WithChild(j: Json, t: Token, c: Json): Json
    requires HasChild(j, t)
  {
    if j.JObject? then JObject(j.fields[t.k := c]) else JArray(j.items[t.i := c])
  }

  function Get(j: Json, p: Path): Option<Json> {
    if p == [] then Some(j) else if HasChild(j, p[0]) then Get(Child(j, p[0]), p[1..]) else None
  }

  /** Structural update at a place of the tree. */
  function Put(j: Json, p: Path, v: Json): Json
    decreases |p|
  {
    if p == [] then v else if HasChild(j, p[0]) then WithChild(j, p[0], Put(Child(j, p[0]), p[1..], v)) else j
  }

  // ---------- what a reference resolves to ----------

  function TokenOf(g: PathSegment): Token { match g case Field(f) => Key(f) case Index(i) => Pos(i) }

  /** The place in an output that a reference path names. */
  function PlaceOf(path: seq<PathSegment>): Path {
    if path == [] then [] else [TokenOf(path[0])] + PlaceOf(path[1..])
  }

  /** Some place on the way, the last included, holds null. */
  ghost predicate MeetsNull(data: Json, p: Path) { exists k :: 0 <= k <= |p| && Get(data, p[..k]) == Some(JNull) }

  lemma MeetsNullStep(data: Json, p: Path)
    requires p != [] && HasChild(data, p[0])
    ensures MeetsNull(data, p) <==> data == JNull || MeetsNull(Child(data, p[0]), p[1..])
  {
    if MeetsNull(data, p) {
      var k :| 0 <= k <= |p| && Get(data, p[..k]) == Some(JNull);
      if k > 0 { assert p[..k][1..] == p[1..][..k - 1]; }
    }
    if MeetsNull(Child(data, p[0]), p[1..]) {
      var k :| 0 <= k <= |p[1..]| && Get(Child(data, p[0]), p[1..][..k]) == Some(JNull);
      assert p[..k + 1][1..] == p[1..][..k] && p[..k + 1][0] == p[0];
      assert Get(data, p[..k + 1]) == Some(JNull);
    }
  }

  /** Walking a path gives the value at its place, unless there is none or the way meets null. */
  lemma {:induction false} WalkIsGet(data: Json, path: seq<PathSegment>)
    ensures WalkJson(data, path) == if MeetsNull(data, PlaceOf(path)) then None else Get(data, PlaceOf(path))
    decreases |path|
  {
    var p := PlaceOf(path);
    assert p[..0] == [] && Get(data, p[..0]) == Some(data);
    if path == [] {
      assert p == [];
    } else if data != JNull {
      assert p[0] == TokenOf(path[0]) && p[1..] == PlaceOf(path[1..]);
      if HasChild(data, p[0]) {
        WalkIsGet(Child(data, p[0]), path[1..]);
        MeetsNullStep(data, p);
      }
    }
  }

  /** A reference resolves exactly to the value at its place in the output of the step it names; a path must not meet
      null, while the whole output may be null. */
  lemma ResolveRefExact(ref: Ref, results: map<string, Json>, v: Json)
    ensures ResolveRef(ref, results) == Some(v) <==>
            && ref.stepId in results && Get(results[ref.stepId], PlaceOf(ref.path)) == Some(v)
            && (ref.path != [] ==> !MeetsNull(results[ref.stepId], PlaceOf(ref.path)))
  {
    if ref.stepId in results { WalkIsGet(results[ref.stepId], ref.path); }
  }

  // ---------- reference leaves ----------

  predicate IsRefText(s: string) { REF_PREFIX <= s && ParseRef(s).Some? }

  /** The reference held by the string at p, if it is one. */
  function RefAt(j: Json, p: Path): Option<Ref> {
    match Get(j, p)
    case Some(JString(s)) => if IsRefText(s) then ParseRef(s) else None
    case _ => None
  }

  predicate ContainsText(s: string, sub: string) { sub <= s || (s != [] && ContainsText(s[1..], sub)) }

  lemma {:induction false} ContainsExactly(s: string, sub: string)
    ensures ContainsText(s, sub) <==> exists a, b :: s == a + sub + b
  {
    if sub <= s {
      assert s == [] + sub + s[|sub|..];
    } else if s != [] {
      ContainsExactly(s[1..], sub);
      if ContainsText(s[1..], sub) {
        var a, b :| s[1..] == a + sub + b;
        assert s == ([s[0]] + a) + sub + b;
      }
      forall a, b | s == a + sub + b ensures ContainsText(s, sub) {
        assert a == [] ==> sub <= s;
        assert s[1..] == a[1..] + sub + b;
      }
    }
  }

  /** No string mentions a reference without being one. */
  predicate RefsValid(j: Json) {
    match j
    case JString(s) => ContainsText(s, REF_PREFIX) ==> IsRefText(s)
    case JArray(items) => forall i :: 0 <= i < |items| ==> RefsValid(items[i])
    case JObject(fields) => forall k :: k in fields ==> RefsValid(fields[k])
    case _ => true
  }

  /** No reference leaf lies below another place that holds one. */
  lemma LeavesNotNested(j: Json, p: Path, q: Path)
    requires RefAt(j, p).Some? && RefAt(j, q).Some? && p <= q
    ensures p == q
    decreases |p|
  {
    if p == [] {
      assert j.JString?;
    } else {
      assert q[0] == p[0] && q[1..][..|p| - 1] == p[1..];
      LeavesNotNested(Child(j, p[0]), p[1..], q[1..]);
    }
  }

  // ---------- one structural pass ----------

  function LeafValue(s: string, results: map<string, Json>): Json {
    if IsRefText(s) && ResolveRef(ParseRef(s).value, results).Some? then ResolveRef(ParseRef(s).value, results).value
    else JString(s)
  }

  /** Every reference string becomes its value; nothing else changes. */
  function Subst(j: Json, results: map<string, Json>): Json {
    match j
    case JString(s) => LeafValue(s, results)
    case JArray(items) => JArray(seq(|items|, i requires 0 <= i < |items| => Subst(items[i], results)))
    case JObject(fields) => JObject(map k | k in fields :: Subst(fields[k], results))
    case _ => j
  }

  /** At a reference leaf the substituted tree holds the value at the place it names; every other leaf is unchanged, and
      so are the shapes of objects and arrays. */
  lemma {:induction false} SubstPlace(j: Json, p: Path, results: map<string, Json>)
    requires Get(j, p).Some?
    ensures match Get(j, p).value
      case JString(s) => Get(Subst(j, results), p) == Some(LeafValue(s, results))
      case JArray(items) => Get(Subst(j, results), p).Some? && Get(Subst(j, results), p).value.JArray?
        && |Get(Subst(j, results), p).value.items| == |items|
      case JObject(fields) => Get(Subst(j, results), p).Some? && Get(Subst(j, results), p).value.JObject?
        && Get(Subst(j, results), p).value.fields.Keys == fields.Keys
      case other => Get(Subst(j, results), p) == Some(other)
    decreases |p|
  {
    if p != [] { SubstPlace(Child(j, p[0]), p[1..], results); }
  }

  lemma SubstRef(j: Json, p: Path, results: map<string, Json>, v: Json)
    requires RefAt(j, p).Some?
    requires RefAt(j, p).value.stepId in results
    requires var ref := RefAt(j, p).value; var out := results[ref.stepId];
             Get(out, PlaceOf(ref.path)) == Some(v) && (ref.path != [] ==> !MeetsNull(out, PlaceOf(ref.path)))
    ensures Get(Subst(j, results), p) == Some(v)
  {
    SubstPlace(j, p, results);
    ResolveRefExact(RefAt(j, p).value, results, v);
  }

  ghost function Below(D: set<Path>, t: Token): set<Path> {
    set p | p in D && p != [] && p[0] == t :: p[1..]
  }

  /** The pass restricted to the places in D. */
  ghost function SubstAt(j: Json, D: set<Path>, results: map<string, Json>): Json {
    match j
    case JString(s) => if [] in D then LeafValue(s, results) else j
    case JArray(items) =>
      JArray(seq(|items|, i requires 0 <= i < |items| => SubstAt(items[i], Below(D, Pos(i)), results)))
    case JObject(fields) => JObject(map k | k in fields :: SubstAt(fields[k], Below(D, Key(k)), results))
    case _ => j
  }

  lemma {:induction false} SubstNowhere(j: Json, results: map<string, Json>)
    ensures SubstAt(j, {}, results) == j
  {
    match j
    case JArray(items) =>
      forall i | 0 <= i < |items| ensures SubstAt(items[i], Below({}, Pos(i)), results) == items[i] {
        assert Below({}, Pos(i)) == {};
        SubstNowhere(items[i], results);
      }
    case JObject(fields) =>
      forall k | k in fields ensures SubstAt(fields[k], Below({}, Key(k)), results) == fields[k] {
        assert Below({}, Key(k)) == {};
        SubstNowhere(fields[k], results);
      }
    case _ =>
  }

  ghost predicate CoversRefs(j: Json, D: set<Path>) { forall p :: RefAt(j, p).Some? ==> p in D }

  lemma CoversChild(j: Json, D: set<Path>, t: Token)
    requires CoversRefs(j, D) && HasChild(j, t)
    ensures CoversRefs(Child(j, t), Below(D, t))
  {
    forall q | RefAt(Child(j, t), q).Some? ensures q in Below(D, t) {
      var p := [t] + q;
      assert p[1..] == q && RefAt(j, p) == RefAt(Child(j, t), q);
    }
  }

  lemma {:induction false} SubstEverywhere(j: Json, D: set<Path>, results: map<string, Json>)
    requires CoversRefs(j, D)
    ensures SubstAt(j, D, results) == Subst(j, results)
  {
    match j
    case JString(s) =>
      assert Get(j, []) == Some(j);
      assert IsRefText(s) ==> RefAt(j, []).Some?;
    case JArray(items) =>
      forall i | 0 <= i < |items| ensures SubstAt(items[i], Below(D, Pos(i)), results) == Subst(items[i], results) {
        CoversChild(j, D, Pos(i));
        SubstEverywhere(items[i], Below(D, Pos(i)), results);
      }
    case JObject(fields) =>
      forall k | k in fields ensures SubstAt(fields[k], Below(D, Key(k)), results) == Subst(fields[k], results) {
        CoversChild(j, D, Key(k));
        SubstEverywhere(fields[k], Below(D, Key(k)), results);
      }
    case _ =>
  }

  lemma BelowInsert(D: set<Path>, p: Path, t: Token)
    requires p != []
    ensures Below(D + {p}, t) == if p[0] == t then Below(D, t) + {p[1..]} else Below(D, t)
  {
    forall q | q in Below(D, t) ensures q in Below(D + {p}, t) {
      var r :| r in D && r != [] && r[0] == t && r[1..] == q;
      assert r in D + {p};
    }
    if p[0] == t { assert p in D + {p}; }
  }

  lemma SubstChild(j: Json, D: set<Path>, results: map<string, Json>, t: Token)
    requires HasChild(j, t)
    ensures HasChild(SubstAt(j, D, results), t)
    ensures Child(SubstAt(j, D, results), t) == SubstAt(Child(j, t), Below(D, t), results)
  {
  }

  /** Setting the value of one more reference leaf extends the pass by that place. */
  lemma {:induction false} PutExtends(j: Json, D: set<Path>, p: Path, results: map<string, Json>)
    requires RefAt(j, p).Some? && ResolveRef(RefAt(j, p).value, results).Some?
    ensures Get(SubstAt(j, D, results), p).Some? || p in D
    ensures p !in D ==>
      Put(SubstAt(j, D, results), p, ResolveRef(RefAt(j, p).value, results).value) == SubstAt(j, D + {p}, results)
    decreases |p|
  {
    if p != [] {
      var t, q := p[0], p[1..];
      assert RefAt(Child(j, t), q) == RefAt(j, p);
      PutExtends(Child(j, t), Below(D, t), q, results);
      SubstChild(j, D, results, t);
      assert q in Below(D, t) ==> p in D by {
        if q in Below(D, t) {
          var r :| r in D && r != [] && r[0] == t && r[1..] == q;
          assert r == [t] + q && p == [t] + q;
        }
      }
      if p !in D { PutBelow(j, D, p, results); }
    }
  }

  lemma PutBelow(j: Json, D: set<Path>, p: Path, results: map<string, Json>)
    requires p != [] && HasChild(j, p[0]) && p !in D && HasChild(SubstAt(j, D, results), p[0])
    ensures WithChild(SubstAt(j, D, results), p[0], SubstAt(Child(j, p[0]), Below(D, p[0]) + {p[1..]}, results))
              == SubstAt(j, D + {p}, results)
  {
    forall t ensures Below(D + {p}, t) == if p[0] == t then Below(D, t) + {p[1..]} else Below(D, t) {
      BelowInsert(D, p, t);
    }
    var a := WithChild(SubstAt(j, D, results), p[0], SubstAt(Child(j, p[0]), Below(D, p[0]) + {p[1..]}, results));
    var b := SubstAt(j, D + {p}, results);
    if j.JArray? { assert a.items == b.items; } else { assert a.fields == b.fields; }
  }

  // ---------- setting by pointer ----------

  /** setNested over the split, still escaped, tokens. */
  function SetNested(j: Json, tokens: seq<string>, v: Json): Option<Json>
    decreases |tokens|
  {
    if tokens == [] then Some(v) else
      var token, rest := Unescape(tokens[0]), tokens[1..];
      match j
      case JObject(fields) =>
        var child := if token in fields then fields[token] else JNull;
        (match SetNested(child, rest, v) case None => None case Some(c) => Some(JObject(fields[token := c])))
      case JArray(items) =>
        var i := Atoi(token);
        if i.None? || i.value < 0 || i.value >= |items| then None
        else (match SetNested(items[i.value], rest, v)
              case None => None
              case Some(c) => Some(JArray(items[i.value := c])))
      case _ => None
  }

  function SetAtPointer(j: Json, pointer: string, v: Json): Option<Json> {
    if pointer == "" then Some(v) else SetNested(j, Split(pointer[1..]), v)
  }

  lemma {:induction false} SetNestedIsPut(j: Json, p: Path, v: Json)
    requires Get(j, p).Some?
    ensures SetNested(j, EscapeAll(RenderAll(p)), v) == Some(Put(j, p, v))
    decreases |p|
  {
    if p != [] {
      var t := p[0];
      SetNestedIsPut(Child(j, t), p[1..], v);
      EscapeRoundTrip(Render(t));
      if t.Pos? { AtoiRoundTrip(t.i); }
      assert EscapeAll(RenderAll(p))[1..] == EscapeAll(RenderAll(p)[1..]);
      assert RenderAll(p)[1..] == RenderAll(p[1..]);
    }
  }

  /** At a place of the tree, setting by pointer never fails and is the structural update. */
  lemma SetAtPointerIsPut(j: Json, p: Path, v: Json)
    requires Get(j, p).Some?
    ensures SetAtPointer(j, PointerOf(p), v) == Some(Put(j, p, v))
  {
    PointerShape(RenderAll(p));
    if p != [] {
      SplitPointer(RenderAll(p));
      SetNestedIsPut(j, p, v);
    }
  }

  // ---------- finding references ----------

  datatype FoundRef = FoundRef(pointer: string, ref: Ref)

  ghost predicate IsListed(v: Json, at: Path, r: FoundRef, p: Path) {
    r.pointer == PointerOf(at + p) && RefAt(v, p) == Some(r.ref)
  }

  ghost predicate AllListed(v: Json, at: Path, refs: seq<FoundRef>, paths: seq<Path>) {
    |refs| == |paths| && forall i :: 0 <= i < |refs| ==> IsListed(v, at, refs[i], paths[i])
  }

  /** refs are exactly the reference leaves of v, each once, with pointers relative to the place at. */
  ghost predicate Lists(v: Json, at: Path, refs: seq<FoundRef>, paths: seq<Path>) {
    AllListed(v, at, refs, paths) && NoDuplicates(paths) && forall p :: RefAt(v, p).Some? ==> p in paths
  }

  ghost predicate StartsIn(p: Path, done: set<Token>) { p != [] && p[0] in done }

  /** The same for the children whose tokens are done. */
  ghost predicate ListsPart(v: Json, at: Path, refs: seq<FoundRef>, paths: seq<Path>, done: set<Token>) {
    && AllListed(v, at, refs, paths) && NoDuplicates(paths)
    && (forall i :: 0 <= i < |paths| ==> StartsIn(paths[i], done))
    && (forall p :: StartsIn(p, done) && RefAt(v, p).Some? ==> p in paths)
  }

  ghost function Prefixed(t: Token, paths: seq<Path>): seq<Path> {
    seq(|paths|, i requires 0 <= i < |paths| => [t] + paths[i])
  }

  lemma ListedBelow(v: Json, at: Path, t: Token, r: FoundRef, q: Path)
    requires HasChild(v, t) && IsListed(Child(v, t), at + [t], r, q)
    ensures IsListed(v, at, r, [t] + q)
  {
    assert at + ([t] + q) == (at + [t]) + q;
    assert ([t] + q)[1..] == q;
  }

  lemma ListedConcat(v: Json, at: Path, refs: seq<FoundRef>, paths: seq<Path>, t: Token, more: seq<FoundRef>,
                     below: seq<Path>)
    requires AllListed(v, at, refs, paths) && HasChild(v, t) && AllListed(Child(v, t), at + [t], more, below)
    ensures AllListed(v, at, refs + more, paths + Prefixed(t, below))
  {
    var rs, ps := refs + more, paths + Prefixed(t, below);
    forall i | 0 <= i < |rs| ensures IsListed(v, at, rs[i], ps[i]) {
      if i >= |refs| { ListedBelow(v, at, t, more[i - |refs|], below[i - |refs|]); }
    }
  }

  lemma PrefixedDistinct(paths: seq<Path>, done: set<Token>, t: Token, below: seq<Path>)
    requires NoDuplicates(paths) && NoDuplicates(below) && t !in done
    requires forall i :: 0 <= i < |paths| ==> StartsIn(paths[i], done)
    ensures NoDuplicates(paths + Prefixed(t, below))
    ensures forall i :: 0 <= i < |paths + Prefixed(t, below)| ==> StartsIn((paths + Prefixed(t, below))[i], done + {t})
  {
    var ps := paths + Prefixed(t, below);
    forall i, j | 0 <= i < j < |ps| ensures ps[i] != ps[j] {
      if i >= |paths| {
        assert below[i - |paths|] != below[j - |paths|];
        assert ps[i][1..] == below[i - |paths|] && ps[j][1..] == below[j - |paths|];
      } else if j >= |paths| {
        assert StartsIn(ps[i], done) && ps[j][0] == t;
      }
    }
  }

  lemma PrefixedFinds(v: Json, t: Token, below: seq<Path>, p: Path)
    requires HasChild(v, t) && p != [] && p[0] == t && RefAt(v, p).Some?
    requires forall q :: RefAt(Child(v, t), q).Some? ==> q in below
    ensures p in Prefixed(t, below)
  {
    assert RefAt(Child(v, t), p[1..]) == RefAt(v, p);
    var i :| 0 <= i < |below| && below[i] == p[1..];
    assert p == [t] + p[1..] && Prefixed(t, below)[i] == p;
  }

  lemma ListsChild(v: Json, at: Path, refs: seq<FoundRef>, paths: seq<Path>, done: set<Token>,
                   t: Token, more: seq<FoundRef>, below: seq<Path>)
    requires ListsPart(v, at, refs, paths, done) && t !in done && HasChild(v, t)
    requires Lists(Child(v, t), at + [t], more, below)
    ensures ListsPart(v, at, refs + more, paths + Prefixed(t, below), done + {t})
  {
    ListedConcat(v, at, refs, paths, t, more, below);
    PrefixedDistinct(paths, done, t, below);
    forall p | StartsIn(p, done + {t}) && RefAt(v, p).Some? ensures p in paths + Prefixed(t, below) {
      if p[0] == t { PrefixedFinds(v, t, below, p); } else { assert StartsIn(p, done); }
    }
  }

  lemma ListsWhole(v: Json, at: Path, refs: seq<FoundRef>, paths: seq<Path>, done: set<Token>)
    requires ListsPart(v, at, refs, paths, done) && !v.JString? && forall t :: HasChild(v, t) ==> t in done
    ensures Lists(v, at, refs, paths)
  {
    forall p | RefAt(v, p).Some? ensures p in paths {
      assert p != [];
      assert HasChild(v, p[0]);
      assert StartsIn(p, done);
    }
  }

  lemma {:induction false} RenderSnoc(at: Path, t: Token)
    ensures RenderAll(at + [t]) == RenderAll(at) + [Render(t)]
    decreases |at|
  {
    if at == [] {
      assert at + [t] == [t] && [t][1..] == [];
    } else {
      assert (at + [t])[1..] == at[1..] + [t];
      RenderSnoc(at[1..], t);
    }
  }

  lemma {:induction false} PointerSnoc(tokens: seq<string>, w: string)
    ensures Pointer(tokens + [w]) == Pointer(tokens) + ['/'] + Escape(w)
    decreases |tokens|
  {
    if tokens == [] {
      assert tokens + [w] == [w] && [w][1..] == [];
    } else {
      assert (tokens + [w])[1..] == tokens[1..] + [w];
      PointerSnoc(tokens[1..], w);
    }
  }

  lemma ChildPointer(at: Path, t: Token)
    ensures PointerOf(at + [t]) == PointerOf(at) + ['/'] + Escape(Render(t))
  {
    RenderSnoc(at, t);
    PointerSnoc(RenderAll(at), Render(t));
  }

  lemma ItemPointer(at: Path, i: nat)
    ensures PointerOf(at + [Pos(i)]) == PointerOf(at) + ['/'] + Itoa(i)
  {
    ChildPointer(at, Pos(i));
    PlainText(Itoa(i));
  }

  lemma {:induction false} PlainText(s: string)
    requires '~' !in s && '/' !in s
    ensures Escape(s) == s
  {
    PlainReplace(s, '~', "~0");
    PlainReplace(s, '/', "~1");
  }

  lemma {:induction false} PlainReplace(s: string, c: char, sub: string)
    requires c !in s
    ensures ReplaceChar(s, c, sub) == s
  {
    if s != [] { PlainReplace(s[1..], c, sub); }
  }

  /** walkForRefs: appends the references below v; map keys are visited in an arbitrary order. */
  method WalkForRefs(v: Json, pointer: string, ghost at: Path)
    returns (ok: bool, refs: seq<FoundRef>, ghost paths: seq<Path>)
    requires pointer == PointerOf(at)
    ensures ok <==> RefsValid(v)
    ensures ok ==> Lists(v, at, refs, paths)
    decreases v
  {
    refs, paths := [], [];
    match v {
      case JString(s) =>
        ok := ContainsText(s, REF_PREFIX) ==> IsRefText(s);
        StringRefs(v, at);
        if IsRefText(s) {
          refs, paths := [FoundRef(pointer, ParseRef(s).value)], [[]];
        }
      case JArray(items) =>
        ok, refs, paths := WalkItems(v, pointer, at);
      case JObject(fields) =>
        ok, refs, paths := WalkFields(v, pointer, at);
      case _ =>
        ok := true;
        ListsWhole(v, at, refs, paths, {});
    }
  }

  lemma StringRefs(v: Json, at: Path)
    requires v.JString?
    ensures IsRefText(v.s) ==>
      ContainsText(v.s, REF_PREFIX) && Lists(v, at, [FoundRef(PointerOf(at), ParseRef(v.s).value)], [[]])
    ensures !IsRefText(v.s) ==> Lists(v, at, [], [])
  {
    assert at + [] == at;
    assert Get(v, []) == Some(v);
    forall p | p != [] ensures RefAt(v, p).None? { assert !HasChild(v, p[0]); }
  }

  method WalkItems(v: Json, pointer: string, ghost at: Path)
    returns (ok: bool, refs: seq<FoundRef>, ghost paths: seq<Path>)
    requires v.JArray? && pointer == PointerOf(at)
    ensures ok <==> RefsValid(v)
    ensures ok ==> Lists(v, at, refs, paths)
    decreases v, 0
  {
    ok, refs, paths := true, [], [];
    ghost var done: set<Token> := {};
    for i := 0 to |v.items|
      invariant ok && forall h :: 0 <= h < i ==> RefsValid(v.items[h])
      invariant forall t :: t in done <==> t.Pos? && t.i < i
      invariant ListsPart(v, at, refs, paths, done)
    {
      ItemPointer(at, i);
      ghost var below;
      var more;
      ok, more, below := WalkForRefs(v.items[i], pointer + ['/'] + Itoa(i), at + [Pos(i)]);
      if !ok { return; }
      ListsChild(v, at, refs, paths, done, Pos(i), more, below);
      refs, paths, done := refs + more, paths + Prefixed(Pos(i), below), done + {Pos(i)};
    }
    ListsWhole(v, at, refs, paths, done);
  }

  method WalkFields(v: Json, pointer: string, ghost at: Path)
    returns (ok: bool, refs: seq<FoundRef>, ghost paths: seq<Path>)
    requires v.JObject? && pointer == PointerOf(at)
    ensures ok <==> RefsValid(v)
    ensures ok ==> Lists(v, at, refs, paths)
    decreases v, 0
  {
    ok, refs, paths := true, [], [];
    ghost var done: set<Token> := {};
    var todo := v.fields.Keys;
    while todo != {}
      invariant ok && todo <= v.fields.Keys && forall k :: k in v.fields && k !in todo ==> RefsValid(v.fields[k])
      invariant forall t :: t in done <==> t.Key? && t.k in v.fields && t.k !in todo
      invariant ListsPart(v, at, refs, paths, done)
      decreases todo
    {
      var k :| k in todo;
      ChildPointer(at, Key(k));
      ghost var below;
      var more;
      ok, more, below := WalkForRefs(v.fields[k], pointer + ['/'] + Escape(k), at + [Key(k)]);
      if !ok { return; }
      ListsChild(v, at, refs, paths, done, Key(k), more, below);
      refs, paths, done := refs + more, paths + Prefixed(Key(k), below), done + {Key(k)};
      todo := todo - {k};
    }
    ListsWhole(v, at, refs, paths, done);
  }

  /** FindRefs on a whole parameter tree. */
  method FindRefs(root: Json) returns (ok: bool, refs: seq<FoundRef>, ghost paths: seq<Path>)
    ensures ok <==> RefsValid(root)
    ensures ok ==> Lists(root, [], refs, paths)
  {
    ok, refs, paths := WalkForRefs(root, "", []);
  }

  // ---------- ResolveParams ----------

  ghost predicate AllResolve(refs: seq<FoundRef>, results: map<string, Json>) {
    forall i :: 0 <= i < |refs| ==> ResolveRef(refs[i].ref, results).Some?
  }

  /** Setting the i-th listed reference extends the substitution by its place. */
  lemma ResolveStep(root: Json, refs: seq<FoundRef>, paths: seq<Path>, i: nat, results: map<string, Json>)
    requires Lists(root, [], refs, paths) && i < |refs| && ResolveRef(refs[i].ref, results).Some?
    ensures SetAtPointer(SubstAt(root, Elements(paths[..i]), results), refs[i].pointer,
                         ResolveRef(refs[i].ref, results).value)
              == Some(SubstAt(root, Elements(paths[..i + 1]), results))
  {
    var D, p := Elements(paths[..i]), paths[i];
    assert IsListed(root, [], refs[i], p) && [] + p == p;
    assert p !in paths[..i];
    assert Elements(paths[..i + 1]) == D + {p};
    PutExtends(root, D, p, results);
    SetAtPointerIsPut(SubstAt(root, D, results), p, ResolveRef(refs[i].ref, results).value);
  }

  /** The tree after setting these references one by one; none if one does not resolve or cannot be set. */
  function ApplyRefs(root: Json, refs: seq<FoundRef>, results: map<string, Json>): Option<Json> {
    if refs == [] then Some(root) else
      match ApplyRefs(root, refs[..|refs| - 1], results)
      case None => None
      case Some(cur) => ApplyRef(cur, refs[|refs| - 1], results)
  }

  function ApplyRef(cur: Json, r: FoundRef, results: map<string, Json>): Option<Json> {
    match ResolveRef(r.ref, results)
    case None => None
    case Some(v) => SetAtPointer(cur, r.pointer, v)
  }

  lemma {:induction false} ApplyRefsSubst(root: Json, refs: seq<FoundRef>, paths: seq<Path>, i: nat,
                                          results: map<string, Json>)
    requires Lists(root, [], refs, paths) && i <= |refs|
    ensures AllResolve(refs[..i], results) ==>
      ApplyRefs(root, refs[..i], results) == Some(SubstAt(root, Elements(paths[..i]), results))
    ensures ApplyRefs(root, refs[..i], results).Some? ==> AllResolve(refs[..i], results)
  {
    if i == 0 {
      SubstNowhere(root, results);
      assert Elements(paths[..0]) == {};
    } else {
      ApplyRefsSubst(root, refs, paths, i - 1, results);
      assert refs[..i][..i - 1] == refs[..i - 1];
      assert AllResolve(refs[..i], results)
             <==> AllResolve(refs[..i - 1], results) && ResolveRef(refs[i - 1].ref, results).Some? by {
        AllResolveLast(refs, i, results);
      }
      if ResolveRef(refs[i - 1].ref, results).Some? { ResolveStep(root, refs, paths, i - 1, results); }
    }
  }

  lemma AllResolveLast(refs: seq<FoundRef>, i: nat, results: map<string, Json>)
    requires 0 < i <= |refs|
    ensures AllResolve(refs[..i], results)
            <==> AllResolve(refs[..i - 1], results) && ResolveRef(refs[i - 1].ref, results).Some?
  {
    assert refs[..i][i - 1] == refs[i - 1];
    assert forall h :: 0 <= h < i - 1 ==> refs[..i][h] == refs[..i - 1][h];
  }

  /** For the references in whatever order they were found: it fails only if one does not resolve, setting
      by pointer never fails, and the result is the one-pass substitution. */
  lemma ResolveParamsIsSubst(root: Json, refs: seq<FoundRef>, paths: seq<Path>, results: map<string, Json>)
    requires Lists(root, [], refs, paths)
    ensures ApplyRefs(root, refs, results) == if AllResolve(refs, results) then Some(Subst(root, results)) else None
  {
    ApplyRefsSubst(root, refs, paths, |refs|, results);
    assert refs[..|refs|] == refs && paths[..|refs|] == paths;
    SubstEverywhere(root, Elements(paths), results);
  }

  /** ResolveParams: the tree is updated reference by reference. */
  method ResolveParams(root: Json, refs: seq<FoundRef>, results: map<string, Json>) returns (out: Option<Json>)
    ensures out == ApplyRefs(root, refs, results)
  {
    var cur := root;
    for i := 0 to |refs|
      invariant ApplyRefs(root, refs[..i], results) == Some(cur)
    {
      assert refs[..i + 1][..i] == refs[..i];
      var next := ApplyRef(cur, refs[i], results);
      if next.None? {
        FailedRef(root, refs, i + 1, results);
        return None;
      }
      cur := next.value;
    }
    assert refs[..|refs|] == refs;
    out := Some(cur);
  }

  lemma {:induction false} FailedRef(root: Json, refs: seq<FoundRef>, i: nat, results: map<string, Json>)
    requires i <= |refs| && ApplyRefs(root, refs[..i], results).None?
    ensures ApplyRefs(root, refs, results).None?
    decreases |refs|
  {
    if i == |refs| {
      assert refs[..i] == refs;
    } else {
      var init := refs[..|refs| - 1];
      assert init[..i] == refs[..i];
      FailedRef(root, init, i, results);
    }
  }
}
