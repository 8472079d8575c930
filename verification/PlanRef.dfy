/** Step references in plan parameters: parsing, finding by pointer, resolving, substituting. */
module PlanRef {
  import opened Events
  import opened Text

  datatype Json =
    | JNull
    | JBool(b: bool)
    | JNumber(text: string)
    | JString(s: string)
    | JArray(items: seq<Json>)
    | JObject(fields: map<string, Json>)

  // ---------- reference syntax ----------

  datatype PathSegment = Field(name: string) | Index(i: nat)

  datatype Ref = Ref(stepId: string, path: seq<PathSegment>)

  const REF_PREFIX: string := "$steps[\""
  const RESULT: string := ".result"
  const MAX_INT := 0x7fff_ffff_ffff_ffff

  predicate IsFieldChar(c: char, first: bool) {
    'A' <= c <= 'Z' || 'a' <= c <= 'z' || c == '_' || (!first && '0' <= c <= '9')
  }

  /** The length of the field name at the start of s. */
  function FieldLength(s: string, first: bool): (n: nat)
    ensures n <= |s|
  {
    if s == [] || !IsFieldChar(s[0], first) then 0 else 1 + FieldLength(s[1..], false)
  }

  function FindChar(s: string, c: char): (r: Option<nat>)
    ensures r.Some? ==> r.value < |s|
  {
    if s == [] then None
    else if s[0] == c then Some(0)
    else match FindChar(s[1..], c) case None => None case Some(n) => Some(n + 1)
  }

  function FindPair(s: string, a: char, b: char): (r: Option<nat>)
    ensures r.Some? ==> r.value + 2 <= |s|
  {
    if |s| < 2 then None
    else if s[0] == a && s[1] == b then Some(0)
    else match FindPair(s[1..], a, b) case None => None case Some(n) => Some(n + 1)
  }

  function ParsePath(s: string): Option<seq<PathSegment>> {
    if s == [] then Some([])
    else if s[0] == '.' then
      var n := FieldLength(s[1..], true);
      if n == 0 then None
      else match ParsePath(s[1 + n..]) case None => None case Some(p) => Some([Field(s[1..1 + n])] + p)
    else if s[0] == '[' then
      match FindChar(s[1..], ']')
      case None => None
      case Some(n) =>
        var i := Atoi(s[1..1 + n]);
        if i.None? || i.value < 0 || i.value > MAX_INT then None
        else match ParsePath(s[n + 2..]) case None => None case Some(p) => Some([Index(i.value)] + p)
    else None
  }

  function ParseRef(s: string): Option<Ref> {
    if !(REF_PREFIX <= s) then None else
      var rest := s[|REF_PREFIX|..];
      match FindPair(rest, '\"', ']')
      case None => None
      case Some(end) =>
        var tail := rest[end + 2..];
        if end == 0 || !(RESULT <= tail) then None
        else match ParsePath(tail[|RESULT|..]) case None => None case Some(p) => Some(Ref(rest[..end], p))
  }

  function FormatPath(p: seq<PathSegment>): string {
    if p == [] then [] else
      (match p[0] case Field(f) => ['.'] + f case Index(i) => ['['] + Itoa(i) + [']']) + FormatPath(p[1..])
  }

  function FormatRef(r: Ref): string { REF_PREFIX + r.stepId + ['\"', ']'] + RESULT + FormatPath(r.path) }

  predicate ValidSegment(g: PathSegment) {
    match g
    case Field(f) => f != [] && FieldLength(f, true) == |f|
    case Index(i) => i <= MAX_INT
  }

  ghost predicate ValidRef(r: Ref) {
    r.stepId != [] && FindPair(r.stepId, '\"', ']').None? && forall i :: 0 <= i < |r.path| ==> ValidSegment(r.path[i])
  }

  lemma {:induction false} FieldLengthStops(f: string, rest: string, first: bool)
    requires FieldLength(f, first) == |f| && (rest == [] || !IsFieldChar(rest[0], false))
    requires f != [] || !first
    ensures FieldLength(f + rest, first) == |f|
  {
    if f == [] {
      assert f + rest == rest;
    } else {
      assert (f + rest)[1..] == f[1..] + rest;
      FieldLengthStops(f[1..], rest, false);
    }
  }

  lemma {:induction false} FindCharAt(w: string, c: char, rest: string)
    requires c !in w
    ensures FindChar(w + [c] + rest, c) == Some(|w|)
  {
    if w != [] {
      assert (w + [c] + rest)[1..] == w[1..] + [c] + rest;
      FindCharAt(w[1..], c, rest);
    }
  }

  lemma {:induction false} FindPairAt(w: string, a: char, b: char, rest: string)
    requires FindPair(w, a, b).None? && a != b
    ensures FindPair(w + [a, b] + rest, a, b) == Some(|w|)
  {
    if w != [] {
      var s := w + [a, b] + rest;
      assert s[1..] == w[1..] + [a, b] + rest;
      assert s[1] == if |w| > 1 then w[1] else a;
      if |w| == 1 { assert w[1..] == []; }
      FindPairAt(w[1..], a, b, rest);
    }
  }

  lemma {:induction false} PathRoundTrip(p: seq<PathSegment>)
    requires forall i :: 0 <= i < |p| ==> ValidSegment(p[i])
    ensures ParsePath(FormatPath(p)) == Some(p)
    ensures FormatPath(p) == [] || !IsFieldChar(FormatPath(p)[0], false)
  {
    if p != [] {
      var rest := FormatPath(p[1..]);
      PathRoundTrip(p[1..]);
      assert ValidSegment(p[0]);
      assert p == [p[0]] + p[1..];
      match p[0] {
        case Field(f) =>
          assert FormatPath(p) == ['.'] + f + rest;
          FieldRoundTrip(f, rest, p[1..]);
        case Index(i) =>
          assert FormatPath(p) == ['['] + Itoa(i) + [']'] + rest;
          IndexRoundTrip(i, rest, p[1..]);
      }
    }
  }

  lemma FieldRoundTrip(f: string, rest: string, p: seq<PathSegment>)
    requires ValidSegment(Field(f)) && ParsePath(rest) == Some(p) && (rest == [] || !IsFieldChar(rest[0], false))
    ensures ParsePath(['.'] + f + rest) == Some([Field(f)] + p)
  {
    var s := ['.'] + f + rest;
    assert s[1..] == f + rest;
    FieldLengthStops(f, rest, true);
    assert s[1..1 + |f|] == f && s[1 + |f|..] == rest;
  }

  lemma IndexRoundTrip(i: nat, rest: string, p: seq<PathSegment>)
    requires i <= MAX_INT && ParsePath(rest) == Some(p)
    ensures ParsePath(['['] + Itoa(i) + [']'] + rest) == Some([Index(i)] + p)
  {
    var w := Itoa(i);
    var s := ['['] + w + [']'] + rest;
    assert s[1..] == w + [']'] + rest;
    FindCharAt(w, ']', rest);
    AtoiRoundTrip(i);
    assert s[1..1 + |w|] == w && s[|w| + 2..] == rest;
  }

  /** Every reference a step can be named by survives formatting and parsing. */
  lemma RefRoundTrip(r: Ref)
    requires ValidRef(r)
    ensures ParseRef(FormatRef(r)) == Some(r)
  {
    var after := RESULT + FormatPath(r.path);
    assert FormatRef(r) == REF_PREFIX + (r.stepId + ['\"', ']'] + after);
    PathRoundTrip(r.path);
    FindPairAt(r.stepId, '\"', ']', after);
    CutPrefix(REF_PREFIX, r.stepId + ['\"', ']'] + after);
    CutPrefix(r.stepId + ['\"', ']'], after);
    CutPrefix(RESULT, FormatPath(r.path));
    assert (r.stepId + ['\"', ']'] + after)[..|r.stepId|] == r.stepId;
  }

  lemma CutPrefix(a: string, b: string)
    ensures a <= a + b && (a + b)[|a|..] == b
  {
  }

  // ---------- only such texts parse ----------

  predicate IsField(f: string) {
    f != [] && IsFieldChar(f[0], true) && forall k :: 0 < k < |f| ==> IsFieldChar(f[k], false)
  }

  /** The first n characters of s read as this segment. */
  predicate IsSegmentText(s: string, n: int, g: PathSegment) {
    && 1 < n <= |s|
    && match g
       case Field(f) => s[..n] == ['.'] + f && IsField(f) && (n < |s| ==> !IsFieldChar(s[n], false))
       case Index(i) =>
         s[0] == '[' && s[n - 1] == ']' && ']' !in s[1..n - 1] && Atoi(s[1..n - 1]) == Some(i) && i <= MAX_INT
  }

  /** s is a dot and a field name, or an integer in brackets, for each segment in turn. */
  ghost predicate IsPathText(s: string, path: seq<PathSegment>)
    decreases |path|
  {
    if path == [] then s == [] else exists n :: IsSegmentText(s, n, path[0]) && IsPathText(s[n..], path[1..])
  }

  lemma {:induction false} FieldLengthFacts(s: string, first: bool)
    ensures var n := FieldLength(s, first);
      && (forall k :: 0 <= k < n ==> IsFieldChar(s[k], first && k == 0))
      && (n < |s| ==> !IsFieldChar(s[n], first && n == 0))
  {
    if s != [] && IsFieldChar(s[0], first) {
      FieldLengthFacts(s[1..], false);
      var n := FieldLength(s[1..], false);
      assert forall k :: 0 < k < |s| ==> s[k] == s[1..][k - 1];
    }
  }

  lemma {:induction false} FindCharFacts(s: string, c: char)
    ensures FindChar(s, c).Some? ==> var n := FindChar(s, c).value; s[n] == c && c !in s[..n]
    ensures FindChar(s, c).None? ==> c !in s
  {
    if s != [] && s[0] != c {
      FindCharFacts(s[1..], c);
      if FindChar(s, c).Some? {
        var n := FindChar(s, c).value;
        assert s[..n] == [s[0]] + s[1..][..n - 1];
      }
      assert s == [s[0]] + s[1..];
    }
  }

  lemma FieldSegment(s: string, n: nat)
    requires s != [] && s[0] == '.' && n == FieldLength(s[1..], true) > 0
    ensures IsSegmentText(s, 1 + n, Field(s[1..1 + n]))
  {
    FieldLengthFacts(s[1..], true);
    var f := s[1..1 + n];
    assert s[..1 + n] == ['.'] + f;
    assert forall k :: 0 <= k < n ==> f[k] == s[1..][k];
    assert 1 + n < |s| ==> s[1 + n] == s[1..][n];
  }

  lemma IndexSegment(s: string, n: nat, i: nat)
    requires s != [] && s[0] == '[' && FindChar(s[1..], ']') == Some(n) && Atoi(s[1..1 + n]) == Some(i) && i <= MAX_INT
    ensures IsSegmentText(s, n + 2, Index(i))
  {
    FindCharFacts(s[1..], ']');
    assert s[1..n + 2 - 1] == s[1..1 + n] == s[1..][..n];
  }

  /** A path that parses starts with a segment and goes on with one that parses. */
  lemma HeadSegment(s: string) returns (n: nat)
    requires s != [] && ParsePath(s).Some?
    ensures n <= |s| && ParsePath(s).value != [] && IsSegmentText(s, n, ParsePath(s).value[0])
    ensures ParsePath(s[n..]) == Some(ParsePath(s).value[1..])
  {
    var p := ParsePath(s).value;
    if s[0] == '.' {
      n := 1 + FieldLength(s[1..], true);
      FieldSegment(s, n - 1);
    } else {
      n := FindChar(s[1..], ']').value + 2;
      IndexSegment(s, n - 2, p[0].i);
    }
    assert p == [p[0]] + ParsePath(s[n..]).value;
  }

  /** Whatever parses as a path reads as its segments. */
  lemma {:induction false} ParsedPath(s: string)
    requires ParsePath(s).Some?
    ensures IsPathText(s, ParsePath(s).value)
    decreases |s|
  {
    if s != [] {
      var n := HeadSegment(s);
      ParsedPath(s[n..]);
    }
  }

  lemma {:induction false} FindPairFirst(s: string, a: char, b: char)
    requires FindPair(s, a, b).Some? && a != b
    ensures var n := FindPair(s, a, b).value; s[n] == a && s[n + 1] == b && FindPair(s[..n], a, b).None?
  {
    if !(s[0] == a && s[1] == b) {
      FindPairFirst(s[1..], a, b);
      var n := FindPair(s, a, b).value;
      assert s[..n][1..] == s[1..][..n - 1];
      if n >= 2 { assert s[..n][0] == s[0] && s[..n][1] == s[1]; }
    }
  }

  /** Whatever parses as a reference is the prefix, a step id up to the first closing quote, ".result" and a path. */
  lemma ParsedRef(s: string)
    requires ParseRef(s).Some?
    ensures var r := ParseRef(s).value;
      && r.stepId != "" && FindPair(r.stepId, '\"', ']').None?
      && exists tail :: IsPathText(tail, r.path) && s == REF_PREFIX + (r.stepId + (['\"', ']'] + (RESULT + tail)))
  {
    var end, tail := RefParts(s);
    FindPairFirst(s[|REF_PREFIX|..], '\"', ']');
    ParsedPath(tail);
    RefText(s, end, tail);
  }

  lemma RefParts(s: string) returns (end: nat, tail: string)
    requires ParseRef(s).Some?
    ensures REF_PREFIX <= s
    ensures var rest := s[|REF_PREFIX|..];
      && FindPair(rest, '\"', ']') == Some(end) && 0 < end && end + 2 <= |rest|
      && RESULT <= rest[end + 2..] && tail == rest[end + 2..][|RESULT|..] && ParsePath(tail).Some?
      && ParseRef(s).value == Ref(rest[..end], ParsePath(tail).value)
  {
    var rest := s[|REF_PREFIX|..];
    end := FindPair(rest, '\"', ']').value;
    tail := rest[end + 2..][|RESULT|..];
  }

  lemma RefText(s: string, end: nat, tail: string)
    requires REF_PREFIX <= s
    requires var rest := s[|REF_PREFIX|..];
      && end + 2 <= |rest| && rest[end] == '\"' && rest[end + 1] == ']'
      && RESULT <= rest[end + 2..] && tail == rest[end + 2..][|RESULT|..]
    ensures s == REF_PREFIX + (s[|REF_PREFIX|..][..end] + (['\"', ']'] + (RESULT + tail)))
  {
    var rest := s[|REF_PREFIX|..];
    PrefixAndRest(s, REF_PREFIX);
    PrefixAndRest(rest[end + 2..], RESULT);
    PairSplit(rest, end);
  }

  lemma PrefixAndRest(s: string, p: string)
    requires p <= s
    ensures s == p + s[|p|..]
  {
  }

  lemma PairSplit(s: string, end: nat)
    requires end + 2 <= |s| && s[end] == '\"' && s[end + 1] == ']'
    ensures s == s[..end] + (['\"', ']'] + s[end + 2..])
  {
  }

  // ---------- resolving a reference ----------

  function WalkJson(data: Json, path: seq<PathSegment>): Option<Json>
    decreases |path|
  {
    if data.JNull? then None
    else if path == [] then Some(data)
    else
      match path[0]
      case Field(f) => if data.JObject? && f in data.fields then WalkJson(data.fields[f], path[1..]) else None
      case Index(i) => if data.JArray? && i < |data.items| then WalkJson(data.items[i], path[1..]) else None
  }

  function ResolveRef(ref: Ref, results: map<string, Json>): Option<Json> {
    if ref.stepId !in results then None
    else if ref.path == [] then Some(results[ref.stepId])
    else WalkJson(results[ref.stepId], ref.path)
  }
}
