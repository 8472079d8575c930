/** Request bodies that hold one event a line. */
module NdjsonBody {
  import opened WalFraming

  const MAX_BODY: int := 0x10_0000
  const MAX_EVENTS := 256

  /** The UTF-8 encodings of the white space characters of Unicode. */
  predicate IsSpace(r: Bytes) {
    || (|r| == 1 && (9 <= r[0] <= 13 || r[0] == 32))
    || (|r| == 2 && r[0] == 0xC2 && (r[1] == 0x85 || r[1] == 0xA0))
    || (|r| == 3 && r[0] == 0xE1 && r[1] == 0x9A && r[2] == 0x80)
    || (|r| == 3 && r[0] == 0xE2 && r[1] == 0x80 && (0x80 <= r[2] <= 0x8A || r[2] in {0xA8, 0xA9, 0xAF}))
    || (|r| == 3 && r[0] == 0xE2 && r[1] == 0x81 && r[2] == 0x9F)
    || (|r| == 3 && r[0] == 0xE3 && r[1] == 0x80 && r[2] == 0x80)
  }

  /** Of the single bytes, tab, line feed, vertical tab, form feed, carriage return and space are white space. */
  lemma AsciiSpaces(b: Byte)
    ensures IsSpace([b]) <==> b in {9, 10, 11, 12, 13, 32}
  {
  }

  /** The length of the white space character at the start of s, or 0. */
  function LeadingSpace(s: Bytes): (n: nat)
    ensures n <= |s|
  {
    if |s| >= 1 && IsSpace(s[..1]) then 1
    else if |s| >= 2 && IsSpace(s[..2]) then 2
    else if |s| >= 3 && IsSpace(s[..3]) then 3
    else 0
  }

  /** The length of the white space character at the end of s, or 0. */
  function TrailingSpace(s: Bytes): (n: nat)
    ensures n <= |s|
  {
    if |s| >= 1 && IsSpace(s[|s| - 1..]) then 1
    else if |s| >= 2 && IsSpace(s[|s| - 2..]) then 2
    else if |s| >= 3 && IsSpace(s[|s| - 3..]) then 3
    else 0
  }

  function TrimLeft(s: Bytes): Bytes {
    if LeadingSpace(s) > 0 then TrimLeft(s[LeadingSpace(s)..]) else s
  }

  function TrimEnd(s: Bytes): Bytes {
    if TrailingSpace(s) > 0 then TrimEnd(s[..|s| - TrailingSpace(s)]) else s
  }

  function TrimSpace(s: Bytes): Bytes { TrimEnd(TrimLeft(s)) }

  /** The head line without its newline. */
  function HeadText(body: Bytes): Bytes {
    if AtEnd(body) then body[..LineLength(body)] else body[..LineLength(body) - 1]
  }

  /** The lines of the body that are not blank. */
  function EventLines(body: Bytes): seq<Bytes> {
    if body == [] then [] else NonEmpty(TrimSpace(HeadText(body))) + EventLines(body[LineLength(body)..])
  }

  datatype Parsed = Events(events: seq<Bytes>) | Oversized

  lemma EventLinesStep(body: Bytes, events: seq<Bytes>)
    requires body != []
    ensures var line, rest := TrimSpace(HeadText(body)), EventLines(body[LineLength(body)..]);
            events + EventLines(body) == if line == [] then events + rest else events + [line] + rest
  {
    var line, rest := TrimSpace(HeadText(body)), EventLines(body[LineLength(body)..]);
    assert EventLines(body) == NonEmpty(line) + rest;
    Prepend(events, line, rest);
  }

  lemma Prepend(a: seq<Bytes>, line: Bytes, b: seq<Bytes>)
    ensures a + (NonEmpty(line) + b) == if line == [] then a + b else a + [line] + b
  {
  }

  /** parseNDJSON: the non-blank lines, unless there are more than 256. */
  method ParseNdjson(body: Bytes) returns (r: Parsed)
    ensures r == if |EventLines(body)| <= MAX_EVENTS then Events(EventLines(body)) else Oversized
  {
    var events: seq<Bytes> := [];
    var left := body;
    while left != []
      invariant events + EventLines(left) == EventLines(body) && |events| <= MAX_EVENTS
      decreases |left|
    {
      var line, rest := TrimSpace(HeadText(left)), left[LineLength(left)..];
      EventLinesStep(left, events);
      left := rest;
      if line == [] { continue; }
      if |events| == MAX_EVENTS { return Oversized; }
      events := events + [line];
    }
    r := Events(events);
  }

  /** One line for each event. */
  function JoinLines(lines: seq<Bytes>): Bytes { if lines == [] then [] else lines[0] + [NL] + JoinLines(lines[1..]) }

  predicate IsEventLine(t: Bytes) { t != [] && NL !in t && TrimSpace(t) == t }

  lemma JoinedHead(t: Bytes, rest: Bytes)
    requires NL !in t
    ensures HeadText(t + [NL] + rest) == t && LineLength(t + [NL] + rest) == |t| + 1
    ensures (t + [NL] + rest)[|t| + 1..] == rest
  {
    LineOf(t, rest);
  }

  /** Events joined line by line come back as they are. */
  lemma {:induction false} LinesRoundTrip(lines: seq<Bytes>)
    requires forall i :: 0 <= i < |lines| ==> IsEventLine(lines[i])
    ensures EventLines(JoinLines(lines)) == lines
  {
    if lines != [] {
      LinesRoundTrip(lines[1..]);
      JoinedHead(lines[0], JoinLines(lines[1..]));
      assert lines == [lines[0]] + lines[1..];
    }
  }

  /** A trimmed text neither starts nor ends with white space. */
  lemma TrimmedEnds(s: Bytes)
    ensures LeadingSpace(TrimSpace(s)) == 0 && TrailingSpace(TrimSpace(s)) == 0
  {
    TrimLeftFacts(s);
    TrimEndFacts(TrimLeft(s));
    LeadingOfPrefix(TrimLeft(s), TrimSpace(s));
  }

  lemma LeadingOfPrefix(t: Bytes, u: Bytes)
    requires u <= t && LeadingSpace(t) == 0
    ensures LeadingSpace(u) == 0
  {
    if |u| >= 1 { assert u[..1] == t[..1]; }
    if |u| >= 2 { assert u[..2] == t[..2]; }
    if |u| >= 3 { assert u[..3] == t[..3]; }
  }

  lemma {:induction false} TrimEndFacts(s: Bytes)
    ensures TrimEnd(s) <= s && TrailingSpace(TrimEnd(s)) == 0
    decreases |s|
  {
    if TrailingSpace(s) > 0 { TrimEndFacts(s[..|s| - TrailingSpace(s)]); }
  }

  lemma {:induction false} TrimLeftFacts(s: Bytes)
    ensures |TrimLeft(s)| <= |s| && LeadingSpace(TrimLeft(s)) == 0 && (NL !in s ==> NL !in TrimLeft(s))
    decreases |s|
  {
    if LeadingSpace(s) > 0 { TrimLeftFacts(s[LeadingSpace(s)..]); }
  }

  lemma NoTrailingBreak(t: Bytes)
    requires TrailingSpace(t) == 0
    ensures TrimRight(t) == t
  {
    if t != [] { assert t[|t| - 1..] == [t[|t| - 1]] && !IsSpace([t[|t| - 1]]); }
  }

  lemma TextSurvives(body: Bytes)
    requires |body| <= MAX_BODY && TrimSpace(HeadText(body)) != []
    ensures Survives(TrimSpace(HeadText(body)))
  {
    var text := HeadText(body);
    var t := TrimSpace(text);
    LineLengthFacts(body);
    assert NL !in text;
    TrimLeftFacts(text);
    TrimEndFacts(TrimLeft(text));
    NoTrailingBreak(t);
    forall i | 0 <= i < |t| ensures t[i] != NL { assert t[i] == TrimLeft(text)[i]; }
  }

  lemma SurviveConcat(a: seq<Bytes>, b: seq<Bytes>)
    requires AllSurvive(a) && AllSurvive(b)
    ensures AllSurvive(a + b)
  {
  }

  /** Every event of a body of at most 2^20 bytes survives the log. */
  lemma {:induction false} EventsSurvive(body: Bytes)
    requires |body| <= MAX_BODY
    ensures AllSurvive(EventLines(body))
  {
    if body != [] {
      var line, rest := TrimSpace(HeadText(body)), body[LineLength(body)..];
      EventsSurvive(rest);
      if line != [] { TextSurvives(body); }
      SurviveConcat(NonEmpty(line), EventLines(rest));
    }
  }
}
