/** Decimal numbers and JSON Pointer text (sections 3 and 4 of RFC 6901). */
module Text {
  import opened Events

  // ---------- decimal ----------

  predicate IsDigit(c: char) { '0' <= c <= '9' }

  function DigitValue(c: char): nat
    requires IsDigit(c)
  {
    c as int - '0' as int
  }

  function DigitChar(d: nat): (c: char)
    requires d < 10
    ensures IsDigit(c) && DigitValue(c) == d
  {
    ('0' as int + d) as char
  }

  function Itoa(n: nat): (s: string)
    ensures s != [] && forall i :: 0 <= i < |s| ==> IsDigit(s[i])
  {
    if n < 10 then [DigitChar(n)] else Itoa(n / 10) + [DigitChar(n % 10)]
  }

  /** A non-empty run of digits. */
  function ParseDigits(s: string): Option<nat> {
    if s == [] || !IsDigit(s[|s| - 1]) then None
    else if |s| == 1 then Some(DigitValue(s[0]))
    else
      match ParseDigits(s[..|s| - 1])
      case None => None
      case Some(high) => Some(high * 10 + DigitValue(s[|s| - 1]))
  }

  /** strconv.Atoi without its range check: an optional sign and digits. */
  function Atoi(s: string): Option<int> {
    if s == [] then None
    else if s[0] == '+' || s[0] == '-' then
      match ParseDigits(s[1..])
      case None => None
      case Some(n) => Some(if s[0] == '-' then 0 - n else n)
    else
      match ParseDigits(s)
      case None => None
      case Some(n) => Some(n)
  }

  lemma {:induction false} DigitsRoundTrip(n: nat)
    ensures ParseDigits(Itoa(n)) == Some(n)
  {
    if n >= 10 {
      DigitsRoundTrip(n / 10);
      assert Itoa(n)[..|Itoa(n)| - 1] == Itoa(n / 10);
    }
  }

  lemma AtoiRoundTrip(n: nat)
    ensures Atoi(Itoa(n)) == Some(n)
  {
    DigitsRoundTrip(n);
    assert IsDigit(Itoa(n)[0]);
  }

  lemma {:induction false} DigitsOnly(s: string)
    requires ParseDigits(s).Some?
    ensures s != [] && forall i :: 0 <= i < |s| ==> IsDigit(s[i])
  {
    if |s| > 1 { DigitsOnly(s[..|s| - 1]); }
  }

  /** A sign counts, and only an optional sign and digits are read. */
  lemma AtoiSigned(n: nat, s: string)
    ensures Atoi("-" + Itoa(n)) == Some(0 - n) && Atoi("+" + Itoa(n)) == Some(n)
    ensures Atoi(s).Some? ==>
      && s != [] && (s[0] in "+-" || IsDigit(s[0])) && (s[0] in "+-" ==> |s| > 1)
      && forall i :: 0 < i < |s| ==> IsDigit(s[i])
  {
    DigitsRoundTrip(n);
    assert ("-" + Itoa(n))[1..] == Itoa(n) && ("+" + Itoa(n))[1..] == Itoa(n);
    if Atoi(s).Some? {
      if s[0] == '+' || s[0] == '-' {
        DigitsOnly(s[1..]);
        assert forall i :: 0 < i < |s| ==> s[i] == s[1..][i - 1];
      } else {
        DigitsOnly(s);
      }
    }
  }

  // ---------- escaping ----------

  /** strings.ReplaceAll of one character. */
  function ReplaceChar(s: string, c: char, sub: string): string {
    if s == [] then [] else (if s[0] == c then sub else [s[0]]) + ReplaceChar(s[1..], c, sub)
  }

  /** strings.ReplaceAll of a two-character text, leftmost first. */
  function ReplacePair(s: string, a: char, b: char, sub: char): string {
    if s == [] then []
    else if |s| >= 2 && s[0] == a && s[1] == b then [sub] + ReplacePair(s[2..], a, b, sub)
    else [s[0]] + ReplacePair(s[1..], a, b, sub)
  }

  function Escape(s: string): string { ReplaceChar(ReplaceChar(s, '~', "~0"), '/', "~1") }

  function Unescape(s: string): string { ReplacePair(ReplacePair(s, '~', '1', '/'), '~', '0', '~') }

  lemma {:induction false} UnslashTilde(s: string)
    ensures ReplacePair(Escape(s), '~', '1', '/') == ReplaceChar(s, '~', "~0")
  {
    if s != [] {
      var rest := s[1..];
      UnslashTilde(rest);
      var t := ReplaceChar(rest, '~', "~0");
      if s[0] == '~' {
        assert ReplaceChar(s, '~', "~0") == ['~', '0'] + t;
        assert ['~', '0'] + t == ['~'] + (['0'] + t);
        EscapeCons('~', ['0'] + t);
        EscapeCons('0', t);
        assert Escape(s) == ['~'] + (['0'] + Escape(rest));
        assert (['~'] + (['0'] + Escape(rest)))[1..] == ['0'] + Escape(rest);
        assert (['0'] + Escape(rest))[1..] == Escape(rest);
      } else {
        assert ReplaceChar(s, '~', "~0") == [s[0]] + t;
        EscapeCons(s[0], t);
        if s[0] == '/' {
          assert (['~', '1'] + Escape(rest))[2..] == Escape(rest);
        } else {
          assert ([s[0]] + Escape(rest))[1..] == Escape(rest);
        }
      }
    }
  }

  lemma EscapeCons(c: char, t: string)
    ensures ReplaceChar([c] + t, '/', "~1") == (if c == '/' then ['~', '1'] else [c]) + ReplaceChar(t, '/', "~1")
  {
    assert ([c] + t)[1..] == t;
  }

  lemma {:induction false} Untilde(s: string)
    ensures ReplacePair(ReplaceChar(s, '~', "~0"), '~', '0', '~') == s
  {
    if s != [] {
      Untilde(s[1..]);
      var t := ReplaceChar(s[1..], '~', "~0");
      if s[0] == '~' { assert (['~', '0'] + t)[2..] == t; } else { assert ([s[0]] + t)[1..] == t; }
    }
  }

  /** Section 4 of RFC 6901: decoding undoes encoding for every key. */
  lemma EscapeRoundTrip(s: string)
    ensures Unescape(Escape(s)) == s
  {
    UnslashTilde(s);
    Untilde(s);
  }

  lemma {:induction false} EscapeNoSlash(s: string)
    ensures '/' !in Escape(s)
  {
    EscapedNoSlash(ReplaceChar(s, '~', "~0"));
  }

  lemma {:induction false} EscapedNoSlash(t: string)
    ensures '/' !in ReplaceChar(t, '/', "~1")
  {
    if t != [] { EscapedNoSlash(t[1..]); }
  }

  // ---------- pointers ----------

  /** strings.Split on a slash. */
  function Split(s: string): (r: seq<string>)
    ensures r != []
  {
    if s == [] then [[]]
    else
      var r := Split(s[1..]);
      if s[0] == '/' then [[]] + r else [[s[0]] + r[0]] + r[1..]
  }

  /** The pointer of a path: a slash and the escaped token, for each token. */
  function Pointer(tokens: seq<string>): string {
    if tokens == [] then "" else ['/'] + Escape(tokens[0]) + Pointer(tokens[1..])
  }

  function UnescapeAll(ts: seq<string>): seq<string> {
    if ts == [] then [] else [Unescape(ts[0])] + UnescapeAll(ts[1..])
  }

  lemma SplitCons(c: char, s: string)
    requires c != '/'
    ensures Split([c] + s) == [[c] + Split(s)[0]] + Split(s)[1..]
  {
    assert ([c] + s)[1..] == s;
  }

  lemma {:induction false} SplitWord(w: string, rest: string)
    requires '/' !in w && (rest == [] || rest[0] == '/')
    ensures Split(w + rest) == [w] + (if rest == [] then [] else Split(rest[1..]))
  {
    if w == [] {
      assert w + rest == rest;
    } else {
      SplitWord(w[1..], rest);
      SplitCons(w[0], w[1..] + rest);
      assert w + rest == [w[0]] + (w[1..] + rest);
      assert w == [w[0]] + w[1..];
    }
  }

  lemma PointerShape(tokens: seq<string>)
    ensures Pointer(tokens) == [] <==> tokens == []
    ensures tokens != [] ==> Pointer(tokens)[0] == '/'
  {
  }

  function EscapeAll(ts: seq<string>): seq<string> {
    if ts == [] then [] else [Escape(ts[0])] + EscapeAll(ts[1..])
  }

  lemma {:induction false} SplitPointer(tokens: seq<string>)
    requires tokens != []
    ensures Pointer(tokens) != [] && Split(Pointer(tokens)[1..]) == EscapeAll(tokens)
  {
    PointerTail(tokens);
    var word, rest := Escape(tokens[0]), Pointer(tokens[1..]);
    assert '/' !in word by { EscapeNoSlash(tokens[0]); }
    SplitWord(word, rest);
    if tokens[1..] != [] { SplitPointer(tokens[1..]); }
  }

  lemma PointerTail(tokens: seq<string>)
    requires tokens != []
    ensures Pointer(tokens)[1..] == Escape(tokens[0]) + Pointer(tokens[1..])
    ensures Pointer(tokens[1..]) == [] <==> tokens[1..] == []
    ensures Pointer(tokens[1..]) != [] ==> Pointer(tokens[1..])[0] == '/'
  {
    PointerShape(tokens[1..]);
  }

  lemma {:induction false} UnescapeEscapeAll(tokens: seq<string>)
    ensures UnescapeAll(EscapeAll(tokens)) == tokens
  {
    if tokens != [] {
      EscapeRoundTrip(tokens[0]);
      UnescapeEscapeAll(tokens[1..]);
      assert EscapeAll(tokens)[1..] == EscapeAll(tokens[1..]);
    }
  }

  /** Splitting and decoding a pointer gives back its tokens. */
  lemma PointerRoundTrip(tokens: seq<string>)
    requires tokens != []
    ensures Pointer(tokens) != [] && UnescapeAll(Split(Pointer(tokens)[1..])) == tokens
  {
    SplitPointer(tokens);
    UnescapeEscapeAll(tokens);
  }
}
