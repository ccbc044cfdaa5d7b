/** The literal search of app/routers/invoices.py: `_escape_like` and what its pattern means to the database. */
module LikeSearch {
  import opened Prelude

  // ---------------------------------------------------------------- escaping

  /** `str.replace` with a one-character needle. */
  function Replace(s: string, needle: char, repl: string): string {
    if s == "" then ""
    else (if s[0] == needle then repl else [s[0]]) + Replace(s[1..], needle, repl)
  }

  /** `_escape_like`: three replacements, one after the other, the backslash first. */
  function EscapeLike(term: string): string {
    Replace(Replace(Replace(term, '\\', "\\\\"), '%', "\\%"), '_', "\\_")
  }

  predicate Special(c: char) {
    c == '\\' || c == '%' || c == '_'
  }

  function QuoteChar(c: char): string {
    if Special(c) then ['\\', c] else [c]
  }

  /** The reference: one pass that puts a backslash before every special character. */
  function Quote(s: string): string {
    if s == "" then "" else QuoteChar(s[0]) + Quote(s[1..])
  }

  lemma {:induction false} ReplaceConcat(a: string, b: string, needle: char, repl: string)
    ensures Replace(a + b, needle, repl) == Replace(a, needle, repl) + Replace(b, needle, repl)
  {
    if a == "" {
      assert a + b == b;
    } else {
      ReplaceConcat(a[1..], b, needle, repl);
      assert (a + b)[1..] == a[1..] + b;
      var head := if a[0] == needle then repl else [a[0]];
      hide Replace;
      assert head + (Replace(a[1..], needle, repl) + Replace(b, needle, repl))
          == (head + Replace(a[1..], needle, repl)) + Replace(b, needle, repl);
    }
  }

  lemma ReplaceOne(c: char, needle: char, repl: string)
    ensures Replace([c], needle, repl) == if c == needle then repl else [c]
  {
    assert [c][1..] == "";
  }

  lemma ReplaceTwo(c: char, d: char, needle: char, repl: string)
    ensures Replace([c, d], needle, repl)
            == (if c == needle then repl else [c]) + (if d == needle then repl else [d])
  {
    assert [c, d] == [c] + [d];
    ReplaceConcat([c], [d], needle, repl);
    ReplaceOne(c, needle, repl);
    ReplaceOne(d, needle, repl);
  }

  lemma EscapeOne(c: char)
    ensures EscapeLike([c]) == QuoteChar(c)
  {
    hide Replace;
    ReplaceOne(c, '\\', "\\\\");
    ReplaceOne(c, '%', "\\%");
    ReplaceOne(c, '_', "\\_");
    ReplaceTwo('\\', '\\', '%', "\\%");
    ReplaceTwo('\\', '\\', '_', "\\_");
    ReplaceTwo('\\', '%', '_', "\\_");
    assert "\\\\" == ['\\', '\\'] && "\\%" == ['\\', '%'] && "\\_" == ['\\', '_'];
    assert ['\\'] + ['\\'] == ['\\', '\\'] && ['\\'] + ['%'] == ['\\', '%'];
  }

  lemma EscapeConcat(a: string, b: string)
    ensures EscapeLike(a + b) == EscapeLike(a) + EscapeLike(b)
  {
    hide Replace;
    ReplaceConcat(a, b, '\\', "\\\\");
    var a1, b1 := Replace(a, '\\', "\\\\"), Replace(b, '\\', "\\\\");
    ReplaceConcat(a1, b1, '%', "\\%");
    ReplaceConcat(Replace(a1, '%', "\\%"), Replace(b1, '%', "\\%"), '_', "\\_");
  }

  /** No replacement disturbs what an earlier one inserted: the three passes equal the single one. */
  lemma {:induction false} EscapeIsQuote(s: string)
    ensures EscapeLike(s) == Quote(s)
  {
    if s != "" {
      assert s == [s[0]] + s[1..];
      EscapeConcat([s[0]], s[1..]);
      EscapeOne(s[0]);
      EscapeIsQuote(s[1..]);
    }
  }

  // ---------------------------------------------------------------- LIKE with ESCAPE '\'

  datatype Token = Literal(c: char) | AnyChar | AnyString

  datatype Tokens = Parsed(tokens: seq<Token>) | InvalidEscape

  /** Section 8.5 of ISO/IEC 9075-2: the escape character must precede a wildcard or itself. */
  function Tokenize(p: string): Tokens {
    if p == "" then Parsed([])
    else if p[0] == '\\' then
      if |p| >= 2 && Special(p[1]) then
        match Tokenize(p[2..])
        case Parsed(ts) => Parsed([Literal(p[1])] + ts)
        case InvalidEscape => InvalidEscape
      else InvalidEscape
    else
      match Tokenize(p[1..])
      case Parsed(ts) =>
        Parsed([if p[0] == '%' then AnyString else if p[0] == '_' then AnyChar else Literal(p[0])] + ts)
      case InvalidEscape => InvalidEscape
  }

  predicate Matches(s: string, ts: seq<Token>)
    decreases |ts| + |s|
  {
    if ts == [] then s == ""
    else
      match ts[0]
      case Literal(c) => s != "" && s[0] == c && Matches(s[1..], ts[1..])
      case AnyChar => s != "" && Matches(s[1..], ts[1..])
      case AnyString => Matches(s, ts[1..]) || (s != "" && Matches(s[1..], ts))
  }

  predicate Like(s: string, pattern: string) {
    var t := Tokenize(pattern);
    t.Parsed? && Matches(s, t.tokens)
  }

  function Literals(s: string): seq<Token> {
    seq(|s|, i requires 0 <= i < |s| => Literal(s[i]))
  }

  /** The text a pattern of literals stands for. */
  function Unescape(p: string): (r: string) {
    var t := Tokenize(p);
    if t.Parsed? then Texts(t.tokens) else ""
  }

  function Texts(ts: seq<Token>): string {
    if ts == [] then "" else (if ts[0].Literal? then [ts[0].c] else "") + Texts(ts[1..])
  }

  lemma TokenizeQuotedChar(c: char, tail: string)
    requires Tokenize(tail).Parsed?
    ensures Tokenize(QuoteChar(c) + tail) == Parsed([Literal(c)] + Tokenize(tail).tokens)
  {
    var p := QuoteChar(c) + tail;
    assert p[|QuoteChar(c)|..] == tail;
  }

  lemma {:induction false} TokenizeQuoted(s: string, tail: string)
    requires Tokenize(tail).Parsed?
    ensures Tokenize(Quote(s) + tail) == Parsed(Literals(s) + Tokenize(tail).tokens)
  {
    if s == "" {
      assert Quote(s) + tail == tail && Literals(s) + Tokenize(tail).tokens == Tokenize(tail).tokens;
    } else {
      var c, quoted, text, rest := QuoteChar(s[0]), Quote(s[1..]), Literals(s[1..]), Tokenize(tail).tokens;
      assert Quote(s) == c + quoted;
      hide *;
      TokenizeQuoted(s[1..], tail);
      TokenizeQuotedChar(s[0], quoted + tail);
      LiteralsCons(s);
      Associative(c, quoted, tail);
      Associative([Literal(s[0])], text, rest);
    }
  }

  lemma LiteralsCons(s: string)
    requires s != ""
    ensures Literals(s) == [Literal(s[0])] + Literals(s[1..])
  {
  }

  lemma {:induction false} TextsOfLiterals(s: string)
    ensures Texts(Literals(s)) == s
  {
    if s != "" {
      assert Literals(s)[1..] == Literals(s[1..]);
      TextsOfLiterals(s[1..]);
    }
  }

  /** Escaping round trip: no wildcard stays active, no escape dangles, and unescaping gives the term back. */
  lemma EscapeRoundTrip(q: string)
    ensures Tokenize(EscapeLike(q)) == Parsed(Literals(q))
    ensures Unescape(EscapeLike(q)) == q
  {
    EscapeIsQuote(q);
    assert Quote(q) + "" == Quote(q) && Literals(q) + [] == Literals(q);
    TokenizeQuoted(q, "");
    TextsOfLiterals(q);
  }

  // ---------------------------------------------------------------- what the search pattern means

  /** The pattern of `search_invoices`. */
  function SearchPattern(q: string): string {
    "%" + EscapeLike(q) + "%"
  }

  /** q occurs in s as a contiguous literal substring. */
  predicate Contains(s: string, q: string) {
    exists i | 0 <= i <= |s| :: q <= s[i..]
  }

  lemma {:induction false} MatchesAnything(s: string)
    ensures Matches(s, [AnyString])
  {
    if s != "" {
      MatchesAnything(s[1..]);
    }
  }

  lemma {:induction false} LiteralsThenAnything(s: string, q: string)
    ensures Matches(s, Literals(q) + [AnyString]) <==> q <= s
  {
    var ts := Literals(q) + [AnyString];
    if q == "" {
      assert ts == [AnyString];
      MatchesAnything(s);
    } else {
      assert ts[1..] == Literals(q[1..]) + [AnyString];
      if s != "" {
        LiteralsThenAnything(s[1..], q[1..]);
        assert q <= s <==> q[0] == s[0] && q[1..] <= s[1..];
      }
    }
  }

  lemma {:induction false} AnywhereMatches(s: string, q: string)
    ensures Matches(s, [AnyString] + (Literals(q) + [AnyString])) <==> Contains(s, q)
    decreases |s|
  {
    var ts := Literals(q) + [AnyString];
    assert ([AnyString] + ts)[1..] == ts;
    LiteralsThenAnything(s, q);
    assert s[0..] == s;
    if s != "" {
      AnywhereMatches(s[1..], q);
      if Contains(s[1..], q) {
        var i :| 0 <= i <= |s[1..]| && q <= s[1..][i..];
        assert s[1..][i..] == s[i + 1..];
      }
      if Contains(s, q) && !(q <= s) {
        var i :| 0 <= i <= |s| && q <= s[i..];
        assert s[i..] == s[1..][i - 1..];
      }
    }
  }

  lemma PatternTokens(q: string)
    ensures Tokenize(SearchPattern(q)) == Parsed([AnyString] + (Literals(q) + [AnyString]))
  {
    EscapeIsQuote(q);
    assert Tokenize("%") == Parsed([AnyString]) by { assert "%"[1..] == ""; }
    TokenizeQuoted(q, "%");
    assert SearchPattern(q)[1..] == Quote(q) + "%";
  }

  /** The search is exact: whatever wildcards or backslashes q holds, it matches as literal text only. */
  lemma SearchIsExact(s: string, q: string)
    ensures Like(s, SearchPattern(q)) <==> Contains(s, q)
  {
    PatternTokens(q);
    AnywhereMatches(s, q);
  }

  // ---------------------------------------------------------------- why the term is escaped

  /** A text that the tokens match: one character for each token but the strings. */
  function Instance(ts: seq<Token>): string {
    if ts == [] then ""
    else
      match ts[0]
      case Literal(c) => [c] + Instance(ts[1..])
      case AnyChar => "x" + Instance(ts[1..])
      case AnyString => Instance(ts[1..])
  }

  lemma {:induction false} InstanceMatches(ts: seq<Token>)
    ensures Matches(Instance(ts), ts)
  {
    if ts != [] {
      InstanceMatches(ts[1..]);
      var rest := Instance(ts[1..]);
      match ts[0]
      case Literal(c) => assert ([c] + rest)[1..] == rest;
      case AnyChar => assert ("x" + rest)[1..] == rest;
      case AnyString =>
    }
  }

  ghost predicate HasSpecial(q: string) {
    exists i | 0 <= i < |q| :: q[i] in {'\\', '%', '_'}
  }

  /** A special character left as it is makes the pattern match a text no longer than the term and unlike it. */
  lemma {:induction false} InstanceDiffers(q: string)
    requires Tokenize(q + "%").Parsed?
    ensures var s := Instance(Tokenize(q + "%").tokens);
            |s| <= |q| && (HasSpecial(q) ==> s != q)
  {
    var p := q + "%";
    if q == "" {
      assert p == "%" && "%"[1..] == "";
    } else if q[0] == '\\' {
      if |q| == 1 {
        assert p == ['\\', '%'] && p[2..] == "";
      } else {
        assert p[2..] == q[2..] + "%" && p[1] == q[1];
        InstanceDiffers(q[2..]);
      }
    } else {
      assert p[0] == q[0] && p[1..] == q[1..] + "%";
      InstanceDiffers(q[1..]);
      assert q == [q[0]] + q[1..];
      assert HasSpecial(q) ==> q[0] in {'%', '_'} || HasSpecial(q[1..]);
    }
  }

  /** Without escaping the search is exact if and only if the term has no special character. */
  lemma EscapingNeededIff(q: string)
    ensures (forall s :: Like(s, "%" + q + "%") <==> Contains(s, q)) <==> !HasSpecial(q)
  {
    var p := "%" + q + "%";
    if HasSpecial(q) {
      assert p[1..] == q + "%";
      if Tokenize(q + "%").Parsed? {
        InstanceDiffers(q);
        var ts := Tokenize(q + "%").tokens;
        var s := Instance(ts);
        InstanceMatches(ts);
        assert ([AnyString] + ts)[1..] == ts;
        assert Like(s, p) && !Contains(s, q);
      } else {
        assert q[0..] == q;
        assert !Like(q, p) && Contains(q, q);
      }
    } else {
      QuoteOfPlain(q);
      EscapeIsQuote(q);
      forall s ensures Like(s, p) <==> Contains(s, q) {
        SearchIsExact(s, q);
      }
    }
  }

  lemma {:induction false} QuoteOfPlain(q: string)
    requires !HasSpecial(q)
    ensures Quote(q) == q
  {
    if q != "" {
      assert q == [q[0]] + q[1..];
      QuoteOfPlain(q[1..]);
    }
  }

  // ---------------------------------------------------------------- ILIKE

  function Fold(s: string, lower: char -> char): string {
    seq(|s|, i requires 0 <= i < |s| => lower(s[i]))
  }

  /** The fold leaves the three special characters alone and maps nothing else onto them. */
  ghost predicate KeepsSpecials(lower: char -> char) {
    forall c: char :: if Special(c) then lower(c) == c else !Special(lower(c))
  }

  /** `ilike`: both sides are folded before matching. */
  predicate ILike(s: string, pattern: string, lower: char -> char) {
    Like(Fold(s, lower), Fold(pattern, lower))
  }

  lemma {:induction false} FoldQuote(q: string, lower: char -> char)
    requires KeepsSpecials(lower)
    ensures Fold(Quote(q), lower) == Quote(Fold(q, lower))
  {
    if q != "" {
      FoldQuote(q[1..], lower);
      assert Fold(q, lower)[1..] == Fold(q[1..], lower);
      FoldConcat(QuoteChar(q[0]), Quote(q[1..]), lower);
      assert Fold(QuoteChar(q[0]), lower) == QuoteChar(lower(q[0]));
      hide Fold, QuoteChar;
    }
  }

  lemma FoldConcat(a: string, b: string, lower: char -> char)
    ensures Fold(a + b, lower) == Fold(a, lower) + Fold(b, lower)
  {
  }

  ghost predicate OccursAt(s: string, q: string, lower: char -> char, i: nat) {
    i + |q| <= |s| && forall j | 0 <= j < |q| :: lower(s[i + j]) == lower(q[j])
  }

  /** At some place all characters of the term stand in the text one after the other, up to case. */
  ghost predicate Occurs(s: string, q: string, lower: char -> char) {
    exists i: nat :: OccursAt(s, q, lower, i)
  }

  lemma OccursIff(s: string, q: string, lower: char -> char)
    ensures Occurs(s, q, lower) <==> Contains(Fold(s, lower), Fold(q, lower))
  {
    var s', q' := Fold(s, lower), Fold(q, lower);
    if Contains(s', q') {
      var i :| 0 <= i <= |s'| && q' <= s'[i..];
      forall j | 0 <= j < |q| ensures lower(s[i + j]) == lower(q[j]) {
        assert q'[j] == s'[i..][j];
      }
      assert OccursAt(s, q, lower, i);
    }
    if i: nat :| OccursAt(s, q, lower, i) {
      assert s'[i..][..|q'|] == q';
    }
  }

  /** Case-insensitive search is exact up to the fold. */
  lemma ISearchIsExact(s: string, q: string, lower: char -> char)
    requires KeepsSpecials(lower)
    ensures ILike(s, SearchPattern(q), lower) <==> Occurs(s, q, lower)
  {
    OccursIff(s, q, lower);
    EscapeIsQuote(q);
    EscapeIsQuote(Fold(q, lower));
    FoldQuote(q, lower);
    assert Fold("%", lower) == "%" by { assert lower('%') == '%'; }
    FoldConcat("%" + EscapeLike(q), "%", lower);
    FoldConcat("%", EscapeLike(q), lower);
    assert Fold(SearchPattern(q), lower) == SearchPattern(Fold(q, lower)) by { hide Fold; }
    SearchIsExact(Fold(s, lower), Fold(q, lower));
  }
}
