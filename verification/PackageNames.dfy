/** `_normalise` of scripts/depcheck_input.py and the equivalence of names it decides (PEP 503, "Normalized Names"). */
module PackageNames {
  import opened Text

  predicate IsSeparator(c: char) {
    c == '-' || c == '_' || c == '.'
  }

  predicate StartsWithSeparator(s: string) {
    s != "" && IsSeparator(s[0])
  }

  /** `re.sub(r"[-_.]+", "-", name)`: the last separator of a run becomes the hyphen, the others vanish. */
  function Collapse(s: string): string {
    if s == "" then ""
    else if IsSeparator(s[0]) then (if StartsWithSeparator(s[1..]) then "" else "-") + Collapse(s[1..])
    else [s[0]] + Collapse(s[1..])
  }

  function Normalise(name: string): string {
    Lower(Collapse(name))
  }

  lemma NormaliseCons(c: char, s: string)
    ensures Normalise([c] + s)
            == if IsSeparator(c) then (if StartsWithSeparator(s) then Normalise(s) else "-" + Normalise(s))
               else [LowerChar(c)] + Normalise(s)
  {
    assert ([c] + s)[1..] == s;
    if IsSeparator(c) {
      if StartsWithSeparator(s) {
        assert "" + Collapse(s) == Collapse(s);
      } else {
        LowerConcat("-", Collapse(s));
        assert Lower("-") == "-";
      }
    } else {
      LowerConcat([c], Collapse(s));
      assert Lower([c]) == [LowerChar(c)];
    }
  }

  // ---------------------------------------------------------------- names that differ in case and separator runs

  /** A capital becomes small, a separator is replaced by another, or a separator is doubled. */
  ghost predicate Respelled(x: string, y: string) {
    || (|x| == 1 && |y| == 1 && 'A' <= x[0] <= 'Z' && y[0] == x[0] - 'A' + 'a')
    || (|x| == 1 && |y| == 1 && x[0] in {'-', '_', '.'} && y[0] in {'-', '_', '.'})
    || (|x| == 1 && |y| == 2 && x[0] in {'-', '_', '.'} && y[0] in {'-', '_', '.'} && y[1] in {'-', '_', '.'})
  }

  ghost predicate Respelling(a: string, b: string) {
    exists before, x, y, after {:trigger before + x + after, before + y + after} ::
      a == before + x + after && b == before + y + after && Respelled(x, y)
  }

  predicate Route(path: seq<string>, a: string, b: string) {
    path != [] && path[0] == a && path[|path| - 1] == b
  }

  ghost predicate Respellings(path: seq<string>) {
    forall i | 0 < i < |path| :: Respelling(path[i - 1], path[i]) || Respelling(path[i], path[i - 1])
  }

  /** The smallest equivalence that contains every respelling. */
  ghost predicate SameName(a: string, b: string) {
    exists path :: Route(path, a, b) && Respellings(path)
  }

  // ---------------------------------------------------------------- respelling does not change the normal form

  lemma RespelledHead(x: string, y: string, s: string)
    requires Respelled(x, y)
    ensures Normalise(x + s) == Normalise(y + s) && StartsWithSeparator(x + s) == StartsWithSeparator(y + s)
  {
    hide Normalise;
    assert x == [x[0]];
    NormaliseCons(x[0], s);
    if |y| == 1 {
      assert y == [y[0]];
      NormaliseCons(y[0], s);
    } else {
      assert y + s == [y[0]] + ([y[1]] + s);
      NormaliseCons(y[1], s);
      NormaliseCons(y[0], [y[1]] + s);
    }
  }

  lemma {:induction false} RespelledInside(before: string, x: string, y: string, after: string)
    requires Respelled(x, y)
    ensures Normalise(before + x + after) == Normalise(before + y + after)
    ensures StartsWithSeparator(before + x + after) == StartsWithSeparator(before + y + after)
  {
    if before == "" {
      assert before + x + after == x + after && before + y + after == y + after;
      RespelledHead(x, y, after);
    } else {
      var c, rest := before[0], before[1..];
      RespelledInside(rest, x, y, after);
      hide Normalise;
      assert before + x + after == [c] + (rest + x + after) && before + y + after == [c] + (rest + y + after);
      NormaliseCons(c, rest + x + after);
      NormaliseCons(c, rest + y + after);
    }
  }

  lemma {:induction false} PathKeepsNormalForm(path: seq<string>)
    requires path != [] && Respellings(path)
    ensures Normalise(path[0]) == Normalise(path[|path| - 1])
  {
    if |path| > 1 {
      var n := |path| - 1;
      PathKeepsNormalForm(path[..n]);
      hide Normalise;
      forall a, b | Respelling(a, b) ensures Normalise(a) == Normalise(b) {
        var before, x, y, after :| a == before + x + after && b == before + y + after && Respelled(x, y);
        RespelledInside(before, x, y, after);
      }
    }
  }

  // ---------------------------------------------------------------- every name can be respelled into its normal form

  lemma SameNameTransitive(a: string, b: string, c: string)
    requires SameName(a, b) && SameName(b, c)
    ensures SameName(a, c)
  {
    var p :| Route(p, a, b) && Respellings(p);
    var q :| Route(q, b, c) && Respellings(q);
    hide Respelling;
    var path := p + q[1..];
    forall i | 0 < i < |path| ensures Respelling(path[i - 1], path[i]) || Respelling(path[i], path[i - 1]) {
      if i >= |p| {
        assert path[i] == q[i - |p| + 1] && path[i - 1] == q[i - |p|];
      }
    }
    assert Route(path, a, c);
  }

  lemma OneRespelling(a: string, x: string, y: string, b: string)
    requires Respelled(x, y) && (a == x + b)
    ensures SameName(a, y + b) && SameName(y + b, a)
  {
    assert "" + x + b == a && "" + y + b == y + b;
    assert Respelling(a, y + b);
    assert Route([a, y + b], a, y + b) && Respellings([a, y + b]);
    assert Route([y + b, a], y + b, a) && Respellings([y + b, a]);
  }

  lemma SameNameReflexive(a: string)
    ensures SameName(a, a)
  {
    assert Route([a], a, a) && Respellings([a]);
  }

  lemma RespellingCons(c: char, a: string, b: string)
    requires Respelling(a, b)
    ensures Respelling([c] + a, [c] + b)
  {
    var before, x, y, after :| a == before + x + after && b == before + y + after && Respelled(x, y);
    hide Respelled;
    PrependAssociates(c, before, x, after);
    PrependAssociates(c, before, y, after);
  }

  lemma PrependAssociates(c: char, before: string, x: string, after: string)
    ensures [c] + (before + x + after) == ([c] + before) + x + after
  {
  }

  lemma SameNameCons(c: char, a: string, b: string)
    requires SameName(a, b)
    ensures SameName([c] + a, [c] + b)
  {
    var p :| Route(p, a, b) && Respellings(p);
    hide Respelling;
    var path := seq(|p|, i requires 0 <= i < |p| => [c] + p[i]);
    forall i | 0 < i < |path| ensures Respelling(path[i - 1], path[i]) || Respelling(path[i], path[i - 1]) {
      if Respelling(p[i - 1], p[i]) {
        RespellingCons(c, p[i - 1], p[i]);
      } else {
        RespellingCons(c, p[i], p[i - 1]);
      }
    }
    assert Route(path, [c] + a, [c] + b);
  }

  lemma NormalFormStart(s: string)
    requires StartsWithSeparator(s)
    ensures Normalise(s) != "" && Normalise(s)[0] == '-'
    decreases |s|
  {
    assert s == [s[0]] + s[1..];
    NormaliseCons(s[0], s[1..]);
    if StartsWithSeparator(s[1..]) {
      NormalFormStart(s[1..]);
    }
  }

  lemma {:induction false} ReachesNormalForm(s: string)
    ensures SameName(s, Normalise(s)) && SameName(Normalise(s), s)
  {
    if s == "" {
      SameNameReflexive("");
    } else {
      var c, rest := s[0], s[1..];
      var n := Normalise(rest);
      assert s == [c] + rest;
      ReachesNormalForm(rest);
      SameNameCons(c, rest, n);
      SameNameCons(c, n, rest);
      hide *;
      StepToNormalForm(c, rest);
      SameNameTransitive(s, [c] + n, Normalise(s));
      SameNameTransitive(Normalise(s), [c] + n, s);
    }
  }

  /** In front of a normal form one respelling at most is left. */
  lemma StepToNormalForm(c: char, rest: string)
    ensures SameName([c] + Normalise(rest), Normalise([c] + rest))
    ensures SameName(Normalise([c] + rest), [c] + Normalise(rest))
  {
    var n := Normalise(rest);
    NormaliseCons(c, rest);
    hide Normalise, SameName;
    if IsSeparator(c) && StartsWithSeparator(rest) {
      NormalFormStart(rest);
      assert n == ['-'] + n[1..] && [c] + n == [c, '-'] + n[1..];
      OneRespelling(n, ['-'], [c, '-'], n[1..]);
    } else if IsSeparator(c) || 'A' <= c <= 'Z' {
      OneRespelling([c] + n, [c], if IsSeparator(c) then "-" else [LowerChar(c)], n);
    } else {
      SameNameReflexive([c] + n);
    }
  }

  /** Normalisation identifies names exactly up to letter case and runs of separators. */
  lemma NormaliseDecidesSameName(a: string, b: string)
    ensures Normalise(a) == Normalise(b) <==> SameName(a, b)
  {
    if Normalise(a) == Normalise(b) {
      ReachesNormalForm(a);
      ReachesNormalForm(b);
      SameNameTransitive(a, Normalise(a), b);
    }
    if SameName(a, b) {
      var path :| Route(path, a, b) && Respellings(path);
      PathKeepsNormalForm(path);
    }
  }

  /** The normal form is the spelling of the name in small letters with single hyphens for separators. */
  lemma NormalFormIs(s: string)
    ensures var n := Normalise(s);
            && SameName(s, n)
            && (forall i | 0 <= i < |n| :: !('A' <= n[i] <= 'Z') && n[i] != '_' && n[i] != '.')
            && (forall i | 0 < i < |n| :: !(n[i - 1] == '-' && n[i] == '-'))
  {
    ReachesNormalForm(s);
    hide SameName;
    NormalFormShape(s);
  }

  lemma {:induction false} NormalFormShape(s: string)
    ensures var n := Normalise(s);
            && (forall i | 0 <= i < |n| :: !('A' <= n[i] <= 'Z') && n[i] != '_' && n[i] != '.')
            && (forall i | 0 < i < |n| :: !(n[i - 1] == '-' && n[i] == '-'))
            && (n != "" && n[0] == '-' ==> StartsWithSeparator(s))
  {
    if s != "" {
      var rest := s[1..];
      assert s == [s[0]] + rest;
      NormaliseCons(s[0], rest);
      NormalFormShape(rest);
      hide Normalise;
    }
  }

  /** A normal form is its own normal form. */
  lemma NormaliseIdempotent(s: string)
    ensures Normalise(Normalise(s)) == Normalise(s)
  {
    ReachesNormalForm(s);
    NormaliseDecidesSameName(s, Normalise(s));
  }

  lemma {:induction false} NormaliseKeepsOthers(s: string, c: char)
    requires !IsSeparator(c) && LowerChar(c) == c && UpperChar(c) == c
    ensures c in Normalise(s) <==> c in s
  {
    if s != "" {
      assert s == [s[0]] + s[1..];
      NormaliseCons(s[0], s[1..]);
      NormaliseKeepsOthers(s[1..], c);
    }
  }
}
