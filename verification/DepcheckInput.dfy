/** `extract` and `verify` of scripts/depcheck_input.py: every pin must have been analysed. */
module DepcheckInput {
  import opened Prelude
  import opened Text
  import opened PackageNames

  datatype Pin = Pin(name: string, version: string)

  // ---------------------------------------------------------------- pins

  predicate IsAlnum(c: char) {
    'a' <= c <= 'z' || 'A' <= c <= 'Z' || '0' <= c <= '9'
  }

  predicate IsNameChar(c: char) {
    IsAlnum(c) || IsSeparator(c)
  }

  predicate IsVersionChar(c: char) {
    !IsSpace(c) && c != ';' && c != '\\'
  }

  function NameLength(s: string): (n: nat)
    ensures n <= |s| && forall i | 0 <= i < n :: IsNameChar(s[i])
  {
    if s != "" && IsNameChar(s[0]) then 1 + NameLength(s[1..]) else 0
  }

  function VersionLength(s: string): (n: nat)
    ensures n <= |s| && forall i | 0 <= i < n :: IsVersionChar(s[i])
  {
    if s != "" && IsVersionChar(s[0]) then 1 + VersionLength(s[1..]) else 0
  }

  /** `_PIN.match`: no name character is '=', so the longest name is the only candidate. */
  function MatchPin(line: string): Option<Pin> {
    var n := NameLength(line);
    if n == 0 || !IsAlnum(line[0]) || !("==" <= line[n..]) then None
    else
      var v := VersionLength(line[n + 2..]);
      if v == 0 then None else Some(Pin(line[..n], line[n + 2..n + 2 + v]))
  }

  /** Letters, digits, '_', '.' and '-', and the first a letter or digit. */
  ghost predicate IsName(s: string) {
    && s != "" && s[0] != '_' && s[0] != '.' && s[0] != '-'
    && forall i | 0 <= i < |s| ::
         || 'a' <= s[i] <= 'z' || 'A' <= s[i] <= 'Z' || '0' <= s[i] <= '9'
         || s[i] == '_' || s[i] == '.' || s[i] == '-'
  }

  /** White space, a semicolon or a backslash. */
  ghost predicate EndsVersion(c: char) {
    c as int in {9, 10, 11, 12, 13, 28, 29, 30, 31, 32} || c == ';' || c == '\\'
  }

  /** The line is name, "==" and version, and then nothing or something no version goes on with. */
  ghost predicate PinLine(line: string, p: Pin, rest: string) {
    && line == p.name + "==" + p.version + rest
    && IsName(p.name)
    && p.version != "" && (forall i | 0 <= i < |p.version| :: !EndsVersion(p.version[i]))
    && (rest != "" ==> EndsVersion(rest[0]))
  }

  /** `_PIN` matches exactly the pin lines, and takes the whole name and the whole version. */
  lemma MatchPinIs(line: string, p: Pin)
    ensures MatchPin(line) == Some(p) <==> exists rest :: PinLine(line, p, rest)
  {
    if MatchPin(line) == Some(p) {
      MatchedLine(line);
    }
    if rest :| PinLine(line, p, rest) {
      LineMatches(line, p, rest);
    }
  }

  lemma {:induction false} NameLengthAt(s: string, n: nat)
    requires n <= |s| && (forall i | 0 <= i < n :: IsNameChar(s[i])) && (n < |s| ==> !IsNameChar(s[n]))
    ensures NameLength(s) == n
  {
    if n > 0 {
      NameLengthAt(s[1..], n - 1);
    }
  }

  lemma {:induction false} VersionLengthAt(s: string, n: nat)
    requires n <= |s| && (forall i | 0 <= i < n :: IsVersionChar(s[i])) && (n < |s| ==> !IsVersionChar(s[n]))
    ensures VersionLength(s) == n
  {
    if n > 0 {
      VersionLengthAt(s[1..], n - 1);
    }
  }

  lemma {:induction false} VersionLengthIsWhole(s: string)
    ensures VersionLength(s) < |s| ==> !IsVersionChar(s[VersionLength(s)])
  {
    if s != "" {
      VersionLengthIsWhole(s[1..]);
    }
  }

  lemma LineMatches(line: string, p: Pin, rest: string)
    requires PinLine(line, p, rest)
    ensures MatchPin(line) == Some(p)
  {
    var n := |p.name|;
    Slices(p.name, "==", p.version, rest);
    NameIs(p.name);
    VersionCharIs();
    hide IsName, IsVersionChar, EndsVersion, NameLength, VersionLength;
    assert forall i | 0 <= i < n :: line[i] == p.name[i];
    assert line[n] == '=';
    NameLengthAt(line, n);
    VersionLengthAt(line[n + 2..], |p.version|);
    hide IsNameChar;
  }

  lemma Slices(a: string, b: string, c: string, d: string)
    ensures var s := a + b + c + d;
            && s[..|a|] == a && s[|a|..] == b + c + d
            && s[|a| + |b|..] == c + d && s[|a| + |b|..|a| + |b| + |c|] == c
  {
  }

  lemma VersionCharIs()
    ensures forall c :: IsVersionChar(c) <==> !EndsVersion(c)
  {
  }

  lemma NameIs(s: string)
    ensures IsName(s) <==> s != "" && IsAlnum(s[0]) && forall i | 0 <= i < |s| :: IsNameChar(s[i])
  {
  }

  lemma MatchedLine(line: string)
    requires MatchPin(line).Some?
    ensures exists rest :: PinLine(line, MatchPin(line).value, rest)
  {
    var n := NameLength(line);
    var tail := line[n + 2..];
    var v := VersionLength(tail);
    VersionLengthIsWhole(tail);
    hide NameLength, VersionLength;
    NameIs(line[..n]);
    VersionCharIs();
    hide IsName, IsNameChar, IsAlnum, IsVersionChar, EndsVersion;
    LineParts(line, n, v);
    assert line[n + 2..n + 2 + v] == tail[..v] && line[n + 2 + v..] == tail[v..];
    assert PinLine(line, MatchPin(line).value, tail[v..]);
  }

  lemma LineParts(line: string, n: nat, v: nat)
    requires n + 2 + v <= |line| && "==" <= line[n..]
    ensures line == line[..n] + "==" + line[n + 2..n + 2 + v] + line[n + 2 + v..]
  {
    assert line[n..][..2] == "==";
    assert line[n..n + 2] == line[n..][..2];
  }

  function PinText(p: Pin): string {
    p.name + "==" + p.version
  }

  function LinePins(lines: seq<string>): set<string> {
    set l | l in lines && MatchPin(l).Some? :: PinText(MatchPin(l).value)
  }

  function AllPins(lockfiles: seq<seq<string>>): set<string> {
    set f, t | f in lockfiles && t in LinePins(f) :: t
  }

  lemma AllPinsAre(lockfiles: seq<seq<string>>)
    ensures forall t :: t in AllPins(lockfiles) <==>
              exists f, l, p, rest :: f in lockfiles && l in f && PinLine(l, p, rest) && t == p.name + "==" + p.version
  {
    forall l, p ensures MatchPin(l) == Some(p) <==> exists rest :: PinLine(l, p, rest) {
      MatchPinIs(l, p);
    }
    hide MatchPin, PinLine;
    forall t | t in AllPins(lockfiles)
      ensures exists f, l, p, rest ::
                f in lockfiles && l in f && PinLine(l, p, rest) && t == p.name + "==" + p.version
    {
      var f :| f in lockfiles && t in LinePins(f);
      var l :| l in f && MatchPin(l).Some? && t == PinText(MatchPin(l).value);
      var rest :| PinLine(l, MatchPin(l).value, rest);
    }
    forall f, l, p, rest | f in lockfiles && l in f && PinLine(l, p, rest)
      ensures p.name + "==" + p.version in AllPins(lockfiles)
    {
      assert MatchPin(l) == Some(p) && PinText(p) in LinePins(f);
    }
  }

  /** `extract`, without the final sort. */
  method Extract(lockfiles: seq<seq<string>>) returns (pins: set<string>)
    ensures pins == AllPins(lockfiles)
    ensures forall t :: t in pins <==>
              exists f, l, p, rest :: f in lockfiles && l in f && PinLine(l, p, rest) && t == p.name + "==" + p.version
  {
    AllPinsAre(lockfiles);
    hide MatchPin, PinText, PinLine;
    pins := {};
    for i := 0 to |lockfiles|
      invariant pins == AllPins(lockfiles[..i])
    {
      ghost var before := pins;
      var lines := lockfiles[i];
      for j := 0 to |lines|
        invariant pins == before + LinePins(lines[..j])
      {
        var m := MatchPin(lines[j]);
        if m.Some? {
          pins := pins + {PinText(m.value)};
        }
        assert lines[..j + 1] == lines[..j] + [lines[j]];
      }
      assert lines[..|lines|] == lines;
      assert lockfiles[..i + 1] == lockfiles[..i] + [lines];
    }
    assert lockfiles[..|lockfiles|] == lockfiles;
  }

  // ---------------------------------------------------------------- packages of a report

  function IndexOf(s: string, c: char): (i: nat)
    ensures i <= |s| && c !in s[..i] && (i < |s| ==> s[i] == c) && (c in s <==> i < |s|)
  {
    if s == "" || s[0] == c then 0 else
      var i := IndexOf(s[1..], c);
      assert s[..i + 1] == [s[0]] + s[1..][..i];
      i + 1
  }

  function PackageKey(name: string, version: string): string {
    Normalise(name) + "@" + version
  }

  const PYPI := "pkg:pypi/"

  /** What a decoded package URL resolves to; `decode` stands for percent-decoding. */
  function Resolve(id: Option<string>, decode: string -> string): Option<Pin> {
    var purl := decode(if id.None? then "" else id.value);
    if PYPI <= purl && '@' in purl then
      var rest := purl[|PYPI|..];
      var i := IndexOf(rest, '@');
      if i < |rest| then Some(Pin(rest[..i], rest[i + 1..])) else None
    else None
  }

  /** An identifier resolves exactly if it decodes to a PyPI package URL with an '@', split at the first. */
  lemma ResolveIs(id: Option<string>, decode: string -> string, p: Pin)
    ensures Resolve(id, decode) == Some(p)
            <==> decode(if id == None then "" else id.value) == "pkg:pypi/" + p.name + "@" + p.version && '@' !in p.name
  {
    var purl := decode(if id == None then "" else id.value);
    hide IndexOf;
    if Resolve(id, decode) == Some(p) {
      ResolvedFrom(PYPI, purl, p);
    }
    if purl == "pkg:pypi/" + p.name + "@" + p.version && '@' !in p.name {
      ResolvesTo(purl, p);
    }
  }

  lemma ResolvedFrom(prefix: string, purl: string, p: Pin)
    requires prefix <= purl
    requires var rest := purl[|prefix|..];
             var i := IndexOf(rest, '@');
             i < |rest| && rest[..i] == p.name && rest[i + 1..] == p.version
    ensures purl == prefix + p.name + "@" + p.version && '@' !in p.name
  {
    var rest := purl[|prefix|..];
    var i := IndexOf(rest, '@');
    hide IndexOf;
    assert rest == rest[..i] + [rest[i]] + rest[i + 1..];
    assert purl == prefix + rest;
    Assemble(prefix, p.name, "@", p.version);
  }

  lemma Assemble(a: string, b: string, c: string, d: string)
    ensures a + (b + c + d) == a + b + c + d
  {
  }

  lemma ResolvesTo(purl: string, p: Pin)
    requires purl == "pkg:pypi/" + p.name + "@" + p.version && '@' !in p.name
    ensures PYPI <= purl && '@' in purl
    ensures var rest := purl[|PYPI|..];
            var i := IndexOf(rest, '@');
            i < |rest| && rest[..i] == p.name && rest[i + 1..] == p.version
  {
    var rest := p.name + "@" + p.version;
    Assemble(PYPI, p.name, "@", p.version);
    IndexOfFirst(p.name, '@', p.version);
    assert p.name + ['@'] + p.version == rest;
    hide IndexOf;
    assert purl == PYPI + rest;
    assert purl[|PYPI| + |p.name|] == '@';
  }

  lemma {:induction false} IndexOfFirst(a: string, c: char, b: string)
    requires c !in a
    ensures IndexOf(a + [c] + b, c) == |a|
  {
    var s := a + [c] + b;
    if a != "" {
      assert s[0] == a[0] && s[1..] == a[1..] + [c] + b;
      IndexOfFirst(a[1..], c, b);
    }
  }

  /** A report: for each dependency, the identifiers of its packages. */
  type Report = seq<seq<Option<string>>>

  predicate Lists(report: Report, p: Pin, decode: string -> string) {
    exists d, id | d in report && id in d :: Resolve(id, decode) == Some(p)
  }

  function DependencyKeys(ids: seq<Option<string>>, decode: string -> string): set<string> {
    set id | id in ids && Resolve(id, decode).Some? ::
      PackageKey(Resolve(id, decode).value.name, Resolve(id, decode).value.version)
  }

  function ReportKeys(report: Report, decode: string -> string): set<string> {
    set d, k | d in report && k in DependencyKeys(d, decode) :: k
  }

  method AnalysedPackages(report: Report, decode: string -> string) returns (found: set<string>)
    ensures found == ReportKeys(report, decode)
  {
    hide Resolve, PackageKey;
    found := {};
    for i := 0 to |report|
      invariant found == ReportKeys(report[..i], decode)
    {
      ghost var before := found;
      var ids := report[i];
      for j := 0 to |ids|
        invariant found == before + DependencyKeys(ids[..j], decode)
      {
        var p := Resolve(ids[j], decode);
        if p.Some? {
          found := found + {PackageKey(p.value.name, p.value.version)};
        }
        assert ids[..j + 1] == ids[..j] + [ids[j]];
      }
      assert ids[..|ids|] == ids;
      assert report[..i + 1] == report[..i] + [ids];
    }
    assert report[..|report|] == report;
  }

  // ---------------------------------------------------------------- verify

  /** `pin.split("==", 1)`. */
  function SplitPin(s: string): Option<Pin> {
    if "==" <= s then Some(Pin("", s[2..]))
    else if s == "" then None
    else
      match SplitPin(s[1..])
      case Some(p) => Some(Pin([s[0]] + p.name, p.version))
      case None => None
  }

  predicate Covered(pin: string, found: set<string>) {
    var p := SplitPin(pin);
    p.Some? && PackageKey(p.value.name, p.value.version) in found
  }

  function Uncovered(pins: seq<string>, found: set<string>): seq<string> {
    if pins == [] then []
    else
      Uncovered(pins[..|pins| - 1], found)
      + (if Covered(pins[|pins| - 1], found) then [] else [pins[|pins| - 1]])
  }

  /** `verify`; None is the error raised by a pin without "==". */
  method Verify(pins: seq<string>, report: Report, decode: string -> string) returns (missing: Option<seq<string>>)
    ensures missing.None? <==> exists pin | pin in pins :: SplitPin(pin).None?
    ensures missing.Some? ==> missing.value == Uncovered(pins, ReportKeys(report, decode))
  {
    hide ReportKeys, PackageKey;
    var found := AnalysedPackages(report, decode);
    var absent: seq<string> := [];
    for i := 0 to |pins|
      invariant forall k | 0 <= k < i :: SplitPin(pins[k]).Some?
      invariant absent == Uncovered(pins[..i], found)
    {
      assert pins[..i + 1][..i] == pins[..i];
      match SplitPin(pins[i]) {
        case None =>
          assert pins[i] in pins;
          return None;
        case Some(p) =>
          if PackageKey(p.name, p.version) !in found {
            absent := absent + [pins[i]];
          }
      }
    }
    assert pins[..|pins|] == pins;
    return Some(absent);
  }

  // ---------------------------------------------------------------- what the coverage check promises

  /** The missing list holds exactly the uncovered pins. */
  lemma {:induction false} UncoveredMembers(pins: seq<string>, found: set<string>)
    ensures forall pin :: pin in Uncovered(pins, found) <==> pin in pins && !Covered(pin, found)
  {
    hide Covered;
    if pins != [] {
      var pins0, last := pins[..|pins| - 1], pins[|pins| - 1];
      UncoveredMembers(pins0, found);
      assert pins == pins0 + [last];
    }
  }

  /** The missing list keeps the order in which the pins were given. */
  lemma {:induction false} UncoveredInOrder(a: seq<string>, b: seq<string>, found: set<string>)
    ensures Uncovered(a + b, found) == Uncovered(a, found) + Uncovered(b, found)
  {
    hide Covered;
    if b == [] {
      assert a + b == a;
    } else {
      var b0, last := b[..|b| - 1], b[|b| - 1];
      assert (a + b)[..|a + b| - 1] == a + b0;
      UncoveredInOrder(a, b0, found);
    }
  }

  /** And each is reported as often as it was given. */
  lemma UncoveredOnce(pin: string, found: set<string>)
    ensures Uncovered([pin], found) == if Covered(pin, found) then [] else [pin]
  {
    hide Covered;
    assert [pin][..0] == [];
    assert [] + [pin] == [pin];
  }

  /** Adding dependencies or packages to the report never adds a missing pin. */
  lemma MorePackagesNeverHurt(pins: seq<string>, report: Report, larger: Report, decode: string -> string)
    requires forall d, id | d in report && id in d :: exists d' :: d' in larger && id in d'
    ensures forall pin | pin in Uncovered(pins, ReportKeys(larger, decode)) ::
              pin in Uncovered(pins, ReportKeys(report, decode))
  {
    UncoveredMembers(pins, ReportKeys(report, decode));
    UncoveredMembers(pins, ReportKeys(larger, decode));
    forall k | k in ReportKeys(report, decode) ensures k in ReportKeys(larger, decode) {
      var d, id :| d in report && id in d && Resolve(id, decode).Some?
                   && k == PackageKey(Resolve(id, decode).value.name, Resolve(id, decode).value.version);
      var d' :| d' in larger && id in d';
      assert k in DependencyKeys(d', decode);
    }
  }

  lemma {:induction false} SplitOfPin(name: string, version: string)
    requires '=' !in name
    ensures SplitPin(name + "==" + version) == Some(Pin(name, version))
  {
    var s := name + "==" + version;
    if name == "" {
      assert s[2..] == version;
    } else {
      assert s[0] == name[0] && s[1..] == name[1..] + "==" + version;
      SplitOfPin(name[1..], version);
      assert [name[0]] + name[1..] == name;
    }
  }

  predicate TwoEquals(s: string, i: nat) {
    i + 1 < |s| && s[i] == '=' && s[i + 1] == '='
  }

  lemma StartsWithTwo(s: string)
    ensures TwoEquals(s, 0) <==> "==" <= s
  {
    if |s| >= 2 {
      assert s[..2] == [s[0], s[1]];
    }
  }

  lemma {:induction false} SplitFinds(s: string)
    ensures match SplitPin(s)
            case Some(p) => s == p.name + "==" + p.version && forall i: nat | i < |p.name| :: !TwoEquals(s, i)
            case None => forall i: nat :: !TwoEquals(s, i)
  {
    if "==" <= s {
      assert s == "" + "==" + s[2..];
    } else if s != "" {
      SplitFinds(s[1..]);
      assert s == [s[0]] + s[1..];
      StartsWithTwo(s);
      forall i: nat ensures TwoEquals(s, i) ==> i > 0 && TwoEquals(s[1..], i - 1) {
      }
      if SplitPin(s[1..]).Some? {
        var q := SplitPin(s[1..]).value;
        Assemble([s[0]], q.name, "==", q.version);
      }
    }
  }

  /** Any pin splits at its first "==", and is an error without one. */
  lemma SplitPinIs(s: string, p: Pin)
    ensures SplitPin(s) == Some(p)
            <==> s == p.name + "==" + p.version && forall i: nat | i < |p.name| :: !TwoEquals(s, i)
    ensures SplitPin(s).None? <==> forall i: nat :: !TwoEquals(s, i)
  {
    SplitFinds(s);
    hide SplitPin;
    if s == p.name + "==" + p.version {
      Slices(p.name, "==", p.version, "");
      assert TwoEquals(s, |p.name|);
    }
    if SplitPin(s).Some? {
      var q := SplitPin(s).value;
      Slices(q.name, "==", q.version, "");
      assert TwoEquals(s, |q.name|);
    }
  }

  /** An extracted pin has a name without '=' and '@', so it splits back into what was matched. */
  lemma PinSplitsBack(line: string)
    requires MatchPin(line).Some?
    ensures var p := MatchPin(line).value;
            '@' !in p.name && SplitPin(PinText(p)) == Some(p)
  {
    var p := MatchPin(line).value;
    SplitOfPin(p.name, p.version);
  }

  /** Keys are equal exactly for the same name, up to case and separators, and the same version. */
  lemma KeysEqualIff(a: Pin, b: Pin)
    requires '@' !in a.name && '@' !in b.name
    ensures PackageKey(a.name, a.version) == PackageKey(b.name, b.version)
            <==> SameName(a.name, b.name) && a.version == b.version
  {
    NormaliseKeepsOthers(a.name, '@');
    NormaliseKeepsOthers(b.name, '@');
    NormaliseDecidesSameName(a.name, b.name);
    hide Normalise, SameName;
    var x, y := Normalise(a.name), Normalise(b.name);
    if PackageKey(a.name, a.version) == PackageKey(b.name, b.version) {
      var key := x + "@" + a.version;
      assert key[|x|] == '@' && key[|y|] == '@';
      assert forall i | 0 <= i < |x| :: key[i] == x[i] && x[i] in x;
      assert forall i | 0 <= i < |y| :: key[i] == y[i] && y[i] in y;
      assert |x| == |y|;
      assert x == key[..|x|] && y == key[..|y|];
      assert a.version == key[|x| + 1..] && b.version == key[|y| + 1..];
    }
  }

  lemma ResolvedName(id: Option<string>, decode: string -> string)
    requires Resolve(id, decode).Some?
    ensures '@' !in Resolve(id, decode).value.name
  {
  }

  /** An extracted pin is covered exactly when the report lists a package of the same name and version. */
  lemma CoveredIff(line: string, report: Report, decode: string -> string)
    requires MatchPin(line).Some?
    ensures var pin := MatchPin(line).value;
            Covered(PinText(pin), ReportKeys(report, decode))
            <==> exists p: Pin :: Lists(report, p, decode) && SameName(p.name, pin.name) && p.version == pin.version
  {
    var pin, found := MatchPin(line).value, ReportKeys(report, decode);
    PinSplitsBack(line);
    hide SameName, PackageKey, Resolve, MatchPin;
    if Covered(PinText(pin), found) {
      var d, id :| d in report && id in d && Resolve(id, decode).Some?
                   && PackageKey(Resolve(id, decode).value.name, Resolve(id, decode).value.version)
                      == PackageKey(pin.name, pin.version);
      ResolvedName(id, decode);
      KeysEqualIff(Resolve(id, decode).value, pin);
      assert Lists(report, Resolve(id, decode).value, decode);
    }
    if p: Pin :| Lists(report, p, decode) && SameName(p.name, pin.name) && p.version == pin.version {
      var d, id :| d in report && id in d && Resolve(id, decode) == Some(p);
      ResolvedName(id, decode);
      KeysEqualIff(p, pin);
      assert PackageKey(p.name, p.version) in DependencyKeys(d, decode);
    }
  }

  /** Some package of the report has a URL that decodes to the pin's version and some spelling of its name. */
  ghost predicate Analysed(report: Report, pin: Pin, decode: string -> string) {
    exists d, id, name | d in report && id in d ::
      && decode(if id == None then "" else id.value) == "pkg:pypi/" + name + "@" + pin.version
      && '@' !in name && SameName(name, pin.name)
  }

  lemma AnalysedIff(report: Report, pin: Pin, decode: string -> string)
    ensures Analysed(report, pin, decode)
            <==> exists p: Pin :: Lists(report, p, decode) && SameName(p.name, pin.name) && p.version == pin.version
  {
    hide SameName, Resolve;
    if p: Pin :| Lists(report, p, decode) && SameName(p.name, pin.name) && p.version == pin.version {
      var d, id :| d in report && id in d && Resolve(id, decode) == Some(p);
      ResolveIs(id, decode, p);
    }
    if Analysed(report, pin, decode) {
      var d, id, name :| d in report && id in d && '@' !in name && SameName(name, pin.name)
                         && decode(if id == None then "" else id.value) == "pkg:pypi/" + name + "@" + pin.version;
      ResolveIs(id, decode, Pin(name, pin.version));
      assert Lists(report, Pin(name, pin.version), decode);
    }
  }

  /** Verification of extracted pins, in any order, succeeds exactly when every pinned line was analysed. */
  lemma VerifyCleanIff(lockfiles: seq<seq<string>>, pins: seq<string>, report: Report, decode: string -> string)
    requires forall t :: t in pins <==> t in AllPins(lockfiles)
    ensures Uncovered(pins, ReportKeys(report, decode)) == []
            <==> forall f, l, p, rest | f in lockfiles && l in f && PinLine(l, p, rest) :: Analysed(report, p, decode)
  {
    var found := ReportKeys(report, decode);
    UncoveredMembers(pins, found);
    AllPinsAre(lockfiles);
    hide AllPins, Uncovered, Covered, PinLine, Analysed;
    forall f, l, p, rest | f in lockfiles && l in f && PinLine(l, p, rest)
      ensures p.name + "==" + p.version in pins
      ensures Covered(p.name + "==" + p.version, found) <==> Analysed(report, p, decode)
    {
      MatchPinIs(l, p);
      CoveredIff(l, report, decode);
      AnalysedIff(report, p, decode);
    }
    if Uncovered(pins, found) != [] {
      var t := Uncovered(pins, found)[0];
      assert t in Uncovered(pins, found);
      var f, l, p, rest :| f in lockfiles && l in f && PinLine(l, p, rest) && t == p.name + "==" + p.version;
      assert !Analysed(report, p, decode);
    }
  }

  /** Round trip: a report with one plain package URL for each pinned line, in any spelling of the name, is complete. */
  lemma {:induction false} RoundTrip(lockfiles: seq<seq<string>>, pins: seq<string>, report: Report,
                                     decode: string -> string, spelling: string -> string)
    requires forall t :: t in pins <==> t in AllPins(lockfiles)
    requires forall n :: SameName(spelling(n), n) && ('@' !in n ==> '@' !in spelling(n))
    requires forall s :: '%' !in s ==> decode(s) == s
    requires forall f, l, p, rest | f in lockfiles && l in f && PinLine(l, p, rest) ::
               var purl := "pkg:pypi/" + spelling(p.name) + "@" + p.version;
               '%' !in purl && exists d :: d in report && Some(purl) in d
    ensures Uncovered(pins, ReportKeys(report, decode)) == []
  {
    forall f, l, p, rest | f in lockfiles && l in f && PinLine(l, p, rest) ensures Analysed(report, p, decode) {
      assert '@' !in p.name;
      var purl := "pkg:pypi/" + spelling(p.name) + "@" + p.version;
      var d :| d in report && Some(purl) in d;
      assert decode(purl) == purl;
    }
    VerifyCleanIff(lockfiles, pins, report, decode);
  }
}
