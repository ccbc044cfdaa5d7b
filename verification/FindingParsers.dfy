/** The dependency parsers of scripts/security_gate.py: three vocabularies, one identity per vulnerability. */
module FindingParsers {
  import opened Prelude
  import opened Text
  import opened SeverityGate
  import opened GateTheorems

  // ---------------------------------------------------------------- severities and names

  function SeverityOf(name: string): Severity {
    if name == "CRITICAL" then Critical
    else if name == "HIGH" || name == "ERROR" then High
    else if name == "MEDIUM" || name == "WARNING" || name == "MODERATE" then Medium
    else if name == "LOW" || name == "NEGLIGIBLE" || name == "NOTE" then Low
    else if name == "INFO" || name == "INFORMATIONAL" then Info
    else Unknown
  }

  /** `normalise_severity`: absent or empty counts as UNKNOWN, and so does anything unrecognised. */
  function NormaliseSeverity(raw: Option<string>): Severity {
    if raw.None? || raw.value == "" then Unknown else SeverityOf(Upper(Strip(raw.value)))
  }

  /** An f-string of a value that may be absent. */
  function Shown(s: Option<string>): string {
    if s.None? then "None" else s.value
  }

  /** `_pkg`. */
  function Package(name: Option<string>, version: Option<string>): string {
    Lower(Shown(name)) + "@" + Shown(version)
  }

  function Or(s: Option<string>, default: string): string {
    if s.None? then default else s.value
  }

  predicate StartsWith(s: string, prefix: string) {
    prefix <= s
  }

  // ---------------------------------------------------------------- the parsers

  datatype TrivyVulnerability = TrivyVulnerability(
    id: Option<string>, severity: Option<string>, pkgName: Option<string>, installed: Option<string>,
    fixedVersion: Option<string>)

  datatype TrivyMisconfiguration = TrivyMisconfiguration(
    status: Option<string>, avdId: Option<string>, id: Option<string>, severity: Option<string>,
    startLine: Option<string>)

  datatype TrivySecret = TrivySecret(ruleId: Option<string>, startLine: Option<string>)

  datatype TrivyResult = TrivyResult(target: string, vulnerabilities: seq<TrivyVulnerability>,
                                     misconfigurations: seq<TrivyMisconfiguration>, secrets: seq<TrivySecret>)

  function TrivyFacts(v: TrivyVulnerability): Facts {
    Facts(Or(v.id, "unknown"), NormaliseSeverity(v.severity), Package(v.pkgName, v.installed),
          Some(v.fixedVersion.Some? && v.fixedVersion.value != ""))
  }

  function ConfigFacts(target: string, m: TrivyMisconfiguration): Facts {
    Facts(if m.avdId.Some? && m.avdId.value != "" then m.avdId.value else Or(m.id, "unknown"),
          NormaliseSeverity(m.severity), target + ":" + Or(m.startLine, "?"), None)
  }

  function SecretFacts(target: string, s: TrivySecret): Facts {
    Facts(Or(s.ruleId, "secret"), Critical, target + ":" + Or(s.startLine, "?"), None)
  }

  function TrivyVulnerabilities(vs: seq<TrivyVulnerability>): seq<Raw> {
    seq(|vs|, i requires 0 <= i < |vs| => Raw("trivy", TrivyFacts(vs[i])))
  }

  function TrivyConfigs(target: string, ms: seq<TrivyMisconfiguration>): seq<Raw> {
    if ms == [] then []
    else (if Or(ms[0].status, "FAIL") != "FAIL" then [] else [Raw("trivy-config", ConfigFacts(target, ms[0]))])
         + TrivyConfigs(target, ms[1..])
  }

  function TrivySecrets(target: string, ss: seq<TrivySecret>): seq<Raw> {
    seq(|ss|, i requires 0 <= i < |ss| => Raw("trivy-secret", SecretFacts(target, ss[i])))
  }

  function ParseTrivy(results: seq<TrivyResult>): seq<Raw> {
    if results == [] then []
    else
      var r := results[0];
      TrivyVulnerabilities(r.vulnerabilities) + TrivyConfigs(r.target, r.misconfigurations)
      + TrivySecrets(r.target, r.secrets) + ParseTrivy(results[1..])
  }

  datatype GrypeMatch = GrypeMatch(id: Option<string>, severity: Option<string>, fixState: Option<string>,
                                   aliases: seq<string>, name: Option<string>, version: Option<string>)

  function FirstCve(aliases: seq<string>): Option<string> {
    if aliases == [] then None
    else if StartsWith(aliases[0], "CVE-") then Some(aliases[0]) else FirstCve(aliases[1..])
  }

  function GrypeFacts(m: GrypeMatch): Facts {
    var id := Or(m.id, "unknown");
    var cve := FirstCve(m.aliases);
    Facts(if cve.Some? && !StartsWith(id, "CVE-") then cve.value else id,
          NormaliseSeverity(m.severity), Package(m.name, m.version), Some(m.fixState == Some("fixed")))
  }

  function ParseGrype(ms: seq<GrypeMatch>): seq<Raw> {
    seq(|ms|, i requires 0 <= i < |ms| => Raw("grype", GrypeFacts(ms[i])))
  }

  datatype DcVulnerability = DcVulnerability(
    name: Option<string>, severity: Option<string>, cvssSeverity: Option<string>)

  /** The identifier of the first package, if any, and the file the dependency came from. */
  datatype Dependency = Dependency(
    packageId: Option<string>, fileName: Option<string>, vulnerabilities: seq<DcVulnerability>)

  function DcLocation(d: Dependency): string {
    var pkg := if d.packageId.Some? && d.packageId.value != "" then d.packageId.value else Or(d.fileName, "unknown");
    if StartsWith(pkg, "pkg:") then Lower(AfterLastSlash(pkg)) else pkg
  }

  function DcFacts(d: Dependency, v: DcVulnerability): Facts {
    var severity := if v.severity.None? || v.severity.value == "" then v.cvssSeverity else v.severity;
    Facts(Or(v.name, "unknown"), NormaliseSeverity(severity), DcLocation(d), Some(true))
  }

  function DcFindings(d: Dependency): seq<Raw> {
    seq(|d.vulnerabilities|, i requires 0 <= i < |d.vulnerabilities| =>
        Raw("dependency-check", DcFacts(d, d.vulnerabilities[i])))
  }

  function ParseDependencyCheck(ds: seq<Dependency>): seq<Raw> {
    if ds == [] then [] else DcFindings(ds[0]) + ParseDependencyCheck(ds[1..])
  }

  // ---------------------------------------------------------------- one vulnerability, one key

  /** Every vulnerability of a Trivy report becomes a finding. */
  lemma {:induction false} TrivyReportsAll(results: seq<TrivyResult>, r: TrivyResult, v: TrivyVulnerability)
    requires r in results && v in r.vulnerabilities
    ensures Raw("trivy", TrivyFacts(v)) in ParseTrivy(results)
  {
    if r == results[0] {
      var i :| 0 <= i < |r.vulnerabilities| && r.vulnerabilities[i] == v;
      assert TrivyVulnerabilities(r.vulnerabilities)[i] == Raw("trivy", TrivyFacts(v));
    } else {
      TrivyReportsAll(results[1..], r, v);
    }
  }

  lemma GrypeReportsAll(ms: seq<GrypeMatch>, m: GrypeMatch)
    requires m in ms
    ensures Raw("grype", GrypeFacts(m)) in ParseGrype(ms)
  {
    var i :| 0 <= i < |ms| && ms[i] == m;
    assert ParseGrype(ms)[i] == Raw("grype", GrypeFacts(m));
  }

  /** Every vulnerability of a Dependency-Check report becomes a finding. */
  lemma {:induction false} DependencyCheckReportsAll(ds: seq<Dependency>, d: Dependency, v: DcVulnerability)
    requires d in ds && v in d.vulnerabilities
    ensures Raw("dependency-check", DcFacts(d, v)) in ParseDependencyCheck(ds)
  {
    if d == ds[0] {
      var i :| 0 <= i < |d.vulnerabilities| && d.vulnerabilities[i] == v;
      assert DcFindings(d)[i] == Raw("dependency-check", DcFacts(d, v));
    } else {
      DependencyCheckReportsAll(ds[1..], d, v);
    }
  }

  /** The identity of a CVE in a package version. */
  function Identity(cve: string, name: string, version: string): (string, string) {
    (cve, Package(Some(name), Some(version)))
  }

  /** The alias that counts is the first one that is a CVE number. */
  lemma {:induction false} FirstCveIs(aliases: seq<string>, cve: string)
    ensures FirstCve(aliases) == Some(cve)
            <==> exists i | 0 <= i < |aliases| ::
                   && aliases[i] == cve && StartsWith(cve, "CVE-")
                   && forall j | 0 <= j < i :: !StartsWith(aliases[j], "CVE-")
  {
    if aliases != [] {
      FirstCveIs(aliases[1..], cve);
      assert forall i | 0 < i < |aliases| :: aliases[1..][i - 1] == aliases[i];
    }
  }

  function Purl(name: string, version: string): string {
    "pkg:pypi/" + name + "@" + version
  }

  predicate Slashless(name: string, version: string) {
    '/' !in name && '/' !in version
  }

  lemma PurlLocation(d: Dependency, name: string, version: string)
    requires d.packageId == Some(Purl(name, version))
    ensures DcLocation(d) == Lower(AfterLastSlash("pkg:pypi" + "/" + (name + "@" + version)))
  {
    var purl := Purl(name, version);
    assert purl == "pkg:pypi" + "/" + (name + "@" + version);
    assert StartsWith(purl, "pkg:") by {
      assert "pkg:" <= "pkg:pypi/";
      assert purl == "pkg:pypi/" + (name + "@" + version);
    }
    assert DcLocation(d) == Lower(AfterLastSlash(purl));
  }

  /** Dependency-Check names the package as the other scanners do exactly if nothing in it has a slash and the
      version, which is lower-cased with the name, has no upper-case letter. */
  lemma DependencyCheckAgreesIff(d: Dependency, v: DcVulnerability, cve: string, name: string, version: string)
    requires d.packageId == Some(Purl(name, version)) && v.name == Some(cve)
    ensures DcFacts(d, v).Key() == Identity(cve, name, version)
            <==> Slashless(name, version) && Lower(version) == version
  {
    var base := name + "@" + version;
    PurlLocation(d, name, version);
    LowerConcat(name + "@", version);
    LowerConcat(name, "@");
    AfterLastSlashIsShort("pkg:pypi", base);
    if Slashless(name, version) {
      AfterLastSlashOfPath("pkg:pypi", base);
      assert Lower("@") == "@";
      assert DcLocation(d) == Lower(name) + "@" + Lower(version);
      SuffixEqual(Lower(name) + "@", Lower(version), version);
      assert Package(Some(name), Some(version)) == Lower(name) + "@" + version;
    } else {
      assert '/' in base;
      assert |Package(Some(name), Some(version))| == |base|;
    }
  }

  lemma SuffixEqual(prefix: string, a: string, b: string)
    ensures prefix + a == prefix + b <==> a == b
  {
    if prefix + a == prefix + b {
      assert a == (prefix + a)[|prefix|..];
      assert b == (prefix + b)[|prefix|..];
    }
  }

  /** The three scanners report one CVE on one package version, each in its own vocabulary. */
  predicate SameVulnerability(t: TrivyVulnerability, g: GrypeMatch, d: Dependency, v: DcVulnerability,
                              cve: string, name: string, version: string)
  {
    && t.id == Some(cve) && t.pkgName.Some? && Lower(t.pkgName.value) == Lower(name) && t.installed == Some(version)
    && g.name.Some? && Lower(g.name.value) == Lower(name) && g.version == Some(version)
    && g.id.Some? && !StartsWith(g.id.value, "CVE-") && FirstCve(g.aliases) == Some(cve)
    && d.packageId == Some(Purl(name, version)) && v.name == Some(cve)
  }

  /** It gets one key from all three, whatever case Trivy and Grype use, exactly if Dependency-Check agrees. */
  lemma OneVulnerabilityOneKey(t: TrivyVulnerability, g: GrypeMatch, d: Dependency, v: DcVulnerability,
                               cve: string, name: string, version: string)
    requires SameVulnerability(t, g, d, v, cve, name, version)
    ensures TrivyFacts(t).Key() == GrypeFacts(g).Key() == Identity(cve, name, version)
    ensures DcFacts(d, v).Key() == Identity(cve, name, version)
            <==> Slashless(name, version) && Lower(version) == version
  {
    DependencyCheckAgreesIff(d, v, cve, name, version);
  }

  predicate HasReport(p: Policy, raws: seq<Raw>) {
    exists r | r in p.reports :: r.content == Parsed(raws)
  }

  lemma ReportedFact(p: Policy, raws: seq<Raw>, raw: Raw)
    requires HasReport(p, raws) && raw in raws
    ensures raw.facts in Collected(p.reports)
  {
    var r :| r in p.reports && r.content == Parsed(raws);
    var i :| 0 <= i < |raws| && raws[i] == raw;
    assert FactsOf(r)[i] == raw.facts;
    CollectedMembers(p.reports, raw.facts);
  }

  /** Reported by all three scanners, the vulnerability is in the findings three times and blocks exactly once. */
  lemma ReportedThriceBlocksOnce(p: Policy, today: int,
                                 results: seq<TrivyResult>, r: TrivyResult, t: TrivyVulnerability,
                                 ms: seq<GrypeMatch>, g: GrypeMatch,
                                 ds: seq<Dependency>, d: Dependency, v: DcVulnerability,
                                 cve: string, name: string, version: string)
    requires SameVulnerability(t, g, d, v, cve, name, version) && Slashless(name, version) && Lower(version) == version
    requires HasReport(p, ParseTrivy(results)) && r in results && t in r.vulnerabilities
    requires HasReport(p, ParseGrype(ms)) && g in ms
    requires HasReport(p, ParseDependencyCheck(ds)) && d in ds && v in d.vulnerabilities
    ensures var fs, key := Collected(p.reports), Identity(cve, name, version);
            && TrivyFacts(t) in fs && GrypeFacts(g) in fs && DcFacts(d, v) in fs
            && (Blocks(p, today, TrivyFacts(t)) || Blocks(p, today, GrypeFacts(g))
                || Blocks(p, today, DcFacts(d, v)) ==>
                  exists i | 0 <= i < |fs| :: MarkedAt(p, today, fs, i) && fs[i].Key() == key)
            && (forall i, j | 0 <= i < |fs| && 0 <= j < |fs| && MarkedAt(p, today, fs, i) && MarkedAt(p, today, fs, j)
                              && fs[i].Key() == key && fs[j].Key() == key :: i == j)
  {
    TrivyReportsAll(results, r, t);
    ReportedFact(p, ParseTrivy(results), Raw("trivy", TrivyFacts(t)));
    GrypeReportsAll(ms, g);
    ReportedFact(p, ParseGrype(ms), Raw("grype", GrypeFacts(g)));
    DependencyCheckReportsAll(ds, d, v);
    ReportedFact(p, ParseDependencyCheck(ds), Raw("dependency-check", DcFacts(d, v)));
    OneVulnerabilityOneKey(t, g, d, v, cve, name, version);
    hide Blocks, MarkedAt, Collected, TrivyFacts, GrypeFacts, DcFacts, ParseTrivy, ParseGrype, ParseDependencyCheck;
    ExactlyOneMarked(p, today, Collected(p.reports), Identity(cve, name, version));
  }

  // ---------------------------------------------------------------- severities

  /** Nothing but characters that `strip` removes. */
  ghost predicate Blank(s: string) {
    forall i | 0 <= i < |s| :: s[i] as int in {9, 10, 11, 12, 13, 28, 29, 30, 31, 32}
  }

  /** The word is the upper-case name with letters of either case. */
  ghost predicate Spells(word: string, name: string) {
    |word| == |name|
    && forall i | 0 <= i < |name| :: word[i] == name[i] || ('A' <= name[i] <= 'Z' && word[i] == name[i] - 'A' + 'a')
  }

  /** The text holds the name and blanks around it. */
  ghost predicate Reads(raw: string, name: string) {
    exists before, word, after :: raw == before + word + after && Blank(before) && Blank(after) && Spells(word, name)
  }

  /** Which texts have which severity; every other text is UNKNOWN, like an absent one. */
  lemma SeverityIs(raw: string)
    ensures NormaliseSeverity(Some(raw)) == Critical <==> Reads(raw, "CRITICAL")
    ensures NormaliseSeverity(Some(raw)) == High <==> Reads(raw, "HIGH") || Reads(raw, "ERROR")
    ensures NormaliseSeverity(Some(raw)) == Medium
            <==> Reads(raw, "MEDIUM") || Reads(raw, "WARNING") || Reads(raw, "MODERATE")
    ensures NormaliseSeverity(Some(raw)) == Low <==> Reads(raw, "LOW") || Reads(raw, "NEGLIGIBLE") || Reads(raw, "NOTE")
    ensures NormaliseSeverity(Some(raw)) == Info <==> Reads(raw, "INFO") || Reads(raw, "INFORMATIONAL")
    ensures NormaliseSeverity(None) == Unknown
  {
    hide Reads, Strip, Upper, Capital;
    CapitalNames();
    ReadsIff(raw, "CRITICAL");
    ReadsIff(raw, "HIGH");
    ReadsIff(raw, "ERROR");
    ReadsIff(raw, "MEDIUM");
    ReadsIff(raw, "WARNING");
    ReadsIff(raw, "MODERATE");
    ReadsIff(raw, "LOW");
    ReadsIff(raw, "NEGLIGIBLE");
    ReadsIff(raw, "NOTE");
    ReadsIff(raw, "INFO");
    ReadsIff(raw, "INFORMATIONAL");
    NormaliseIs(raw);
  }

  lemma NormaliseIs(raw: string)
    ensures NormaliseSeverity(Some(raw)) == SeverityOf(Upper(Strip(raw)))
  {
  }

  predicate Capital(name: string) {
    name != "" && forall i | 0 <= i < |name| :: 'A' <= name[i] <= 'Z'
  }

  lemma CapitalNames()
    ensures Capital("CRITICAL") && Capital("HIGH") && Capital("ERROR") && Capital("MEDIUM") && Capital("WARNING")
            && Capital("MODERATE") && Capital("LOW") && Capital("NEGLIGIBLE") && Capital("NOTE") && Capital("INFO")
            && Capital("INFORMATIONAL") && Capital("UNKNOWN")
  {
  }

  lemma ReadsIff(raw: string, name: string)
    requires Capital(name)
    ensures Upper(Strip(raw)) == name <==> Reads(raw, name)
  {
    if Upper(Strip(raw)) == name {
      StrippedReads(raw, name);
    }
    if Reads(raw, name) {
      var before, word, after :| raw == before + word + after && Blank(before) && Blank(after) && Spells(word, name);
      SpellsUpper(word, name);
      hide Upper, Blank, Spells, StripLeft, StripRight;
      assert raw == before + (word + after);
      StripLeftOfBlank(before, word + after);
      StripRightOfBlank(word, after);
    }
  }

  lemma SpellsUpper(word: string, name: string)
    requires Capital(name)
    ensures Spells(word, name) <==> Upper(word) == name
    ensures Spells(word, name) ==> word != "" && !IsSpace(word[0]) && !IsSpace(word[|word| - 1])
  {
    if Upper(word) == name {
      assert forall i | 0 <= i < |name| :: name[i] == UpperChar(word[i]);
    }
    if Spells(word, name) {
      assert forall i | 0 <= i < |name| :: UpperChar(word[i]) == name[i];
    }
  }

  lemma StrippedReads(raw: string, name: string)
    requires Capital(name) && Upper(Strip(raw)) == name
    ensures Reads(raw, name)
  {
    var before := StripLeftSplits(raw);
    var after := StripRightSplits(StripLeft(raw));
    SpellsUpper(Strip(raw), name);
    hide Upper, Blank, Spells, StripLeft, StripRight, Capital;
    assert raw == before + Strip(raw) + after;
  }

  lemma {:induction false} StripLeftSplits(s: string) returns (before: string)
    ensures Blank(before) && s == before + StripLeft(s)
  {
    before := "";
    if s != "" && IsSpace(s[0]) {
      var rest := StripLeftSplits(s[1..]);
      before := [s[0]] + rest;
    }
  }

  lemma {:induction false} StripRightSplits(s: string) returns (after: string)
    ensures Blank(after) && s == StripRight(s) + after
  {
    after := "";
    if s != "" && IsSpace(s[|s| - 1]) {
      var rest := StripRightSplits(s[..|s| - 1]);
      after := rest + [s[|s| - 1]];
      assert s == s[..|s| - 1] + [s[|s| - 1]];
    }
  }

  lemma {:induction false} StripLeftOfBlank(before: string, s: string)
    requires Blank(before) && s != "" && !IsSpace(s[0])
    ensures StripLeft(before + s) == s
  {
    if before == "" {
      assert before + s == s;
    } else {
      assert (before + s)[1..] == before[1..] + s;
      StripLeftOfBlank(before[1..], s);
    }
  }

  lemma {:induction false} StripRightOfBlank(s: string, after: string)
    requires Blank(after) && s != "" && !IsSpace(s[|s| - 1])
    ensures StripRight(s + after) == s
  {
    if after == "" {
      assert s + after == s;
    } else {
      var n := |after| - 1;
      assert (s + after)[..|s| + n] == s + after[..n];
      StripRightOfBlank(s, after[..n]);
    }
  }

  /** The name a severity is reported under. */
  function NameOf(v: Severity): string {
    match v
    case Critical => "CRITICAL"
    case High => "HIGH"
    case Medium => "MEDIUM"
    case Low => "LOW"
    case Info => "INFO"
    case Unknown => "UNKNOWN"
  }

  /** Round trip: every severity is read back from its name. */
  lemma SeverityRoundTrip(v: Severity)
    ensures NormaliseSeverity(Some(NameOf(v))) == v
  {
    hide NormaliseSeverity, Capital;
    CapitalNames();
    PlainName(NameOf(v));
  }

  lemma PlainName(name: string)
    requires Capital(name)
    ensures NormaliseSeverity(Some(name)) == SeverityOf(name)
  {
    assert "" + name + "" == name && Blank("") && Spells(name, name);
    assert Reads(name, name);
    ReadsIff(name, name);
    NormaliseIs(name);
  }

  /** Severity names are read without regard to case and surrounding space. */
  lemma SeverityIgnoresCase(raw: string)
    ensures NormaliseSeverity(Some(Lower(raw))) == NormaliseSeverity(Some(raw)) == NormaliseSeverity(Some(Upper(raw)))
  {
    StripCommutes(raw);
  }

  lemma UpperOfLower(s: string)
    ensures Upper(Lower(s)) == Upper(s) && Upper(Upper(s)) == Upper(s)
  {
  }

  lemma {:induction false} StripLeftCommutes(s: string)
    ensures StripLeft(Lower(s)) == Lower(StripLeft(s)) && StripLeft(Upper(s)) == Upper(StripLeft(s))
  {
    if s != "" {
      StripLeftCommutes(s[1..]);
      assert Lower(s)[1..] == Lower(s[1..]) && Upper(s)[1..] == Upper(s[1..]);
    }
  }

  lemma {:induction false} StripRightCommutes(s: string)
    ensures StripRight(Lower(s)) == Lower(StripRight(s)) && StripRight(Upper(s)) == Upper(StripRight(s))
  {
    if s != "" {
      var n := |s| - 1;
      StripRightCommutes(s[..n]);
      assert Lower(s)[..n] == Lower(s[..n]) && Upper(s)[..n] == Upper(s[..n]);
    }
  }

  lemma StripCommutes(s: string)
    ensures Upper(Strip(Lower(s))) == Upper(Strip(s)) == Upper(Strip(Upper(s)))
  {
    StripLeftCommutes(s);
    StripRightCommutes(StripLeft(s));
    UpperOfLower(Strip(s));
  }

  // ---------------------------------------------------------------- what each report says, exactly

  lemma TrivyResultMembers(r: TrivyResult, raw: Raw)
    ensures raw in TrivyVulnerabilities(r.vulnerabilities)
            <==> exists v | v in r.vulnerabilities :: raw == Raw("trivy", TrivyFacts(v))
    ensures raw in TrivySecrets(r.target, r.secrets)
            <==> exists s | s in r.secrets :: raw == Raw("trivy-secret", SecretFacts(r.target, s))
  {
    hide TrivyFacts, SecretFacts;
    if v :| v in r.vulnerabilities && raw == Raw("trivy", TrivyFacts(v)) {
      var i :| 0 <= i < |r.vulnerabilities| && r.vulnerabilities[i] == v;
      assert TrivyVulnerabilities(r.vulnerabilities)[i] == raw;
    }
    if s :| s in r.secrets && raw == Raw("trivy-secret", SecretFacts(r.target, s)) {
      var i :| 0 <= i < |r.secrets| && r.secrets[i] == s;
      assert TrivySecrets(r.target, r.secrets)[i] == raw;
    }
  }

  lemma {:induction false} TrivyConfigMembers(target: string, ms: seq<TrivyMisconfiguration>, raw: Raw)
    ensures raw in TrivyConfigs(target, ms)
            <==> exists m | m in ms ::
                   (m.status == None || m.status == Some("FAIL")) && raw == Raw("trivy-config", ConfigFacts(target, m))
  {
    hide ConfigFacts;
    if ms != [] {
      TrivyConfigMembers(target, ms[1..], raw);
      assert ms == [ms[0]] + ms[1..];
    }
  }

  lemma {:induction false} TrivyMembers(results: seq<TrivyResult>, raw: Raw)
    ensures raw in ParseTrivy(results)
            <==> exists r | r in results ::
                   || raw in TrivyVulnerabilities(r.vulnerabilities)
                   || raw in TrivyConfigs(r.target, r.misconfigurations)
                   || raw in TrivySecrets(r.target, r.secrets)
  {
    hide TrivyVulnerabilities, TrivyConfigs, TrivySecrets;
    if results != [] {
      TrivyMembers(results[1..], raw);
      assert results == [results[0]] + results[1..];
    }
  }

  /** The finding a vulnerability becomes: it is fixable exactly if a fixed version is given. */
  predicate IsTrivyVulnerability(f: Facts, v: TrivyVulnerability) {
    && f.ruleId == (if v.id == None then "unknown" else v.id.value)
    && f.severity == NormaliseSeverity(v.severity)
    && f.location == Lower(if v.pkgName == None then "None" else v.pkgName.value) + "@"
                     + (if v.installed == None then "None" else v.installed.value)
    && f.fixable == Some(v.fixedVersion != None && v.fixedVersion != Some(""))
  }

  /** The finding a misconfiguration becomes: fixes are not its matter, so `ignore_unfixed` never excuses it. */
  predicate IsTrivyConfig(f: Facts, target: string, m: TrivyMisconfiguration) {
    && f.ruleId == (if m.avdId != None && m.avdId != Some("") then m.avdId.value
                    else if m.id == None then "unknown" else m.id.value)
    && f.severity == NormaliseSeverity(m.severity)
    && f.location == target + ":" + (if m.startLine == None then "?" else m.startLine.value)
    && f.fixable == None
  }

  predicate IsTrivySecret(f: Facts, target: string, s: TrivySecret) {
    && f.ruleId == (if s.ruleId == None then "secret" else s.ruleId.value)
    && f.severity == Critical
    && f.location == target + ":" + (if s.startLine == None then "?" else s.startLine.value)
    && f.fixable == None
  }

  /** A Trivy report says exactly its vulnerabilities, its failed misconfigurations and its secrets. */
  lemma TrivyReportsExactly(results: seq<TrivyResult>, scanner: string, f: Facts)
    ensures Raw(scanner, f) in ParseTrivy(results)
            <==> exists r | r in results ::
                   || (scanner == "trivy" && exists v | v in r.vulnerabilities :: IsTrivyVulnerability(f, v))
                   || (scanner == "trivy-config" && exists m | m in r.misconfigurations ::
                         (m.status == None || m.status == Some("FAIL")) && IsTrivyConfig(f, r.target, m))
                   || (scanner == "trivy-secret" && exists s | s in r.secrets :: IsTrivySecret(f, r.target, s))
  {
    var raw := Raw(scanner, f);
    TrivyMembers(results, raw);
    TrivyFactsAre(f);
    hide *;
    forall r | r in results
      ensures raw in TrivyVulnerabilities(r.vulnerabilities)
              <==> scanner == "trivy" && exists v | v in r.vulnerabilities :: IsTrivyVulnerability(f, v)
      ensures raw in TrivyConfigs(r.target, r.misconfigurations)
              <==> scanner == "trivy-config" && exists m | m in r.misconfigurations ::
                     (m.status == None || m.status == Some("FAIL")) && IsTrivyConfig(f, r.target, m)
      ensures raw in TrivySecrets(r.target, r.secrets)
              <==> scanner == "trivy-secret" && exists s | s in r.secrets :: IsTrivySecret(f, r.target, s)
    {
      TrivyResultMembers(r, raw);
      TrivyConfigMembers(r.target, r.misconfigurations, raw);
    }
  }

  lemma TrivyFactsAre(f: Facts)
    ensures forall v :: IsTrivyVulnerability(f, v) <==> f == TrivyFacts(v)
    ensures forall t, m :: IsTrivyConfig(f, t, m) <==> f == ConfigFacts(t, m)
    ensures forall t, s :: IsTrivySecret(f, t, s) <==> f == SecretFacts(t, s)
  {
  }

  /** A Grype finding keeps an identifier that is a CVE number; another gives way to the first alias that is one. */
  predicate IsGrype(f: Facts, m: GrypeMatch) {
    var id := if m.id == None then "unknown" else m.id.value;
    && (if "CVE-" <= id || (forall i | 0 <= i < |m.aliases| :: !("CVE-" <= m.aliases[i])) then f.ruleId == id
        else exists i | 0 <= i < |m.aliases| ::
               m.aliases[i] == f.ruleId && "CVE-" <= f.ruleId && forall j | 0 <= j < i :: !("CVE-" <= m.aliases[j]))
    && f.severity == NormaliseSeverity(m.severity)
    && f.location == Lower(if m.name == None then "None" else m.name.value) + "@"
                     + (if m.version == None then "None" else m.version.value)
    && f.fixable == Some(m.fixState == Some("fixed"))
  }

  /** A Grype report says exactly its matches. */
  lemma GrypeReportsExactly(ms: seq<GrypeMatch>, scanner: string, f: Facts)
    ensures Raw(scanner, f) in ParseGrype(ms) <==> scanner == "grype" && exists m | m in ms :: IsGrype(f, m)
  {
    var raw := Raw(scanner, f);
    forall m | m in ms ensures IsGrype(f, m) <==> f == GrypeFacts(m) {
      GrypeFactsAre(f, m);
    }
    hide GrypeFacts, IsGrype;
    if m :| m in ms && raw == Raw("grype", GrypeFacts(m)) {
      GrypeReportsAll(ms, m);
    }
  }

  lemma GrypeFactsAre(f: Facts, m: GrypeMatch)
    ensures IsGrype(f, m) <==> f == GrypeFacts(m)
  {
    FirstCveIs(m.aliases, f.ruleId);
    NoCve(m.aliases);
    hide FirstCve;
    if FirstCve(m.aliases).Some? {
      FirstCveIs(m.aliases, FirstCve(m.aliases).value);
    }
  }

  lemma {:induction false} NoCve(aliases: seq<string>)
    ensures FirstCve(aliases).None? <==> forall i | 0 <= i < |aliases| :: !StartsWith(aliases[i], "CVE-")
  {
    if aliases != [] {
      NoCve(aliases[1..]);
      assert forall i | 0 < i < |aliases| :: aliases[1..][i - 1] == aliases[i];
    }
  }

  /** Where a dependency is: its first package, else its file; of a package URL the part after the last slash. */
  ghost predicate IsPlace(place: string, d: Dependency) {
    var pkg := if d.packageId != None && d.packageId != Some("") then d.packageId.value
               else if d.fileName == None then "unknown" else d.fileName.value;
    && (!("pkg:" <= pkg) ==> place == pkg)
    && ("pkg:" <= pkg && '/' !in pkg ==> place == Lower(pkg))
    && (forall dir, base :: "pkg:" <= pkg && pkg == dir + "/" + base && '/' !in base ==> place == Lower(base))
  }

  lemma PlaceIs(d: Dependency)
    ensures forall place :: IsPlace(place, d) <==> place == DcLocation(d)
  {
    var pkg := if d.packageId != None && d.packageId != Some("") then d.packageId.value
               else if d.fileName == None then "unknown" else d.fileName.value;
    assert DcLocation(d) == if "pkg:" <= pkg then Lower(AfterLastSlash(pkg)) else pkg;
    NoSlash(pkg);
    forall dir, base | pkg == dir + "/" + base && '/' !in base ensures AfterLastSlash(pkg) == base {
      AfterLastSlashOfPath(dir, base);
    }
    if '/' in pkg {
      var dir, base := SplitAtSlash(pkg);
    }
  }

  lemma {:induction false} NoSlash(s: string)
    ensures '/' !in s ==> AfterLastSlash(s) == s
  {
    if s != "" {
      NoSlash(s[..|s| - 1]);
      assert s == s[..|s| - 1] + [s[|s| - 1]];
    }
  }

  lemma {:induction false} SplitAtSlash(s: string) returns (dir: string, base: string)
    requires '/' in s
    ensures s == dir + "/" + base && '/' !in base
  {
    var n := |s| - 1;
    assert s == s[..n] + [s[n]];
    if s[n] == '/' {
      dir, base := s[..n], "";
    } else {
      dir, base := SplitAtSlash(s[..n]);
      base := base + [s[n]];
    }
  }

  /** A Dependency-Check finding always counts as fixable, and its severity falls back on the CVSS rating. */
  ghost predicate IsDependencyCheck(f: Facts, d: Dependency, v: DcVulnerability) {
    && f.ruleId == (if v.name == None then "unknown" else v.name.value)
    && f.severity == (if v.severity == None || v.severity == Some("") then NormaliseSeverity(v.cvssSeverity)
                      else NormaliseSeverity(v.severity))
    && IsPlace(f.location, d)
    && f.fixable == Some(true)
  }

  lemma {:induction false} DcMembers(ds: seq<Dependency>, raw: Raw)
    ensures raw in ParseDependencyCheck(ds)
            <==> exists d, v | d in ds && v in d.vulnerabilities :: raw == Raw("dependency-check", DcFacts(d, v))
  {
    if ds != [] {
      DcMembers(ds[1..], raw);
      assert ds == [ds[0]] + ds[1..];
      hide DcFacts;
      if v :| v in ds[0].vulnerabilities && raw == Raw("dependency-check", DcFacts(ds[0], v)) {
        DependencyCheckReportsAll(ds, ds[0], v);
      }
    }
  }

  /** A Dependency-Check report says exactly the vulnerabilities of its dependencies. */
  lemma DependencyCheckReportsExactly(ds: seq<Dependency>, scanner: string, f: Facts)
    ensures Raw(scanner, f) in ParseDependencyCheck(ds)
            <==> scanner == "dependency-check"
                 && exists d, v | d in ds && v in d.vulnerabilities :: IsDependencyCheck(f, d, v)
  {
    DcMembers(ds, Raw(scanner, f));
    forall d, v | d in ds && v in d.vulnerabilities
      ensures IsDependencyCheck(f, d, v) <==> f == DcFacts(d, v)
    {
      PlaceIs(d);
    }
  }

  // ---------------------------------------------------------------- in order, and each once

  lemma {:induction false} TrivyInOrder(a: seq<TrivyResult>, b: seq<TrivyResult>)
    ensures ParseTrivy(a + b) == ParseTrivy(a) + ParseTrivy(b)
  {
    hide TrivyVulnerabilities, TrivyConfigs, TrivySecrets;
    if a == [] {
      assert a + b == b;
    } else {
      assert (a + b)[1..] == a[1..] + b && (a + b)[0] == a[0];
      TrivyInOrder(a[1..], b);
    }
  }

  lemma {:induction false} TrivyConfigsInOrder(target: string, a: seq<TrivyMisconfiguration>,
                                               b: seq<TrivyMisconfiguration>)
    ensures TrivyConfigs(target, a + b) == TrivyConfigs(target, a) + TrivyConfigs(target, b)
  {
    hide ConfigFacts;
    if a == [] {
      assert a + b == b;
    } else {
      assert (a + b)[1..] == a[1..] + b && (a + b)[0] == a[0];
      TrivyConfigsInOrder(target, a[1..], b);
    }
  }

  /** A result gives its vulnerabilities, then its failed misconfigurations, then its secrets, each once. */
  lemma OneTrivyResult(r: TrivyResult, m: TrivyMisconfiguration)
    ensures var found := ParseTrivy([r]);
            var configs := TrivyConfigs(r.target, r.misconfigurations);
            var n, k := |r.vulnerabilities|, |r.vulnerabilities| + |configs|;
            && |found| == k + |r.secrets| && found[n..k] == configs
            && (forall i | 0 <= i < n :: found[i] == Raw("trivy", TrivyFacts(r.vulnerabilities[i])))
            && (forall i | 0 <= i < |r.secrets| ::
                  found[k + i] == Raw("trivy-secret", SecretFacts(r.target, r.secrets[i])))
    ensures TrivyConfigs(r.target, [m])
            == if m.status == None || m.status == Some("FAIL") then [Raw("trivy-config", ConfigFacts(r.target, m))]
               else []
  {
    hide TrivyFacts, ConfigFacts, SecretFacts;
    assert [r][1..] == [] && [m][1..] == [];
    var a, b := TrivyVulnerabilities(r.vulnerabilities), TrivyConfigs(r.target, r.misconfigurations);
    var c := TrivySecrets(r.target, r.secrets);
    assert ParseTrivy([r]) == a + b + c;
    assert forall i | 0 <= i < |r.secrets| :: (a + b + c)[|a| + |b| + i] == c[i];
  }

  /** Each match of Grype gives one finding, in order. */
  lemma GrypeInOrder(ms: seq<GrypeMatch>)
    ensures |ParseGrype(ms)| == |ms|
    ensures forall i | 0 <= i < |ms| :: ParseGrype(ms)[i] == Raw("grype", GrypeFacts(ms[i]))
  {
  }

  /** Each vulnerability of each dependency gives one finding, in order. */
  lemma {:induction false} DependencyCheckInOrder(a: seq<Dependency>, b: seq<Dependency>, d: Dependency)
    ensures ParseDependencyCheck(a + b) == ParseDependencyCheck(a) + ParseDependencyCheck(b)
    ensures |ParseDependencyCheck([d])| == |d.vulnerabilities|
    ensures forall i | 0 <= i < |d.vulnerabilities| ::
              ParseDependencyCheck([d])[i] == Raw("dependency-check", DcFacts(d, d.vulnerabilities[i]))
  {
    hide DcFacts;
    assert [d][1..] == [];
    assert ParseDependencyCheck([d]) == DcFindings(d);
    if a == [] {
      assert a + b == b;
    } else {
      assert (a + b)[1..] == a[1..] + b && (a + b)[0] == a[0];
      DependencyCheckInOrder(a[1..], b, d);
    }
  }

  // ---------------------------------------------------------------- from report to verdict

  /** One report from one parser decides alone, no exceptions. */
  predicate OnlyReportIs(p: Policy, raws: seq<Raw>) {
    p.exceptions == [] && |p.reports| == 1 && p.reports[0].content == Parsed(raws)
  }

  lemma VerdictOnRaws(p: Policy, raws: seq<Raw>, today: int, allowMissing: set<string>)
    requires OnlyReportIs(p, raws)
    ensures Passes(p, today, allowMissing)
            <==> forall scanner, f | Raw(scanner, f) in raws ::
                   f.severity !in p.failOn || (p.ignoreUnfixed && f.fixable == Some(false))
  {
    VerdictIs(p, today, allowMissing);
    hide Passes;
    assert p.reports[0] in p.reports;
    assert forall raw: Raw | raw in raws :: raw == Raw(raw.scanner, raw.facts);
  }

  /** Vulnerabilities may go unfixed, misconfigurations and secrets may not. */
  predicate AcceptsTrivy(p: Policy, results: seq<TrivyResult>) {
    && (forall r, v | r in results && v in r.vulnerabilities ::
          || NormaliseSeverity(v.severity) !in p.failOn
          || (p.ignoreUnfixed && (v.fixedVersion == None || v.fixedVersion == Some(""))))
    && (forall r, m | r in results && m in r.misconfigurations ::
          || NormaliseSeverity(m.severity) !in p.failOn
          || (m.status != None && m.status != Some("FAIL")))
    && (forall r, s | r in results && s in r.secrets :: Critical !in p.failOn)
  }

  /** From a Trivy report to the verdict. */
  lemma TrivyVerdict(p: Policy, results: seq<TrivyResult>, today: int, allowMissing: set<string>)
    requires OnlyReportIs(p, ParseTrivy(results))
    ensures Passes(p, today, allowMissing) <==> AcceptsTrivy(p, results)
  {
    var raws := ParseTrivy(results);
    VerdictOnRaws(p, raws, today, allowMissing);
    hide Passes, NormaliseSeverity, ParseTrivy, Package, AcceptsTrivy;
    if Passes(p, today, allowMissing) {
      TrivyAccepted(p, results);
    } else {
      var scanner, f :| Raw(scanner, f) in raws && f.severity in p.failOn
                        && !(p.ignoreUnfixed && f.fixable == Some(false));
      TrivyRejected(p, results, scanner, f);
    }
  }

  lemma TrivyAccepted(p: Policy, results: seq<TrivyResult>)
    requires forall scanner, f | Raw(scanner, f) in ParseTrivy(results) ::
               f.severity !in p.failOn || (p.ignoreUnfixed && f.fixable == Some(false))
    ensures AcceptsTrivy(p, results)
  {
    hide NormaliseSeverity, ParseTrivy, Package;
    forall r, v | r in results && v in r.vulnerabilities
      ensures || NormaliseSeverity(v.severity) !in p.failOn
              || (p.ignoreUnfixed && (v.fixedVersion == None || v.fixedVersion == Some("")))
    {
      TrivyReportsAll(results, r, v);
    }
    forall r, m | r in results && m in r.misconfigurations
      ensures NormaliseSeverity(m.severity) !in p.failOn || (m.status != None && m.status != Some("FAIL"))
    {
      if m.status == None || m.status == Some("FAIL") {
        TrivyReportsExactly(results, "trivy-config", ConfigFacts(r.target, m));
      }
    }
    forall r, s | r in results && s in r.secrets ensures Critical !in p.failOn {
      TrivyReportsExactly(results, "trivy-secret", SecretFacts(r.target, s));
    }
  }

  lemma TrivyRejected(p: Policy, results: seq<TrivyResult>, scanner: string, f: Facts)
    requires Raw(scanner, f) in ParseTrivy(results)
    requires f.severity in p.failOn && !(p.ignoreUnfixed && f.fixable == Some(false))
    ensures !AcceptsTrivy(p, results)
  {
    hide NormaliseSeverity, ParseTrivy, Package;
    TrivyReportsExactly(results, scanner, f);
  }

  /** From a Grype report to the verdict. */
  lemma GrypeVerdict(p: Policy, ms: seq<GrypeMatch>, today: int, allowMissing: set<string>)
    requires OnlyReportIs(p, ParseGrype(ms))
    ensures Passes(p, today, allowMissing)
            <==> forall m | m in ms ::
                   || NormaliseSeverity(m.severity) !in p.failOn
                   || (p.ignoreUnfixed && m.fixState != Some("fixed"))
  {
    VerdictOnRaws(p, ParseGrype(ms), today, allowMissing);
    hide Passes, NormaliseSeverity;
    forall m | m in ms ensures Raw("grype", GrypeFacts(m)) in ParseGrype(ms) {
      GrypeReportsAll(ms, m);
    }
  }

  /** From a Dependency-Check report to the verdict: nothing there counts as unfixed. */
  lemma DependencyCheckVerdict(p: Policy, ds: seq<Dependency>, today: int, allowMissing: set<string>)
    requires OnlyReportIs(p, ParseDependencyCheck(ds))
    ensures Passes(p, today, allowMissing)
            <==> forall d, v | d in ds && v in d.vulnerabilities ::
                   var severity := if v.severity == None || v.severity == Some("") then v.cvssSeverity else v.severity;
                   NormaliseSeverity(severity) !in p.failOn
  {
    var raws := ParseDependencyCheck(ds);
    VerdictOnRaws(p, raws, today, allowMissing);
    hide Passes, NormaliseSeverity, DcLocation, ParseDependencyCheck;
    forall d, v | d in ds && v in d.vulnerabilities ensures Raw("dependency-check", DcFacts(d, v)) in raws {
      DependencyCheckReportsAll(ds, d, v);
    }
    if scanner, f :| Raw(scanner, f) in raws && f.severity in p.failOn
                     && !(p.ignoreUnfixed && f.fixable == Some(false)) {
      DcMembers(ds, Raw(scanner, f));
    }
  }

  /** Whatever else is reported: a finding of a failing severity that is not waived, nor let pass unfixed, blocks its
      rule at its place and fails the build. */
  lemma ReportedBlocks(p: Policy, raws: seq<Raw>, raw: Raw, today: int, allowMissing: set<string>)
    requires HasReport(p, raws) && raw in raws
    requires raw.facts.severity in p.failOn && (p.ignoreUnfixed ==> raw.facts.fixable != Some(false))
    requires forall e: Waiver | e in p.exceptions && e.id == raw.facts.ruleId && today <= e.expires ::
               e.location != None && e.location != Some(raw.facts.location)
    ensures (raw.facts.ruleId, raw.facts.location) in BlockingKeys(p, today, Collected(p.reports))
    ensures !Passes(p, today, allowMissing)
  {
    ReportedFact(p, raws, raw);
    BlocksIs(p, today, raw.facts);
    hide Blocks, Collected;
    BlockingKeyIs(p, today, Collected(p.reports), raw.facts.ruleId, raw.facts.location);
  }

  /** So does a vulnerability that Trivy names with a failing severity, in any letter case, and with a fix. */
  lemma FixableVulnerabilityBlocks(p: Policy, results: seq<TrivyResult>, r: TrivyResult, v: TrivyVulnerability,
                                   severity: Severity, word: string, today: int, allowMissing: set<string>)
    requires HasReport(p, ParseTrivy(results)) && r in results && v in r.vulnerabilities
    requires v.id.Some? && v.severity == Some(word) && Reads(word, NameOf(severity)) && severity in p.failOn
    requires v.fixedVersion.Some? && v.fixedVersion.value != ""
    requires forall e: Waiver | e in p.exceptions && e.id == v.id.value && today <= e.expires ::
               e.location != None && e.location != Some(Package(v.pkgName, v.installed))
    ensures (v.id.value, Package(v.pkgName, v.installed)) in BlockingKeys(p, today, Collected(p.reports))
    ensures !Passes(p, today, allowMissing)
  {
    CapitalNames();
    ReadsIff(word, NameOf(severity));
    NormaliseIs(word);
    SeverityRoundTrip(severity);
    PlainName(NameOf(severity));
    hide Reads, Capital, NameOf, NormaliseSeverity, SeverityOf, Package, ParseTrivy, Collected, BlockingKeys, Passes;
    TrivyReportsAll(results, r, v);
    ReportedBlocks(p, ParseTrivy(results), Raw("trivy", TrivyFacts(v)), today, allowMissing);
  }
}
