/** `evaluate` of scripts/security_gate.py: aggregate findings, apply waivers, block once per key. */
module SeverityGate {
  import opened Prelude

  datatype Severity = Critical | High | Medium | Low | Info | Unknown

  /** What a parser reports and nothing later changes. */
  datatype Facts = Facts(ruleId: string, severity: Severity, location: string, fixable: Option<bool>)
  {
    function Key(): (string, string) {
      (ruleId, location)
    }
  }

  /** A parsed finding before labelling. */
  datatype Raw = Raw(scanner: string, facts: Facts)

  datatype Content = Parsed(raws: seq<Raw>) | Unreadable(error: string)

  /** An entry of the policy's report list together with what its file held. */
  datatype Report = Report(name: string, parser: string, labelAs: string, required: bool, content: Content)

  /** A time-boxed exception; dates are day numbers. */
  datatype Waiver = Waiver(id: string, location: Option<string>, expires: int, approvedBy: string, reason: string)

  datatype Policy = Policy(failOn: set<Severity>, ignoreUnfixed: bool, reports: seq<Report>, exceptions: seq<Waiver>)

  datatype MissingReport = MissingReport(name: string, error: string)

  // ---------------------------------------------------------------- specification

  predicate Matches(e: Waiver, f: Facts) {
    f.ruleId == e.id && (e.location.None? || e.location.value == f.location)
  }

  predicate Waived(exceptions: seq<Waiver>, today: int, f: Facts) {
    exists e | e in exceptions :: e.expires >= today && Matches(e, f)
  }

  /** The finding would fail the build on its own. */
  predicate Blocks(p: Policy, today: int, f: Facts) {
    && !Waived(p.exceptions, today, f)
    && f.severity in p.failOn
    && !(p.ignoreUnfixed && f.fixable == Some(false))
  }

  function FactsOf(r: Report): seq<Facts> {
    if r.content.Unreadable? then []
    else seq(|r.content.raws|, i requires 0 <= i < |r.content.raws| => r.content.raws[i].facts)
  }

  /** All findings, in report order. */
  function Collected(rs: seq<Report>): seq<Facts> {
    if rs == [] then [] else Collected(rs[..|rs| - 1]) + FactsOf(rs[|rs| - 1])
  }

  predicate IsMissing(r: Report, allowMissing: set<string>) {
    r.content.Unreadable? && r.required && r.parser !in allowMissing
  }

  function Missing(rs: seq<Report>, allowMissing: set<string>): seq<MissingReport> {
    if rs == [] then []
    else
      var r := rs[|rs| - 1];
      Missing(rs[..|rs| - 1], allowMissing)
      + (if IsMissing(r, allowMissing) then [MissingReport(r.name, r.content.error)] else [])
  }

  function BlockingKeys(p: Policy, today: int, fs: seq<Facts>): set<(string, string)> {
    set f | f in fs && Blocks(p, today, f) :: f.Key()
  }

  /** The set-level verdict. */
  predicate Passes(p: Policy, today: int, allowMissing: set<string>) {
    Missing(p.reports, allowMissing) == [] && BlockingKeys(p, today, Collected(p.reports)) == {}
  }

  /** The finding is the one marked for its key: it blocks and no earlier finding with its key does. */
  predicate MarkedAt(p: Policy, today: int, fs: seq<Facts>, i: nat)
    requires i < |fs|
  {
    Blocks(p, today, fs[i]) && forall j | 0 <= j < i && fs[j].Key() == fs[i].Key() :: !Blocks(p, today, fs[j])
  }

  function FirstWaiver(exceptions: seq<Waiver>, today: int, f: Facts): Option<Waiver> {
    if exceptions == [] then None
    else if exceptions[0].expires >= today && Matches(exceptions[0], f) then Some(exceptions[0])
    else FirstWaiver(exceptions[1..], today, f)
  }

  lemma {:induction false} FirstWaiverExists(exceptions: seq<Waiver>, today: int, f: Facts)
    ensures FirstWaiver(exceptions, today, f).Some? <==> Waived(exceptions, today, f)
  {
    if exceptions != [] {
      FirstWaiverExists(exceptions[1..], today, f);
      assert exceptions == [exceptions[0]] + exceptions[1..];
      if Waived(exceptions, today, f) && !(exceptions[0].expires >= today && Matches(exceptions[0], f)) {
        var e :| e in exceptions && e.expires >= today && Matches(e, f);
        assert e in exceptions[1..];
      }
    }
  }

  /** The record of a finding names the first exception, in the order of the policy, that is active and matches. */
  lemma {:induction false} FirstWaiverIs(exceptions: seq<Waiver>, today: int, f: Facts, e: Waiver)
    ensures FirstWaiver(exceptions, today, f) == Some(e)
            <==> exists i | 0 <= i < |exceptions| ::
                   && exceptions[i] == e && e.expires >= today && Matches(e, f)
                   && forall j | 0 <= j < i :: !(exceptions[j].expires >= today && Matches(exceptions[j], f))
  {
    hide Matches;
    if exceptions != [] {
      FirstWaiverIs(exceptions[1..], today, f, e);
      assert forall i | 0 < i < |exceptions| :: exceptions[1..][i - 1] == exceptions[i];
    }
  }

  /** The findings as the reports give them, each with the scanner it counts under: that of the report's own parser
      is replaced by the label, if the report has one. */
  function LabelsOf(r: Report): seq<(string, Severity)> {
    if r.content.Unreadable? then []
    else seq(|r.content.raws|, i requires 0 <= i < |r.content.raws| =>
             (if r.labelAs != "" && r.content.raws[i].scanner == r.parser then r.labelAs
              else r.content.raws[i].scanner, r.content.raws[i].facts.severity))
  }

  function ReportLabels(rs: seq<Report>): seq<(string, Severity)> {
    if rs == [] then [] else ReportLabels(rs[..|rs| - 1]) + LabelsOf(rs[|rs| - 1])
  }

  // ---------------------------------------------------------------- the mutable findings

  class Finding {
    const facts: Facts
    var scanner: string
    var waivedBy: Option<Waiver>
    var blocking: bool

    constructor (raw: Raw)
      ensures facts == raw.facts && scanner == raw.scanner && waivedBy == None && !blocking
    {
      facts := raw.facts;
      scanner := raw.scanner;
      waivedBy := None;
      blocking := false;
    }
  }

  predicate Distinct(fs: seq<Finding>) {
    forall i, j | 0 <= i < j < |fs| :: fs[i] != fs[j]
  }

  function AllFacts(fs: seq<Finding>): seq<Facts> {
    seq(|fs|, i requires 0 <= i < |fs| => fs[i].facts)
  }

  function Labels(findings: seq<Finding>): seq<(string, Severity)>
    reads findings
  {
    seq(|findings|, i requires 0 <= i < |findings| reads findings => (findings[i].scanner, findings[i].facts.severity))
  }

  lemma LabelsAre(findings: seq<Finding>, labels: seq<(string, Severity)>)
    ensures Labels(findings) == labels
            <==> |labels| == |findings|
                 && forall i | 0 <= i < |findings| :: labels[i] == (findings[i].scanner, findings[i].facts.severity)
  {
  }

  predicate Untouched(fs: seq<Finding>)
    reads fs
  {
    forall f | f in fs :: f.waivedBy == None && !f.blocking
  }

  /** One readable report: its findings, relabelled where the report says so. */
  method ReadReport(r: Report) returns (parsed: seq<Finding>)
    requires r.content.Parsed?
    ensures fresh(parsed) && Distinct(parsed) && Untouched(parsed)
    ensures AllFacts(parsed) == FactsOf(r)
    ensures forall i | 0 <= i < |parsed| :: var raw := r.content.raws[i];
              parsed[i].scanner == if r.labelAs != "" && raw.scanner == r.parser then r.labelAs else raw.scanner
    ensures Labels(parsed) == LabelsOf(r)
  {
    parsed := [];
    var raws := r.content.raws;
    for i := 0 to |raws|
      invariant |parsed| == i && fresh(parsed) && Distinct(parsed) && Untouched(parsed)
      invariant forall k | 0 <= k < i :: parsed[k].facts == raws[k].facts
      invariant forall k | 0 <= k < i :: parsed[k].scanner ==
                  if r.labelAs != "" && raws[k].scanner == r.parser then r.labelAs else raws[k].scanner
    {
      var f := new Finding(raws[i]);
      if r.labelAs != "" && f.scanner == r.parser {
        f.scanner := r.labelAs;
      }
      parsed := parsed + [f];
    }
  }

  lemma NoFindings()
    ensures AllFacts([]) == [] && Labels([]) == []
  {
  }

  lemma NothingRead(r: Report)
    requires r.content.Unreadable?
    ensures FactsOf(r) == [] && LabelsOf(r) == []
  {
  }

  lemma Joined(a: seq<Finding>, b: seq<Finding>)
    ensures AllFacts(a + b) == AllFacts(a) + AllFacts(b) && Labels(a + b) == Labels(a) + Labels(b)
  {
  }

  /** The first loop of `evaluate`: collect findings and unreadable required reports. */
  method Collect(rs: seq<Report>, allowMissing: set<string>)
    returns (findings: seq<Finding>, missing: seq<MissingReport>)
    ensures fresh(findings) && Distinct(findings) && Untouched(findings)
    ensures AllFacts(findings) == Collected(rs) && Labels(findings) == ReportLabels(rs)
    ensures missing == Missing(rs, allowMissing)
  {
    hide AllFacts, Labels, FactsOf, LabelsOf;
    findings, missing := [], [];
    NoFindings();
    for i := 0 to |rs|
      invariant fresh(findings) && Distinct(findings) && Untouched(findings)
      invariant AllFacts(findings) == Collected(rs[..i]) && Labels(findings) == ReportLabels(rs[..i])
      invariant missing == Missing(rs[..i], allowMissing)
    {
      assert rs[..i + 1][..i] == rs[..i];
      var r := rs[i];
      match r.content {
        case Parsed(_) =>
          var parsed := ReadReport(r);
          Joined(findings, parsed);
          findings := findings + parsed;
        case Unreadable(error) =>
          NothingRead(r);
          if r.required && r.parser !in allowMissing {
            missing := missing + [MissingReport(r.name, error)];
          }
      }
    }
    assert rs[..|rs|] == rs;
  }

  /** What the set of seen keys is for, and how it grows. */
  lemma SeenNext(p: Policy, today: int, fs: seq<Facts>, i: nat)
    requires i < |fs|
    ensures MarkedAt(p, today, fs, i)
            <==> Blocks(p, today, fs[i]) && fs[i].Key() !in BlockingKeys(p, today, fs[..i])
    ensures BlockingKeys(p, today, fs[..i + 1])
            == BlockingKeys(p, today, fs[..i]) + (if Blocks(p, today, fs[i]) then {fs[i].Key()} else {})
  {
    hide Blocks;
    assert fs[..i + 1] == fs[..i] + [fs[i]];
    assert forall k | 0 <= k < i :: fs[..i][k] == fs[k];
    assert forall k | 0 <= k < i :: fs[k] in fs[..i];
  }

  /** The second loop: waive, filter, and mark one finding per key. */
  method Mark(findings: seq<Finding>, p: Policy, today: int)
    requires Distinct(findings) && Untouched(findings)
    modifies findings
    ensures forall i | 0 <= i < |findings| ::
              && findings[i].blocking == MarkedAt(p, today, AllFacts(findings), i)
              && findings[i].waivedBy == FirstWaiver(p.exceptions, today, findings[i].facts)
              && findings[i].scanner == old(findings[i].scanner)
  {
    var seen: set<(string, string)> := {};
    ghost var fs := AllFacts(findings);
    assert seen == BlockingKeys(p, today, fs[..0]);
    hide FirstWaiver, Waived, Matches, MarkedAt, BlockingKeys;
    for i := 0 to |findings|
      invariant forall k | 0 <= k < i ::
          && findings[k].blocking == MarkedAt(p, today, fs, k)
          && findings[k].waivedBy == FirstWaiver(p.exceptions, today, fs[k])
      invariant forall k | i <= k < |findings| :: findings[k].waivedBy == None && !findings[k].blocking
      invariant forall k | 0 <= k < |findings| :: findings[k].scanner == old(findings[k].scanner)
      invariant seen == BlockingKeys(p, today, fs[..i])
    {
      var f := findings[i];
      FirstWaiverExists(p.exceptions, today, f.facts);
      var waiver := FirstWaiver(p.exceptions, today, f.facts);
      assert Blocks(p, today, f.facts) <==> waiver.None? && f.facts.severity in p.failOn
                                            && !(p.ignoreUnfixed && f.facts.fixable == Some(false));
      SeenNext(p, today, fs, i);
      hide Blocks;
      if waiver.Some? {
        f.waivedBy := waiver;
      } else if f.facts.severity !in p.failOn {
      } else if p.ignoreUnfixed && f.facts.fixable == Some(false) {
      } else if f.facts.Key() !in seen {
        seen := seen + {f.facts.Key()};
        f.blocking := true;
      }
    }
  }

  lemma {:induction false} SomeMarked(p: Policy, today: int, fs: seq<Facts>, n: nat)
    requires n < |fs| && Blocks(p, today, fs[n])
    ensures exists i | 0 <= i <= n :: MarkedAt(p, today, fs, i) && fs[i].Key() == fs[n].Key()
  {
    if j :| 0 <= j < n && fs[j].Key() == fs[n].Key() && Blocks(p, today, fs[j]) {
      SomeMarked(p, today, fs, j);
    } else {
      assert MarkedAt(p, today, fs, n);
    }
  }

  /** Every blocking key has exactly one marked finding, the first that blocks; no other key has any. */
  lemma ExactlyOneMarked(p: Policy, today: int, fs: seq<Facts>, key: (string, string))
    ensures key in BlockingKeys(p, today, fs)
            <==> exists i | 0 <= i < |fs| :: MarkedAt(p, today, fs, i) && fs[i].Key() == key
    ensures forall i, j | 0 <= i < |fs| && 0 <= j < |fs| && MarkedAt(p, today, fs, i) && MarkedAt(p, today, fs, j)
                          && fs[i].Key() == fs[j].Key() :: i == j
    ensures forall i, j | 0 <= j < i < |fs| && MarkedAt(p, today, fs, i)
                          && fs[j].ruleId == fs[i].ruleId && fs[j].location == fs[i].location ::
              !Blocks(p, today, fs[j])
  {
    if key in BlockingKeys(p, today, fs) {
      var n :| 0 <= n < |fs| && Blocks(p, today, fs[n]) && fs[n].Key() == key;
      SomeMarked(p, today, fs, n);
    }
  }

  /** `counts.get(s, {}).get(v, 0)`. */
  function Cell(counts: map<string, map<Severity, nat>>, s: string, v: Severity): nat {
    if s in counts && v in counts[s] then counts[s][v] else 0
  }

  /** The table holds exactly the scanners that reported something, and for each severity how often. */
  ghost predicate CountsAre(counts: map<string, map<Severity, nat>>, labels: seq<(string, Severity)>) {
    && (forall s :: s in counts <==> exists i | 0 <= i < |labels| :: labels[i].0 == s)
    && (forall s, v :: Cell(counts, s, v) == multiset(labels)[(s, v)])
  }

  /** The third loop. */
  method Count(findings: seq<Finding>) returns (counts: map<string, map<Severity, nat>>)
    ensures CountsAre(counts, Labels(findings))
  {
    counts := map[];
    ghost var labels := Labels(findings);
    LabelsAre(findings, labels);
    hide Labels, CountsAre;
    NoCounts();
    for i := 0 to |findings|
      invariant CountsAre(counts, labels[..i])
    {
      var s, v := findings[i].scanner, findings[i].facts.severity;
      var row := if s in counts then counts[s] else map[];
      assert labels[..i + 1] == labels[..i] + [(s, v)];
      CountOne(counts, labels[..i], s, v);
      counts := counts[s := row[v := (if v in row then row[v] else 0) + 1]];
    }
    assert labels[..|findings|] == labels;
  }

  lemma NoCounts()
    ensures CountsAre(map[], [])
  {
  }

  lemma CountKeys(keys: set<string>, labels: seq<(string, Severity)>, s: string, v: Severity)
    requires forall t :: t in keys <==> exists i | 0 <= i < |labels| :: labels[i].0 == t
    ensures forall t :: t in keys + {s} <==> exists i | 0 <= i < |labels + [(s, v)]| :: (labels + [(s, v)])[i].0 == t
  {
    var longer := labels + [(s, v)];
    forall t ensures t in keys + {s} <==> exists i | 0 <= i < |longer| :: longer[i].0 == t {
      if t == s {
        assert longer[|labels|].0 == t;
      } else if i :| 0 <= i < |labels| && labels[i].0 == t {
        assert longer[i].0 == t;
      }
    }
  }

  lemma OneMore(counts: map<string, map<Severity, nat>>, s: string, v: Severity, t: string, x: Severity)
    ensures var row := if s in counts then counts[s] else map[];
            var after := counts[s := row[v := (if v in row then row[v] else 0) + 1]];
            Cell(after, t, x) == Cell(counts, t, x) + (if (t, x) == (s, v) then 1 else 0)
  {
  }

  lemma CountOne(counts: map<string, map<Severity, nat>>, labels: seq<(string, Severity)>, s: string, v: Severity)
    requires CountsAre(counts, labels)
    ensures var row := if s in counts then counts[s] else map[];
            CountsAre(counts[s := row[v := (if v in row then row[v] else 0) + 1]], labels + [(s, v)])
  {
    hide Cell;
    CountKeys(counts.Keys, labels, s, v);
    forall t, x
      ensures multiset(labels + [(s, v)])[(t, x)] == multiset(labels)[(t, x)] + (if (t, x) == (s, v) then 1 else 0)
    {
    }
    forall t, x
      ensures var row := if s in counts then counts[s] else map[];
              Cell(counts[s := row[v := (if v in row then row[v] else 0) + 1]], t, x)
              == multiset(labels + [(s, v)])[(t, x)]
    {
      OneMore(counts, s, v, t, x);
    }
  }

  /** `evaluate`: the loops compute the set-level verdict. */
  method Evaluate(p: Policy, today: int, allowMissing: set<string>)
    returns (passed: bool, findings: seq<Finding>, missing: seq<MissingReport>, expired: seq<Waiver>,
             counts: map<string, map<Severity, nat>>)
    ensures passed == Passes(p, today, allowMissing)
    ensures missing == Missing(p.reports, allowMissing)
    ensures AllFacts(findings) == Collected(p.reports)
    ensures forall i | 0 <= i < |findings| ::
              && findings[i].blocking == MarkedAt(p, today, Collected(p.reports), i)
              && findings[i].waivedBy == FirstWaiver(p.exceptions, today, Collected(p.reports)[i])
    ensures forall e :: e in expired <==> e in p.exceptions && e.expires < today
    ensures Labels(findings) == ReportLabels(p.reports) && CountsAre(counts, ReportLabels(p.reports))
  {
    hide FirstWaiver, Blocks, Labels, ReportLabels, CountsAre, Missing, Collected;
    findings, missing := Collect(p.reports, allowMissing);
    expired := [];
    for i := 0 to |p.exceptions|
      invariant forall e :: e in expired <==> e in p.exceptions[..i] && e.expires < today
    {
      if p.exceptions[i].expires < today {
        expired := expired + [p.exceptions[i]];
      }
      assert p.exceptions[..i + 1] == p.exceptions[..i] + [p.exceptions[i]];
    }
    assert p.exceptions[..|p.exceptions|] == p.exceptions;
    ghost var labels := Labels(findings);
    LabelsAre(findings, labels);
    Mark(findings, p, today);
    LabelsAre(findings, labels);
    counts := Count(findings);
    var anyBlocking := AnyBlocking(findings, p, today);
    passed := missing == [] && !anyBlocking;
  }

  /** `any(f.blocking for f in findings)` on marked findings. */
  method AnyBlocking(findings: seq<Finding>, ghost p: Policy, ghost today: int) returns (found: bool)
    requires forall i | 0 <= i < |findings| :: findings[i].blocking == MarkedAt(p, today, AllFacts(findings), i)
    ensures found <==> BlockingKeys(p, today, AllFacts(findings)) != {}
  {
    ghost var fs := AllFacts(findings);
    found := false;
    for i := 0 to |findings|
      invariant found <==> exists k | 0 <= k < i :: MarkedAt(p, today, fs, k)
    {
      if findings[i].blocking {
        found := true;
      }
    }
    MarkedIffBlocking(p, today, fs);
  }

  lemma MarkedIffBlocking(p: Policy, today: int, fs: seq<Facts>)
    ensures (exists k | 0 <= k < |fs| :: MarkedAt(p, today, fs, k)) <==> BlockingKeys(p, today, fs) != {}
  {
    if k :| 0 <= k < |fs| && MarkedAt(p, today, fs, k) {
      assert fs[k].Key() in BlockingKeys(p, today, fs);
    }
    if key :| key in BlockingKeys(p, today, fs) {
      ExactlyOneMarked(p, today, fs, key);
    }
  }
}
