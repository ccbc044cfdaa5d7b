/** What the gate promises: order independence, failing closed, and when losing a report is harmless. */
module GateTheorems {
  import opened Prelude
  import opened SeverityGate

  lemma {:induction false} CollectedMembers(rs: seq<Report>, f: Facts)
    ensures f in Collected(rs) <==> exists r | r in rs :: f in FactsOf(r)
  {
    if rs != [] {
      var rs0, last := rs[..|rs| - 1], rs[|rs| - 1];
      CollectedMembers(rs0, f);
      assert rs == rs0 + [last];
    }
  }

  lemma {:induction false} MissingMembers(rs: seq<Report>, allowMissing: set<string>)
    ensures Missing(rs, allowMissing) == [] <==> forall r | r in rs :: !IsMissing(r, allowMissing)
  {
    if rs != [] {
      var rs0, last := rs[..|rs| - 1], rs[|rs| - 1];
      MissingMembers(rs0, allowMissing);
      assert rs == rs0 + [last];
    }
  }

  /** The missing list names exactly the unreadable reports that are required and not tolerated, with the error. */
  lemma {:induction false} MissingIs(rs: seq<Report>, allowMissing: set<string>, m: MissingReport)
    ensures m in Missing(rs, allowMissing)
            <==> exists r | r in rs && r.content.Unreadable? ::
                   r.required && r.parser !in allowMissing && r.name == m.name && r.content.error == m.error
  {
    if rs != [] {
      var rs0, last := rs[..|rs| - 1], rs[|rs| - 1];
      MissingIs(rs0, allowMissing, m);
      assert rs == rs0 + [last];
    }
  }

  lemma {:induction false} ReportLabelsMembers(rs: seq<Report>, entry: (string, Severity))
    ensures entry in ReportLabels(rs) <==> exists r | r in rs :: entry in LabelsOf(r)
  {
    hide LabelsOf;
    if rs != [] {
      var rs0, last := rs[..|rs| - 1], rs[|rs| - 1];
      ReportLabelsMembers(rs0, entry);
      assert rs == rs0 + [last];
    }
  }

  lemma LabelsOfAre(r: Report, s: string, v: Severity)
    ensures (s, v) in LabelsOf(r)
            <==> r.content.Parsed? && exists raw: Raw | raw in r.content.raws ::
                   && raw.facts.severity == v
                   && (if r.labelAs != "" && raw.scanner == r.parser then s == r.labelAs else s == raw.scanner)
  {
    if r.content.Parsed? {
      if raw: Raw :| raw in r.content.raws && raw.facts.severity == v
                     && (if r.labelAs != "" && raw.scanner == r.parser then s == r.labelAs else s == raw.scanner) {
        var i :| 0 <= i < |r.content.raws| && r.content.raws[i] == raw;
        assert LabelsOf(r)[i] == (s, v);
      }
    }
  }

  /** A scanner counts a severity exactly if a readable report has such a finding of a scanner shown by its name. */
  lemma ReportLabelsAre(rs: seq<Report>, s: string, v: Severity)
    ensures (s, v) in ReportLabels(rs)
            <==> exists r: Report, raw: Raw | r in rs && r.content.Parsed? && raw in r.content.raws ::
                   && raw.facts.severity == v
                   && (if r.labelAs != "" && raw.scanner == r.parser then s == r.labelAs else s == raw.scanner)
  {
    hide ReportLabels, LabelsOf;
    ReportLabelsMembers(rs, (s, v));
    forall r | r in rs
      ensures (s, v) in LabelsOf(r)
              <==> r.content.Parsed? && exists raw: Raw | raw in r.content.raws ::
                     && raw.facts.severity == v
                     && (if r.labelAs != "" && raw.scanner == r.parser then s == r.labelAs else s == raw.scanner)
    {
      LabelsOfAre(r, s, v);
    }
  }

  lemma LastReport(rs: seq<Report>, r: Report, allowMissing: set<string>)
    ensures Collected(rs + [r]) == Collected(rs) + FactsOf(r)
    ensures ReportLabels(rs + [r]) == ReportLabels(rs) + LabelsOf(r)
    ensures Missing(rs + [r], allowMissing)
            == Missing(rs, allowMissing)
               + (if IsMissing(r, allowMissing) then [MissingReport(r.name, r.content.error)] else [])
  {
    hide FactsOf, LabelsOf;
    assert (rs + [r])[..|rs|] == rs;
  }

  /** Findings, counted labels and missing reports come in report order, none twice. */
  lemma {:induction false} InReportOrder(a: seq<Report>, b: seq<Report>, allowMissing: set<string>)
    ensures Collected(a + b) == Collected(a) + Collected(b)
    ensures ReportLabels(a + b) == ReportLabels(a) + ReportLabels(b)
    ensures Missing(a + b, allowMissing) == Missing(a, allowMissing) + Missing(b, allowMissing)
  {
    if b == [] {
      assert a + b == a;
    } else {
      hide Collected, ReportLabels, Missing, FactsOf, LabelsOf;
      var b0, last := b[..|b| - 1], b[|b| - 1];
      assert b == b0 + [last] && a + b == (a + b0) + [last];
      InReportOrder(a, b0, allowMissing);
      LastReport(a + b0, last, allowMissing);
      LastReport(b0, last, allowMissing);
      Associative(Collected(a), Collected(b0), FactsOf(last));
      Associative(ReportLabels(a), ReportLabels(b0), LabelsOf(last));
      Associative(Missing(a, allowMissing), Missing(b0, allowMissing),
                  if IsMissing(last, allowMissing) then [MissingReport(last.name, last.content.error)] else []);
    }
  }

  /** What a single report gives: one finding for each of its entries, in order, or one missing report at most. */
  lemma OneReport(r: Report, allowMissing: set<string>)
    ensures r.content.Parsed? ==>
              && |Collected([r])| == |ReportLabels([r])| == |r.content.raws|
              && (forall i | 0 <= i < |r.content.raws| :: Collected([r])[i] == r.content.raws[i].facts)
              && Missing([r], allowMissing) == []
    ensures r.content.Unreadable? ==>
              && Collected([r]) == [] && ReportLabels([r]) == []
              && Missing([r], allowMissing) == if r.required && r.parser !in allowMissing
                                               then [MissingReport(r.name, r.content.error)] else []
  {
    assert [r][..0] == [];
  }

  lemma BlockingKeyMembers(p: Policy, today: int, key: (string, string))
    ensures key in BlockingKeys(p, today, Collected(p.reports))
            <==> exists r, f | r in p.reports && f in FactsOf(r) :: Blocks(p, today, f) && f.Key() == key
  {
    if key in BlockingKeys(p, today, Collected(p.reports)) {
      var f :| f in Collected(p.reports) && Blocks(p, today, f) && f.Key() == key;
      CollectedMembers(p.reports, f);
    }
    if r, f :| r in p.reports && f in FactsOf(r) && Blocks(p, today, f) && f.Key() == key {
      CollectedMembers(p.reports, f);
    }
  }

  // ---------------------------------------------------------------- what the verdict means

  lemma RawFacts(r: Report, f: Facts)
    ensures f in FactsOf(r) <==> r.content.Parsed? && exists raw | raw in r.content.raws :: raw.facts == f
  {
    if r.content.Parsed? {
      if raw :| raw in r.content.raws && raw.facts == f {
        var i :| 0 <= i < |r.content.raws| && r.content.raws[i] == raw;
        assert FactsOf(r)[i] == f;
      }
    }
  }

  /** A finding blocks unless its severity is accepted, it has no fix where that is let pass, or an exception that
      has not expired names its rule and no place or its own. */
  lemma BlocksIs(p: Policy, today: int, f: Facts)
    ensures Blocks(p, today, f)
            <==> && f.severity in p.failOn
                 && (p.ignoreUnfixed ==> f.fixable != Some(false))
                 && forall e: Waiver | e in p.exceptions && e.id == f.ruleId && today <= e.expires ::
                      e.location.Some? && e.location.value != f.location
  {
  }

  /** The build passes exactly when every unreadable report is optional or tolerated and every finding of the others
      has an accepted severity, has no fix where that is let pass, or is waived. */
  lemma VerdictIs(p: Policy, today: int, allowMissing: set<string>)
    ensures Passes(p, today, allowMissing)
            <==> && (forall r: Report | r in p.reports && r.content.Unreadable? ::
                       !r.required || r.parser in allowMissing)
                 && (forall r: Report, raw: Raw | r in p.reports && r.content.Parsed? && raw in r.content.raws ::
                       || raw.facts.severity !in p.failOn
                       || (p.ignoreUnfixed && raw.facts.fixable == Some(false))
                       || exists e: Waiver ::
                            && e in p.exceptions && e.id == raw.facts.ruleId && today <= e.expires
                            && (e.location == None || e.location == Some(raw.facts.location)))
  {
    MissingMembers(p.reports, allowMissing);
    forall r: Report, raw: Raw | r in p.reports && r.content.Parsed? && raw in r.content.raws
      ensures raw.facts in Collected(p.reports)
    {
      RawFacts(r, raw.facts);
      CollectedMembers(p.reports, raw.facts);
    }
    forall f | f in Collected(p.reports)
      ensures exists r: Report, raw: Raw ::
                r in p.reports && r.content.Parsed? && raw in r.content.raws && raw.facts == f
    {
      CollectedMembers(p.reports, f);
      var r :| r in p.reports && f in FactsOf(r);
      RawFacts(r, f);
    }
    VerdictOnFacts(p, today, allowMissing);
    hide Blocks, Collected, FactsOf, BlockingKeys, Missing, Passes;
    forall f ensures Blocks(p, today, f)
                     <==> !(|| f.severity !in p.failOn
                            || (p.ignoreUnfixed && f.fixable == Some(false))
                            || exists e: Waiver ::
                                 && e in p.exceptions && e.id == f.ruleId && today <= e.expires
                                 && (e.location == None || e.location == Some(f.location)))
    {
      BlocksIs(p, today, f);
    }
  }

  lemma VerdictOnFacts(p: Policy, today: int, allowMissing: set<string>)
    ensures Passes(p, today, allowMissing)
            <==> Missing(p.reports, allowMissing) == [] && forall f | f in Collected(p.reports) :: !Blocks(p, today, f)
  {
    hide Blocks, Collected, Missing;
    if f :| f in Collected(p.reports) && Blocks(p, today, f) {
      assert f.Key() in BlockingKeys(p, today, Collected(p.reports));
    }
  }

  /** A (rule, place) blocks exactly when some finding of that rule at that place does. */
  lemma BlockingKeyIs(p: Policy, today: int, fs: seq<Facts>, rule: string, place: string)
    ensures (rule, place) in BlockingKeys(p, today, fs)
            <==> exists f | f in fs :: f.ruleId == rule && f.location == place && Blocks(p, today, f)
  {
    hide Blocks;
    if f :| f in fs && f.ruleId == rule && f.location == place && Blocks(p, today, f) {
      assert f.Key() in BlockingKeys(p, today, fs);
    }
  }

  // ---------------------------------------------------------------- what one exception does

  /** The findings that are kept, in order. */
  function Kept(raws: seq<Raw>, keep: Facts -> bool): seq<Raw> {
    if raws == [] then [] else (if keep(raws[0].facts) then [raws[0]] else []) + Kept(raws[1..], keep)
  }

  lemma {:induction false} KeptMembers(raws: seq<Raw>, keep: Facts -> bool, raw: Raw)
    ensures raw in Kept(raws, keep) <==> raw in raws && keep(raw.facts)
  {
    if raws != [] {
      KeptMembers(raws[1..], keep, raw);
      assert raws == [raws[0]] + raws[1..];
    }
  }

  /** The reports with all other findings deleted. */
  function OnlyKept(rs: seq<Report>, keep: Facts -> bool): seq<Report> {
    seq(|rs|, i requires 0 <= i < |rs| =>
        if rs[i].content.Parsed? then rs[i].(content := Parsed(Kept(rs[i].content.raws, keep))) else rs[i])
  }

  lemma OnlyKeptOne(rs: seq<Report>, keep: Facts -> bool, i: nat, f: Facts)
    requires i < |rs|
    ensures f in FactsOf(OnlyKept(rs, keep)[i]) <==> f in FactsOf(rs[i]) && keep(f)
  {
    var r, kept := rs[i], OnlyKept(rs, keep)[i];
    RawFacts(r, f);
    RawFacts(kept, f);
    hide FactsOf;
    if r.content.Parsed? {
      forall raw ensures raw in kept.content.raws <==> raw in r.content.raws && keep(raw.facts) {
        KeptMembers(r.content.raws, keep, raw);
      }
    }
  }

  lemma OnlyKeptFacts(rs: seq<Report>, keep: Facts -> bool, f: Facts)
    ensures f in Collected(OnlyKept(rs, keep)) <==> f in Collected(rs) && keep(f)
  {
    var kept := OnlyKept(rs, keep);
    CollectedMembers(rs, f);
    CollectedMembers(kept, f);
    assert |kept| == |rs|;
    hide FactsOf, OnlyKept, Collected;
    if r :| r in rs && f in FactsOf(r) && keep(f) {
      var i :| 0 <= i < |rs| && rs[i] == r;
      OnlyKeptOne(rs, keep, i, f);
      assert kept[i] in kept;
    }
    if r :| r in kept && f in FactsOf(r) {
      var i :| 0 <= i < |kept| && kept[i] == r;
      OnlyKeptOne(rs, keep, i, f);
      assert rs[i] in rs;
    }
  }

  lemma OnlyKeptMissing(rs: seq<Report>, keep: Facts -> bool, allowMissing: set<string>)
    ensures Missing(OnlyKept(rs, keep), allowMissing) == [] <==> Missing(rs, allowMissing) == []
  {
    var kept := OnlyKept(rs, keep);
    MissingMembers(rs, allowMissing);
    MissingMembers(kept, allowMissing);
    assert forall i | 0 <= i < |rs| :: IsMissing(kept[i], allowMissing) == IsMissing(rs[i], allowMissing);
    hide OnlyKept, IsMissing;
    forall i | 0 <= i < |rs| ensures rs[i] in rs && kept[i] in kept {
    }
  }

  /** Granting one exception is forgetting the findings it covers. */
  lemma OneException(p: Policy, before: seq<Waiver>, e: Waiver, after: seq<Waiver>, keep: Facts -> bool, today: int,
                     allowMissing: set<string>)
    requires forall f :: keep(f) <==> !(today <= e.expires && e.id == f.ruleId
                                        && (e.location == None || e.location == Some(f.location)))
    ensures Passes(p.(exceptions := before + [e] + after), today, allowMissing)
            <==> Passes(p.(exceptions := before + after, reports := OnlyKept(p.reports, keep)), today, allowMissing)
  {
    var q := p.(exceptions := before + [e] + after);
    var q' := p.(exceptions := before + after, reports := OnlyKept(p.reports, keep));
    OnlyKeptMissing(p.reports, keep, allowMissing);
    VerdictOnFacts(q, today, allowMissing);
    VerdictOnFacts(q', today, allowMissing);
    assert forall x :: x in q.exceptions <==> x in q'.exceptions || x == e;
    hide OnlyKept, Missing, Collected, Passes;
    forall f ensures Blocks(q, today, f) <==> Blocks(q', today, f) && keep(f) {
      BlocksIs(q, today, f);
      BlocksIs(q', today, f);
    }
    forall f ensures f in Collected(q'.reports) <==> f in Collected(q.reports) && keep(f) {
      OnlyKeptFacts(p.reports, keep, f);
    }
  }

  /** An exception without a place, up to and including its day of expiry: as if its rule had found nothing. */
  lemma WaiverForgetsRule(p: Policy, before: seq<Waiver>, e: Waiver, after: seq<Waiver>, today: int,
                          allowMissing: set<string>)
    requires e.location == None && today <= e.expires
    ensures var rest := OnlyKept(p.reports, (f: Facts) => f.ruleId != e.id);
            Passes(p.(exceptions := before + [e] + after), today, allowMissing)
            <==> Passes(p.(exceptions := before + after, reports := rest), today, allowMissing)
  {
    OneException(p, before, e, after, (f: Facts) => f.ruleId != e.id, today, allowMissing);
  }

  /** With a place: as if the rule had found nothing at that place. */
  lemma WaiverForgetsPlace(p: Policy, before: seq<Waiver>, e: Waiver, after: seq<Waiver>, place: string, today: int,
                           allowMissing: set<string>)
    requires e.location == Some(place) && today <= e.expires
    ensures var rest := OnlyKept(p.reports, (f: Facts) => f.ruleId != e.id || f.location != place);
            Passes(p.(exceptions := before + [e] + after), today, allowMissing)
            <==> Passes(p.(exceptions := before + after, reports := rest), today, allowMissing)
  {
    OneException(p, before, e, after, (f: Facts) => f.ruleId != e.id || f.location != place, today, allowMissing);
  }

  /** From the day after its expiry an exception is no exception. */
  lemma ExpiredIsNothing(p: Policy, before: seq<Waiver>, e: Waiver, after: seq<Waiver>, today: int,
                         allowMissing: set<string>)
    requires e.expires < today
    ensures Passes(p.(exceptions := before + [e] + after), today, allowMissing)
            <==> Passes(p.(exceptions := before + after), today, allowMissing)
  {
    var q, q' := p.(exceptions := before + [e] + after), p.(exceptions := before + after);
    VerdictOnFacts(q, today, allowMissing);
    VerdictOnFacts(q', today, allowMissing);
    assert forall x :: x in q.exceptions <==> x in q'.exceptions || x == e;
    hide Missing, Collected, Passes;
    forall f ensures Blocks(q, today, f) <==> Blocks(q', today, f) {
      BlocksIs(q, today, f);
      BlocksIs(q', today, f);
    }
  }

  // ---------------------------------------------------------------- failing closed

  /** Wherever f blocks, g blocks under the same key. */
  predicate Covers(g: Facts, f: Facts) {
    && g.Key() == f.Key() && g.severity == f.severity
    && (g.fixable == Some(false) ==> f.fixable == Some(false))
  }

  /** The second report holds all the evidence of the first, or is missing where that is not tolerated. */
  ghost predicate NoWeaker(r: Report, allowMissing: set<string>, r': Report, allowMissing': set<string>) {
    || IsMissing(r', allowMissing')
    || (!IsMissing(r, allowMissing) && forall f | f in FactsOf(r) :: exists g | g in FactsOf(r') :: Covers(g, f))
  }

  /** q is no more lenient than p: waivers, dates, thresholds and tolerance, and for each report one no weaker. */
  ghost predicate AtLeastAsStrict(p: Policy, today: int, allowMissing: set<string>, q: Policy, later: int,
                                  allowMissing': set<string>) {
    && today <= later
    && p.failOn <= q.failOn
    && (q.ignoreUnfixed ==> p.ignoreUnfixed)
    && (forall e | e in q.exceptions :: e in p.exceptions)
    && (forall r | r in p.reports :: exists r' | r' in q.reports :: NoWeaker(r, allowMissing, r', allowMissing'))
  }

  /** A finding that blocks makes what covers it block when exceptions go, time passes or thresholds tighten. */
  lemma BlocksMonotone(p: Policy, today: int, q: Policy, later: int, f: Facts, g: Facts)
    requires today <= later && p.failOn <= q.failOn && (q.ignoreUnfixed ==> p.ignoreUnfixed)
    requires forall e | e in q.exceptions :: e in p.exceptions
    requires Blocks(p, today, f) && Covers(g, f)
    ensures Blocks(q, later, g)
  {
    if e :| e in q.exceptions && e.expires >= later && Matches(e, g) {
      assert Matches(e, f);
    }
  }

  /** The gate never turns from FAILED to PASSED by seeing more or forgiving less. */
  lemma {:induction false} FailsClosed(p: Policy, today: int, allowMissing: set<string>, q: Policy, later: int,
                                       allowMissing': set<string>)
    requires AtLeastAsStrict(p, today, allowMissing, q, later, allowMissing')
    requires !Passes(p, today, allowMissing)
    ensures !Passes(q, later, allowMissing')
  {
    hide Blocks, IsMissing, FactsOf;
    MissingMembers(p.reports, allowMissing);
    MissingMembers(q.reports, allowMissing');
    if Missing(q.reports, allowMissing') == [] {
      var key :| key in BlockingKeys(p, today, Collected(p.reports));
      BlockingKeyMembers(p, today, key);
      var r, f :| r in p.reports && f in FactsOf(r) && Blocks(p, today, f) && f.Key() == key;
      var r' :| r' in q.reports && NoWeaker(r, allowMissing, r', allowMissing');
      var g :| g in FactsOf(r') && Covers(g, f);
      BlocksMonotone(p, today, q, later, f, g);
      BlockingKeyMembers(q, later, key);
    }
  }

  lemma NoWeakerThanItself(r: Report, allowMissing: set<string>)
    ensures NoWeaker(r, allowMissing, r, allowMissing)
  {
    assert forall f | f in FactsOf(r) :: Covers(f, f);
  }

  lemma SameReportsNoWeaker(p: Policy, q: Policy, allowMissing: set<string>)
    requires p.reports == q.reports
    ensures forall r | r in p.reports :: exists r' | r' in q.reports :: NoWeaker(r, allowMissing, r', allowMissing)
  {
    hide NoWeaker;
    forall r | r in p.reports ensures exists r' | r' in q.reports :: NoWeaker(r, allowMissing, r', allowMissing) {
      NoWeakerThanItself(r, allowMissing);
    }
  }

  /** Time passing only expires waivers. */
  lemma {:induction false} TimeNeverForgives(p: Policy, today: int, later: int, allowMissing: set<string>)
    requires today <= later
    ensures Passes(p, later, allowMissing) ==> Passes(p, today, allowMissing)
  {
    hide NoWeaker, Passes;
    if !Passes(p, today, allowMissing) {
      SameReportsNoWeaker(p, p, allowMissing);
      FailsClosed(p, today, allowMissing, p, later, allowMissing);
    }
  }

  /** Granting more exceptions never fails a passing build. */
  lemma {:induction false} ExceptionsOnlyForgive(p: Policy, more: seq<Waiver>, today: int, allowMissing: set<string>)
    ensures Passes(p, today, allowMissing) ==> Passes(p.(exceptions := p.exceptions + more), today, allowMissing)
  {
    hide NoWeaker, Passes;
    var q := p.(exceptions := p.exceptions + more);
    if !Passes(q, today, allowMissing) {
      SameReportsNoWeaker(q, p, allowMissing);
      FailsClosed(q, today, allowMissing, p, today, allowMissing);
    }
  }

  /** Tolerating fewer missing reports never rescues the build. */
  lemma {:induction false} ToleranceOnlyForgives(p: Policy, today: int, allowMissing: set<string>,
                                                 allowMissing': set<string>)
    requires allowMissing' <= allowMissing
    ensures Passes(p, today, allowMissing') ==> Passes(p, today, allowMissing)
  {
    hide Passes;
    if !Passes(p, today, allowMissing) {
      forall r | r in p.reports ensures exists r' | r' in p.reports :: NoWeaker(r, allowMissing, r', allowMissing') {
        NoWeakerThanItself(r, allowMissing);
      }
      FailsClosed(p, today, allowMissing, p, today, allowMissing');
    }
  }

  predicate HasMoreFindings(r: Report, r': Report) {
    && r.content.Parsed? && r'.content.Parsed?
    && forall f | f in FactsOf(r) :: f in FactsOf(r')
  }

  /** More findings in any report never rescue the build. */
  lemma {:induction false} FindingsOnlyAccuse(p: Policy, i: nat, r': Report, today: int, allowMissing: set<string>)
    requires i < |p.reports| && HasMoreFindings(p.reports[i], r')
    requires !Passes(p, today, allowMissing)
    ensures !Passes(p.(reports := p.reports[i := r']), today, allowMissing)
  {
    hide Passes, FactsOf;
    assert forall f | f in FactsOf(p.reports[i]) :: Covers(f, f);
    ReplacedReport(p, i, r', allowMissing);
    FailsClosed(p, today, allowMissing, p.(reports := p.reports[i := r']), today, allowMissing);
  }

  lemma ReplacedReport(p: Policy, i: nat, r': Report, allowMissing: set<string>)
    requires i < |p.reports| && NoWeaker(p.reports[i], allowMissing, r', allowMissing)
    ensures forall r | r in p.reports ::
              exists x | x in p.reports[i := r'] :: NoWeaker(r, allowMissing, x, allowMissing)
  {
    hide NoWeaker;
    var rs := p.reports[i := r'];
    forall r | r in p.reports ensures exists x | x in rs :: NoWeaker(r, allowMissing, x, allowMissing) {
      var k :| 0 <= k < |p.reports| && p.reports[k] == r;
      assert rs[k] in rs;
      NoWeakerThanItself(r, allowMissing);
    }
  }

  // ---------------------------------------------------------------- when one report may stand in for another

  /** In this policy and among these reports the replacement does not turn FAILED into PASSED. */
  predicate SafeIn(p: Policy, before: seq<Report>, after: seq<Report>, today: int, allowMissing: set<string>,
                   r: Report, r': Report) {
    Passes(p.(reports := before + [r'] + after), today, allowMissing) ==>
      Passes(p.(reports := before + [r] + after), today, allowMissing)
  }

  ghost predicate CanReplace(r: Report, r': Report, allowMissing: set<string>) {
    forall p, before, after, today :: SafeIn(p, before, after, today, allowMissing, r, r')
  }

  /** One report may stand in for another under every policy and among all others exactly when it is no weaker. */
  lemma {:induction false} CanReplaceIff(r: Report, r': Report, allowMissing: set<string>)
    ensures CanReplace(r, r', allowMissing) <==> NoWeaker(r, allowMissing, r', allowMissing)
  {
    if NoWeaker(r, allowMissing, r', allowMissing) {
      hide NoWeaker, Passes;
      forall p, before, after, today ensures SafeIn(p, before, after, today, allowMissing, r, r') {
        var q := p.(reports := before + [r] + after);
        if !Passes(q, today, allowMissing) {
          assert q.reports[|before| := r'] == before + [r'] + after;
          ReplacedReport(q, |before|, r', allowMissing);
          FailsClosed(q, today, allowMissing, q.(reports := before + [r'] + after), today, allowMissing);
        }
      }
    } else if IsMissing(r, allowMissing) {
      MissingTells(r, r', allowMissing);
    } else {
      var f :| f in FactsOf(r) && forall g | g in FactsOf(r') :: !Covers(g, f);
      EvidenceTells(r, r', allowMissing, f);
    }
  }

  lemma OnlyReport(p: Policy, r: Report, today: int, allowMissing: set<string>)
    ensures Passes(p.(reports := [] + [r] + []), today, allowMissing)
            <==> !IsMissing(r, allowMissing) && forall f | f in FactsOf(r) :: !Blocks(p, today, f)
  {
    var q := p.(reports := [] + [r] + []);
    assert q.reports == [r];
    MissingMembers([r], allowMissing);
    assert forall f :: Blocks(q, today, f) == Blocks(p, today, f);
    hide Blocks, FactsOf, IsMissing;
    assert [r][..0] == [] && Collected([r]) == [] + FactsOf(r) == FactsOf(r);
    if f :| f in FactsOf(r) && Blocks(p, today, f) {
      assert f.Key() in BlockingKeys(q, today, FactsOf(r));
    }
  }

  lemma MissingTells(r: Report, r': Report, allowMissing: set<string>)
    requires IsMissing(r, allowMissing) && !IsMissing(r', allowMissing)
    ensures !CanReplace(r, r', allowMissing)
  {
    var p := Policy({}, false, [], []);
    OnlyReport(p, r, 0, allowMissing);
    OnlyReport(p, r', 0, allowMissing);
    assert !SafeIn(p, [], [], 0, allowMissing, r, r');
  }

  /** Exceptions for all findings of a list but those with the given key. */
  function WaiveOthers(fs: seq<Facts>, key: (string, string)): seq<Waiver> {
    if fs == [] then []
    else
      WaiveOthers(fs[1..], key)
      + (if fs[0].Key() == key then [] else [Waiver(fs[0].ruleId, Some(fs[0].location), 0, "", "")])
  }

  lemma {:induction false} OthersWaived(fs: seq<Facts>, f: Facts)
    ensures forall g | g in fs && g.Key() != f.Key() :: Waived(WaiveOthers(fs, f.Key()), 0, g)
    ensures !Waived(WaiveOthers(fs, f.Key()), 0, f)
  {
    if fs != [] {
      OthersWaived(fs[1..], f);
      var rest, first := WaiveOthers(fs[1..], f.Key()), Waiver(fs[0].ruleId, Some(fs[0].location), 0, "", "");
      assert fs == [fs[0]] + fs[1..];
      assert Matches(first, fs[0]);
    }
  }

  /** Uncovered evidence blocks under a policy that nothing in the other report fails. */
  lemma EvidenceTells(r: Report, r': Report, allowMissing: set<string>, f: Facts)
    requires !IsMissing(r', allowMissing) && f in FactsOf(r) && forall g | g in FactsOf(r') :: !Covers(g, f)
    ensures !CanReplace(r, r', allowMissing)
  {
    hide FactsOf;
    var p := Policy({f.severity}, f.fixable != Some(false), [], WaiveOthers(FactsOf(r'), f.Key()));
    OthersWaived(FactsOf(r'), f);
    hide Waived;
    OnlyReport(p, r, 0, allowMissing);
    OnlyReport(p, r', 0, allowMissing);
    assert Blocks(p, 0, f);
    assert forall g | g in FactsOf(r') :: !Blocks(p, 0, g);
    assert !SafeIn(p, [], [], 0, allowMissing, r, r');
  }

  // ---------------------------------------------------------------- losing a report

  function Lost(r: Report, error: string): Report {
    r.(content := Unreadable(error))
  }

  /** Whatever else is reported, the loss of this report never turns FAILED into PASSED. */
  ghost predicate LossIsSafe(p: Policy, r: Report, error: string, today: int, allowMissing: set<string>) {
    forall before, after ::
      Passes(p.(reports := before + [Lost(r, error)] + after), today, allowMissing) ==>
        Passes(p.(reports := before + [r] + after), today, allowMissing)
  }

  /** A report can be lost safely exactly when it is required and not tolerated, or says nothing that blocks. */
  lemma LossIsSafeIff(p: Policy, r: Report, error: string, today: int, allowMissing: set<string>)
    requires r.content.Parsed?
    ensures LossIsSafe(p, r, error, today, allowMissing)
            <==> (r.required && r.parser !in allowMissing) || BlockingKeys(p, today, FactsOf(r)) == {}
  {
    if IsMissing(Lost(r, error), allowMissing) {
      forall before, after ensures !Passes(p.(reports := before + [Lost(r, error)] + after), today, allowMissing) {
        var rs := before + [Lost(r, error)] + after;
        MissingMembers(rs, allowMissing);
        assert rs[|before|] == Lost(r, error);
      }
    } else if BlockingKeys(p, today, FactsOf(r)) == {} {
      forall before, after | Passes(p.(reports := before + [Lost(r, error)] + after), today, allowMissing)
        ensures Passes(p.(reports := before + [r] + after), today, allowMissing)
      {
        HarmlessLoss(p, before, r, after, error, today, allowMissing);
      }
    } else {
      AloneItDecides(p, r, error, today, allowMissing);
      assert [] + [Lost(r, error)] + [] == [Lost(r, error)] && [] + [r] + [] == [r];
    }
  }

  lemma HarmlessLoss(p: Policy, before: seq<Report>, r: Report, after: seq<Report>, error: string,
                     today: int, allowMissing: set<string>)
    requires r.content.Parsed? && BlockingKeys(p, today, FactsOf(r)) == {}
    requires Passes(p.(reports := before + [Lost(r, error)] + after), today, allowMissing)
    ensures Passes(p.(reports := before + [r] + after), today, allowMissing)
  {
    var lost, kept := before + [Lost(r, error)] + after, before + [r] + after;
    var q, q' := p.(reports := lost), p.(reports := kept);
    MissingMembers(lost, allowMissing);
    MissingMembers(kept, allowMissing);
    VerdictOnFacts(q, today, allowMissing);
    VerdictOnFacts(q', today, allowMissing);
    hide Collected, FactsOf, Passes, Missing;
    assert forall f :: Blocks(q', today, f) == Blocks(q, today, f) == Blocks(p, today, f);
    forall f | f in FactsOf(r) ensures !Blocks(p, today, f) {
      assert f.Key() !in BlockingKeys(p, today, FactsOf(r));
    }
    hide Blocks, BlockingKeys;
    forall x | x in kept && x != r ensures x in lost {
      var k :| 0 <= k < |kept| && kept[k] == x;
      assert lost[k] == x;
    }
    forall f | f in Collected(kept) ensures !Blocks(q', today, f) {
      CollectedMembers(kept, f);
      CollectedMembers(lost, f);
    }
  }

  lemma AloneItDecides(p: Policy, r: Report, error: string, today: int, allowMissing: set<string>)
    requires !IsMissing(Lost(r, error), allowMissing) && BlockingKeys(p, today, FactsOf(r)) != {}
    ensures Passes(p.(reports := [Lost(r, error)]), today, allowMissing)
    ensures !Passes(p.(reports := [r]), today, allowMissing)
  {
    var lost, kept := [Lost(r, error)], [r];
    MissingMembers(lost, allowMissing);
    assert lost[..0] == [] && kept[..0] == [];
    assert Collected(lost) == [] && Collected(kept) == [] + FactsOf(r) == FactsOf(r);
    var key :| key in BlockingKeys(p, today, FactsOf(r));
    assert key in BlockingKeys(p.(reports := kept), today, Collected(kept));
  }

  // ---------------------------------------------------------------- order independence

  /** The same report with its findings in another order. */
  ghost predicate SameReport(r: Report, r': Report) {
    && r'.(content := r.content) == r
    && r.content.Parsed? == r'.content.Parsed?
    && (r.content.Parsed? ==> multiset(r.content.raws) == multiset(r'.content.raws))
  }

  /** Every report of the first list has a counterpart in the second. */
  ghost predicate Covered(rs: seq<Report>, rs': seq<Report>) {
    forall r | r in rs :: exists r' | r' in rs' :: SameReport(r, r')
  }

  lemma SameReportFacts(r: Report, r': Report, f: Facts)
    requires SameReport(r, r') && f in FactsOf(r)
    ensures f in FactsOf(r')
  {
    var i :| 0 <= i < |r.content.raws| && r.content.raws[i].facts == f;
    SameMembers(r.content.raws, r'.content.raws, r.content.raws[i]);
    assert r.content.raws[i] in r.content.raws;
    var k :| 0 <= k < |r'.content.raws| && r'.content.raws[k] == r.content.raws[i];
    assert FactsOf(r')[k] == f;
  }

  lemma CoveredKeys(p: Policy, q: Policy, today: int)
    requires p.failOn == q.failOn && p.ignoreUnfixed == q.ignoreUnfixed
    requires forall e | e in q.exceptions :: e in p.exceptions
    requires Covered(p.reports, q.reports)
    ensures BlockingKeys(p, today, Collected(p.reports)) <= BlockingKeys(q, today, Collected(q.reports))
  {
    forall key | key in BlockingKeys(p, today, Collected(p.reports))
      ensures key in BlockingKeys(q, today, Collected(q.reports))
    {
      BlockingKeyMembers(p, today, key);
      var r, f :| r in p.reports && f in FactsOf(r) && Blocks(p, today, f) && f.Key() == key;
      var r' :| r' in q.reports && SameReport(r, r');
      SameReportFacts(r, r', f);
      BlocksMonotone(p, today, q, today, f, f);
      BlockingKeyMembers(q, today, key);
    }
  }

  lemma CoveredMissing(p: Policy, q: Policy, allowMissing: set<string>)
    requires Covered(p.reports, q.reports) && Missing(q.reports, allowMissing) == []
    ensures Missing(p.reports, allowMissing) == []
  {
    MissingMembers(p.reports, allowMissing);
    MissingMembers(q.reports, allowMissing);
    forall r | r in p.reports ensures !IsMissing(r, allowMissing) {
      var r' :| r' in q.reports && SameReport(r, r');
      assert !IsMissing(r', allowMissing);
    }
  }

  /** Findings, reports and exceptions may come in any order: same verdict, same blocking keys. */
  lemma OrderIndependent(p: Policy, q: Policy, today: int, allowMissing: set<string>)
    requires p.failOn == q.failOn && p.ignoreUnfixed == q.ignoreUnfixed
    requires multiset(p.exceptions) == multiset(q.exceptions)
    requires Covered(p.reports, q.reports) && Covered(q.reports, p.reports)
    ensures BlockingKeys(p, today, Collected(p.reports)) == BlockingKeys(q, today, Collected(q.reports))
    ensures Passes(p, today, allowMissing) <==> Passes(q, today, allowMissing)
  {
    hide Covered, Collected, BlockingKeys, Missing;
    forall e ensures e in p.exceptions <==> e in q.exceptions {
      SameMembers(p.exceptions, q.exceptions, e);
    }
    CoveredKeys(p, q, today);
    CoveredKeys(q, p, today);
    if Missing(q.reports, allowMissing) == [] {
      CoveredMissing(p, q, allowMissing);
    }
    if Missing(p.reports, allowMissing) == [] {
      CoveredMissing(q, p, allowMissing);
    }
  }

  /** A permutation of the reports is one such reordering. */
  lemma PermutationIsCovered(rs: seq<Report>, rs': seq<Report>)
    requires multiset(rs) == multiset(rs')
    ensures Covered(rs, rs') && Covered(rs', rs)
  {
    forall r ensures r in rs <==> r in rs' {
      SameMembers(rs, rs', r);
    }
    assert forall r :: SameReport(r, r);
  }
}
