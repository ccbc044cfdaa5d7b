/** The two-tier throttle of `login` (app/routers/auth.py) on the shared limiter, with logins in parallel. */
module LoginThrottle {
  import opened Prelude
  import opened Stamps
  import opened RateLimiter
  import opened LimiterRuns
  import opened LimiterMemory
  import opened LimiterSkew
  import opened RetryAfter
  import opened BucketKeys

  // ---------------------------------------------------------------- the sections of logins and other requests

  /**
    * One lock-protected section with its own clock reading. A login has two, one `enforce` call each, and sections
    * of other requests may come between them: `Finish` names the position of the `Start` it belongs to.
    */
  datatype Event =
    | Start(ip: string, email: string, now: real)
    | Finish(login: nat, email: string, now: real)
    | Other(scope: string, subject: string, limit: int, window: int, now: real)

  /** The login settings: budget per (address, account) and its window. Other scopes bring their own. */
  datatype Settings = Settings(loginLimit: int, window: int)

  function Section(s: Settings, e: Event): Request {
    match e
    case Start(ip, email, now) => Hit(PairKey(ip, email), s.loginLimit, s.window, now)
    case Finish(_, email, now) => Hit(AccountKey(email), s.loginLimit * 4, s.window, now)
    case Other(scope, subject, limit, window, now) => Hit(BucketKey(scope, subject), limit, window, now)
  }

  function Requests(s: Settings, es: seq<Event>): seq<Request> {
    seq(|es|, i requires 0 <= i < |es| => Section(s, es[i]))
  }

  /** The limiter admits the request of section i. */
  predicate Passed(maxKeys: int, s: Settings, es: seq<Event>, i: nat)
    requires i < |es|
  {
    Answer(maxKeys, Requests(s, es)[..i], Section(s, es[i])).Admitted?
  }

  predicate Begun(maxKeys: int, s: Settings, es: seq<Event>, j: nat)
    requires j < |es| && es[j].Finish?
  {
    var i := es[j].login;
    i < j && es[i].Start? && es[i].email == es[j].email && Passed(maxKeys, s, es, i)
  }

  /** A login reaches the account tier at most once, for its own account, and only after the pair tier admits it. */
  predicate Protocol(maxKeys: int, s: Settings, es: seq<Event>) {
    && (forall j | 0 <= j < |es| && es[j].Finish? :: Begun(maxKeys, s, es, j))
    && (forall j, k | 0 <= j < k < |es| && es[j].Finish? && es[k].Finish? :: es[j].login != es[k].login)
  }

  /** Addresses contain no bar; the other scopes are colon-free and are not the two login scopes. */
  predicate WellFormed(es: seq<Event>) {
    forall i | 0 <= i < |es| ::
      match es[i]
      case Start(ip, _, _) => '|' !in ip
      case Finish(_, _, _) => true
      case Other(scope, _, _, _, _) => ':' !in scope && scope != "login" && scope != "login_account"
  }

  lemma RequestsAppend(s: Settings, a: seq<Event>, b: seq<Event>)
    ensures Requests(s, a + b) == Requests(s, a) + Requests(s, b)
    ensures forall i | 0 <= i <= |a| :: Requests(s, a + b)[..i] == Requests(s, a)[..i]
  {
  }

  lemma ProtocolAppend(maxKeys: int, s: Settings, es: seq<Event>, e: Event)
    requires Protocol(maxKeys, s, es)
    requires e.Finish? ==>
               && e.login < |es| && es[e.login].Start? && es[e.login].email == e.email
               && Passed(maxKeys, s, es, e.login)
               && forall j | 0 <= j < |es| && es[j].Finish? :: es[j].login != e.login
    ensures Protocol(maxKeys, s, es + [e])
    ensures forall i | 0 <= i < |es| :: Passed(maxKeys, s, es + [e], i) == Passed(maxKeys, s, es, i)
  {
    hide Answer, Section;
    RequestsAppend(s, es, [e]);
    assert (es + [e])[|es|] == e;
    forall j | 0 <= j < |es + [e]| && (es + [e])[j].Finish? ensures Begun(maxKeys, s, es + [e], j) {
      if j < |es| {
        assert Begun(maxKeys, s, es, j);
      }
    }
  }

  // ---------------------------------------------------------------- the code

  /** `enforce`: one section on the scope's key. The exception it raises is the refusal. */
  method Enforce(limiter: RateLimiter, scope: string, key: string, limit: int, window: int, now: real,
                 ghost rs: seq<Request>) returns (outcome: Outcome)
    requires limiter.hits == Run(limiter.maxKeys, rs)
    modifies limiter
    ensures var r := Hit(BucketKey(scope, key), limit, window, now);
            && outcome == Answer(limiter.maxKeys, rs, r)
            && limiter.hits == Run(limiter.maxKeys, rs + [r])
  {
    hide Step, BucketKey;
    assert (rs + [Hit(BucketKey(scope, key), limit, window, now)])[..|rs|] == rs;
    outcome := limiter.HitKey(BucketKey(scope, key), limit, window, now);
  }

  datatype Gate = PasswordChecked | PairThrottled(retryAfter: int) | AccountThrottled(retryAfter: int) | Failed

  /** What the run shows of a login with two readings that nothing interrupts. */
  ghost predicate Shows(maxKeys: int, s: Settings, es: seq<Event>, first: Event, second: Event, gate: Gate,
                        es': seq<Event>) {
    match gate
    case PairThrottled(wait) =>
      && es' == es + [first]
      && Answer(maxKeys, Requests(s, es), Section(s, first)) == Refused(wait)
    case AccountThrottled(wait) =>
      && es' == es + [first] + [second] && Passed(maxKeys, s, es', |es|)
      && Answer(maxKeys, Requests(s, es + [first]), Section(s, second)) == Refused(wait)
    case PasswordChecked =>
      && es' == es + [first] + [second] && Passed(maxKeys, s, es', |es|) && Passed(maxKeys, s, es', |es| + 1)
    case Failed => s.loginLimit <= 0
  }

  /** The throttle part of `login`: the account is the address as typed, lower-cased; the password is checked only
      if both tiers admit, and the protocol is kept. */
  method EnforceLogin(limiter: RateLimiter, s: Settings, ip: string, typed: string, lower: string -> string,
                      now: real, later: real, ghost es: seq<Event>)
    returns (gate: Gate, ghost es': seq<Event>)
    requires limiter.hits == Run(limiter.maxKeys, Requests(s, es)) && Protocol(limiter.maxKeys, s, es)
    modifies limiter
    ensures Shows(limiter.maxKeys, s, es, Start(ip, lower(typed), now), Finish(|es|, lower(typed), later), gate, es')
    ensures limiter.hits == Run(limiter.maxKeys, Requests(s, es')) && Protocol(limiter.maxKeys, s, es')
  {
    hide Answer, Run, PairSubject, BucketKey, Protocol;
    var email := lower(typed);
    ghost var first, second := Start(ip, email, now), Finish(|es|, email, later);
    ghost var es1 := es + [first];
    ghost var es2 := es1 + [second];
    LoginAppends(limiter.maxKeys, s, es, first, second);
    var tier := Enforce(limiter, "login", PairSubject(ip, email), s.loginLimit, s.window, now, Requests(s, es));
    es' := es1;
    match tier {
      case Refused(wait) => return PairThrottled(wait), es1;
      case Admitted =>
      case _ => NotRefused(limiter.maxKeys, Requests(s, es), Section(s, first)); return Failed, es1;
    }
    tier := Enforce(limiter, "login_account", email, s.loginLimit * 4, s.window, later, Requests(s, es1));
    match tier {
      case Refused(wait) => return AccountThrottled(wait), es2;
      case Admitted => return PasswordChecked, es2;
      case _ => NotRefused(limiter.maxKeys, Requests(s, es1), Section(s, second)); return Failed, es2;
    }
  }

  lemma NotRefused(maxKeys: int, rs: seq<Request>, r: Request)
    requires r.Hit? && !Answer(maxKeys, rs, r).Admitted? && !Answer(maxKeys, rs, r).Refused?
    ensures r.limit <= 0
  {
  }

  lemma LoginAppends(maxKeys: int, s: Settings, es: seq<Event>, first: Event, second: Event)
    requires Protocol(maxKeys, s, es) && first.Start? && second.Finish?
    requires second.login == |es| && second.email == first.email
    ensures var es1 := es + [first];
            var es2 := es1 + [second];
            && Requests(s, es1) == Requests(s, es) + [Section(s, first)]
            && Requests(s, es2) == Requests(s, es1) + [Section(s, second)]
            && Protocol(maxKeys, s, es1)
            && (Answer(maxKeys, Requests(s, es), Section(s, first)).Admitted? ==>
                  Protocol(maxKeys, s, es2) && Passed(maxKeys, s, es2, |es|))
            && (Answer(maxKeys, Requests(s, es1), Section(s, second)).Admitted? ==> Passed(maxKeys, s, es2, |es| + 1))
  {
    hide Answer, Section;
    var es1 := es + [first];
    RequestsAppend(s, es, [first]);
    RequestsAppend(s, es1, [second]);
    ProtocolAppend(maxKeys, s, es, first);
    assert es1[|es|] == first && Requests(s, es1)[..|es|] == Requests(s, es);
    assert (es1 + [second])[|es1|] == second && Requests(s, es1 + [second])[..|es1|] == Requests(s, es1);
    if Passed(maxKeys, s, es1, |es|) {
      forall j | 0 <= j < |es1| && es1[j].Finish? ensures es1[j].login != |es| {
        assert Begun(maxKeys, s, es, j);
      }
      ProtocolAppend(maxKeys, s, es1, second);
    }
  }

  // ---------------------------------------------------------------- which section hits which key

  lemma SectionKeys(s: Settings, e: Event, ip: string, email: string)
    requires WellFormed([e]) && '|' !in ip
    ensures Section(s, e).key == PairKey(ip, email) <==> e.Start? && e.ip == ip && e.email == email
    ensures Section(s, e).key == AccountKey(email) <==> e.Finish? && e.email == email
  {
    assert [e][0] == e;
    hide BucketKey, PairSubject;
    match e {
      case Other(scope, subject, _, _, _) =>
        BucketKeyInjective(scope, subject, "login", PairSubject(ip, email));
        BucketKeyInjective(scope, subject, "login_account", email);
      case Start(ip', email', _) =>
        PairKeyInjective(ip', email', ip, email);
        TiersDistinct(ip', email', email);
      case Finish(_, email', _) =>
        BucketKeyInjective("login_account", email', "login_account", email);
        TiersDistinct(ip, email, email');
    }
  }

  lemma KeyOfSection(s: Settings, es: seq<Event>, i: nat, ip: string, email: string)
    requires WellFormed(es) && '|' !in ip && i < |es|
    ensures var r, e := Requests(s, es)[i], es[i];
            && (r.key == PairKey(ip, email) <==> e.Start? && e.ip == ip && e.email == email)
            && (r.key == AccountKey(email) <==> e.Finish? && e.email == email)
  {
    hide Section, PairKey, AccountKey;
    assert WellFormed([es[i]]);
    SectionKeys(s, es[i], ip, email);
  }

  /** Each tier's key is always used with the tier's limit and the login window. */
  lemma TierIsUniform(s: Settings, es: seq<Event>, ip: string, email: string)
    requires WellFormed(es) && '|' !in ip
    ensures var rs := Requests(s, es);
            && Limited(rs, PairKey(ip, email), s.loginLimit) && KeyWindow(rs, PairKey(ip, email), s.window)
            && Limited(rs, AccountKey(email), s.loginLimit * 4) && KeyWindow(rs, AccountKey(email), s.window)
  {
    hide PairKey, AccountKey, BucketKey;
    var rs := Requests(s, es);
    forall i | 0 <= i < |rs|
      ensures rs[i].key == PairKey(ip, email) ==> rs[i].limit == s.loginLimit && rs[i].window == s.window
      ensures rs[i].key == AccountKey(email) ==> rs[i].limit == s.loginLimit * 4 && rs[i].window == s.window
    {
      KeyOfSection(s, es, i, ip, email);
    }
  }

  // ---------------------------------------------------------------- the budgets

  /** The passwords checked for the account: its second sections that passed, with a reading in [from, to). */
  function AccountChecks(maxKeys: int, s: Settings, es: seq<Event>, email: string, from: real, to: real): set<nat> {
    set j: nat | j < |es| && es[j].Finish? && es[j].email == email && from <= es[j].now < to
                 && Passed(maxKeys, s, es, j)
  }

  ghost predicate Checked(maxKeys: int, s: Settings, es: seq<Event>, i: nat) {
    exists j: nat :: j < |es| && es[j].Finish? && es[j].login == i && Passed(maxKeys, s, es, j)
  }

  /** The logins of the pair that were begun in [from, to) and whose password was checked, then or later. */
  ghost function PairChecks(maxKeys: int, s: Settings, es: seq<Event>, ip: string, email: string,
                            from: real, to: real): set<nat> {
    set i: nat | i < |es| && es[i].Start? && es[i].ip == ip && es[i].email == email && from <= es[i].now < to
                 && Checked(maxKeys, s, es, i)
  }

  lemma StartsAdmitted(maxKeys: int, s: Settings, es: seq<Event>, ip: string, email: string, from: real, to: real)
    requires WellFormed(es) && '|' !in ip
    ensures AdmittedIn(maxKeys, Requests(s, es), PairKey(ip, email), from, to)
            == set i: nat | i < |es| && es[i].Start? && es[i].ip == ip && es[i].email == email
                            && from <= es[i].now < to && Passed(maxKeys, s, es, i)
  {
    hide Answer, PairKey;
    forall i: nat | i < |es|
      ensures Requests(s, es)[i].key == PairKey(ip, email) <==> es[i].Start? && es[i].ip == ip && es[i].email == email
    {
      KeyOfSection(s, es, i, ip, email);
    }
  }

  lemma FinishesAdmitted(maxKeys: int, s: Settings, es: seq<Event>, email: string, from: real, to: real)
    requires WellFormed(es)
    ensures AdmittedIn(maxKeys, Requests(s, es), AccountKey(email), from, to)
            == AccountChecks(maxKeys, s, es, email, from, to)
  {
    hide Answer, AccountKey;
    forall i: nat | i < |es|
      ensures Requests(s, es)[i].key == AccountKey(email) <==> es[i].Finish? && es[i].email == email
    {
      KeyOfSection(s, es, i, "", email);
    }
  }

  lemma PairChecksAdmitted(maxKeys: int, s: Settings, es: seq<Event>, ip: string, email: string, from: real, to: real)
    requires WellFormed(es) && '|' !in ip && Protocol(maxKeys, s, es)
    ensures PairChecks(maxKeys, s, es, ip, email, from, to)
            <= AdmittedIn(maxKeys, Requests(s, es), PairKey(ip, email), from, to)
  {
    StartsAdmitted(maxKeys, s, es, ip, email, from, to);
    hide Passed, AdmittedIn;
    forall i | i in PairChecks(maxKeys, s, es, ip, email, from, to) ensures Passed(maxKeys, s, es, i) {
      var j: nat :| j < |es| && es[j].Finish? && es[j].login == i;
      assert Begun(maxKeys, s, es, j);
    }
  }

  /** A run whose clock is skewed a little, in which the login scopes are accommodated and nothing is forgotten. */
  predicate LoginRun(maxKeys: int, s: Settings, es: seq<Event>, skew: real) {
    && WellFormed(es) && Protocol(maxKeys, s, es)
    && AllSkewWithin(Requests(s, es), skew) && Accommodated(maxKeys, Requests(s, es), s.window)
    && NoForgets(maxKeys, Requests(s, es))
  }

  /** The interval length over which the pair budget holds under the skew. */
  function BudgetSpan(s: Settings, skew: real): real {
    if s.loginLimit == 1 then s.window as real - skew else s.window as real - 2.0 * skew
  }

  /** At most `limit` requests of an accommodated key are admitted in any interval of the bounded length. */
  lemma KeyBudget(maxKeys: int, rs: seq<Request>, key: string, limit: int, window: int,
                  skew: real, from: real, length: real)
    requires limit >= 1 && skew >= 0.0 && NoForgets(maxKeys, rs) && SharedRun(maxKeys, rs, key, limit, window, skew)
    requires 0.0 < length <= if limit == 1 then window as real - skew else window as real - 2.0 * skew
    ensures |AdmittedIn(maxKeys, rs, key, from, from + length)| <= limit
  {
    hide AdmittedIn, Run, Log, CountIn, SharedRun;
    RecordCounts(maxKeys, rs, key, from, from + length);
    SkewTolerantWindowAcrossEviction(maxKeys, rs, key, limit, window, skew, from, length);
  }

  lemma NoBarredAddress(maxKeys: int, s: Settings, es: seq<Event>, ip: string, email: string, from: real, to: real)
    requires WellFormed(es) && '|' in ip
    ensures |PairChecks(maxKeys, s, es, ip, email, from, to)| == 0
  {
    hide Checked;
    assert PairChecks(maxKeys, s, es, ip, email, from, to) == {};
  }

  /** In any interval of the bounded length at most `loginLimit` checked logins begin per (address, account). */
  lemma {:induction false} PairBudget(maxKeys: int, s: Settings, es: seq<Event>, ip: string, email: string,
                                      skew: real, from: real, length: real)
    requires s.loginLimit >= 1 && skew >= 0.0 && LoginRun(maxKeys, s, es, skew)
    requires 0.0 < length <= BudgetSpan(s, skew)
    ensures |PairChecks(maxKeys, s, es, ip, email, from, from + length)| <= s.loginLimit
  {
    hide PairChecks, AdmittedIn, WellFormed, Protocol, NoForgets, Accommodated, AllSkewWithin, PairKey;
    hide Limited, KeyWindow;
    var to := from + length;
    if '|' in ip {
      NoBarredAddress(maxKeys, s, es, ip, email, from, to);
    } else {
      TierIsUniform(s, es, ip, email);
      PairChecksAdmitted(maxKeys, s, es, ip, email, from, to);
      SubsetBound(PairChecks(maxKeys, s, es, ip, email, from, to),
                  AdmittedIn(maxKeys, Requests(s, es), PairKey(ip, email), from, to));
      KeyBudget(maxKeys, Requests(s, es), PairKey(ip, email), s.loginLimit, s.window, skew, from, length);
    }
  }

  /** And at most four times as many passwords are checked per account, however the logins interleave. */
  lemma {:induction false} AccountBudget(maxKeys: int, s: Settings, es: seq<Event>, email: string,
                                         skew: real, from: real, length: real)
    requires s.loginLimit >= 1 && skew >= 0.0 && LoginRun(maxKeys, s, es, skew)
    requires 0.0 < length <= s.window as real - 2.0 * skew
    ensures |AccountChecks(maxKeys, s, es, email, from, from + length)| <= 4 * s.loginLimit
  {
    hide AccountChecks, AdmittedIn, WellFormed, Protocol, NoForgets, Accommodated, AllSkewWithin, AccountKey;
    hide Limited, KeyWindow;
    TierIsUniform(s, es, "", email);
    FinishesAdmitted(maxKeys, s, es, email, from, from + length);
    KeyBudget(maxKeys, Requests(s, es), AccountKey(email), 4 * s.loginLimit, s.window, skew, from, length);
  }

  // ---------------------------------------------------------------- who can exhaust an account's budget

  /** Every login reaches its second section within the delay. */
  predicate Prompt(es: seq<Event>, delay: real) {
    forall j | 0 <= j < |es| && es[j].Finish? && es[j].login < |es| :: es[j].now <= es[es[j].login].now + delay
  }

  ghost predicate CheckedAfter(maxKeys: int, s: Settings, es: seq<Event>, i: nat, cutoff: real) {
    exists j: nat :: j < |es| && es[j].Finish? && es[j].login == i && es[j].now > cutoff && Passed(maxKeys, s, es, j)
  }

  /** The addresses other than the given one from which passwords were checked for the account after the cutoff. */
  ghost function OtherIps(maxKeys: int, s: Settings, es: seq<Event>, email: string, cutoff: real,
                          ip: string): set<string> {
    set i: nat | i < |es| && es[i].Start? && es[i].email == email && es[i].ip != ip
                 && CheckedAfter(maxKeys, s, es, i, cutoff) :: es[i].ip
  }

  /** The starts for the account, from one of the addresses, that passed with a reading in the interval. */
  function PassedStarts(maxKeys: int, s: Settings, es: seq<Event>, ips: set<string>, email: string,
                        from: real, to: real): set<nat> {
    set i: nat | i < |es| && es[i].Start? && es[i].ip in ips && es[i].email == email
                 && from <= es[i].now < to && Passed(maxKeys, s, es, i)
  }

  /** k spans in a row hold at most k budgets. */
  lemma {:induction false} ManySpans(maxKeys: int, rs: seq<Request>, key: string, limit: int, window: int, skew: real,
                                     length: real, from: real, k: nat)
    requires limit >= 1 && skew >= 0.0 && SharedRun(maxKeys, rs, key, limit, window, skew)
    requires 0.0 < length <= if limit == 1 then window as real - skew else window as real - 2.0 * skew
    ensures CountIn(Log(maxKeys, rs, key), from, from + k as real * length) <= limit * k
  {
    hide Log, CountIn, SharedRun;
    var log := Log(maxKeys, rs, key);
    if k == 0 {
      CountNone(log, from, from + 0.0);
    } else {
      var mid := from + (k - 1) as real * length;
      ManySpans(maxKeys, rs, key, limit, window, skew, length, from, k - 1);
      SkewTolerantWindowAcrossEviction(maxKeys, rs, key, limit, window, skew, mid, length);
      OneMore(length, limit, k);
      CountSplit(log, from, mid, from + k as real * length);
    }
  }

  lemma OneMore(length: real, limit: int, k: nat)
    requires k >= 1 && length > 0.0
    ensures (k - 1) as real * length + length == k as real * length
    ensures limit * (k - 1) + limit == limit * k && (k - 1) as real * length >= 0.0
  {
  }

  lemma Distribute(a: nat, n: nat)
    ensures a * (n + 1) == a * n + a
  {
  }

  /** Each address accounts for at most k budgets of passed starts. */
  lemma {:induction false} StartsOfMany(maxKeys: int, s: Settings, es: seq<Event>, ips: set<string>, email: string,
                                        skew: real, from: real, to: real, k: nat)
    requires s.loginLimit >= 1 && skew >= 0.0 && LoginRun(maxKeys, s, es, skew)
    requires BudgetSpan(s, skew) > 0.0 && to == from + k as real * BudgetSpan(s, skew)
    ensures |PassedStarts(maxKeys, s, es, ips, email, from, to)| <= s.loginLimit * k * |ips|
    decreases ips
  {
    hide Passed, LoginRun, BudgetSpan;
    if ips == {} {
      assert PassedStarts(maxKeys, s, es, ips, email, from, to) == {};
    } else {
      var ip :| ip in ips;
      var rest := ips - {ip};
      StartsOfMany(maxKeys, s, es, rest, email, skew, from, to, k);
      StartsOfOne(maxKeys, s, es, ip, email, skew, from, to, k);
      assert PassedStarts(maxKeys, s, es, ips, email, from, to)
             == PassedStarts(maxKeys, s, es, rest, email, from, to)
                + PassedStarts(maxKeys, s, es, {ip}, email, from, to);
      Distribute(s.loginLimit * k, |rest|);
    }
  }

  lemma StartsOfOne(maxKeys: int, s: Settings, es: seq<Event>, ip: string, email: string, skew: real,
                    from: real, to: real, k: nat)
    requires s.loginLimit >= 1 && skew >= 0.0 && LoginRun(maxKeys, s, es, skew)
    requires BudgetSpan(s, skew) > 0.0 && to == from + k as real * BudgetSpan(s, skew)
    ensures |PassedStarts(maxKeys, s, es, {ip}, email, from, to)| <= s.loginLimit * k
  {
    hide Passed, Protocol, NoForgets, Accommodated, AllSkewWithin, PairKey, Limited, KeyWindow;
    hide Log, AdmittedIn, CountIn;
    if '|' in ip {
      assert PassedStarts(maxKeys, s, es, {ip}, email, from, to) == {};
    } else {
      var key := PairKey(ip, email);
      TierIsUniform(s, es, ip, email);
      StartsAdmitted(maxKeys, s, es, ip, email, from, to);
      assert PassedStarts(maxKeys, s, es, {ip}, email, from, to) == AdmittedIn(maxKeys, Requests(s, es), key, from, to);
      RecordCounts(maxKeys, Requests(s, es), key, from, to);
      ManySpans(maxKeys, Requests(s, es), key, s.loginLimit, s.window, skew, BudgetSpan(s, skew), from, k);
    }
  }

  /** The run before a refused second section. */
  lemma BeforeRefusal(maxKeys: int, s: Settings, es: seq<Event>, e: Event, skew: real)
    requires e.Finish? && WellFormed(es + [e]) && Protocol(maxKeys, s, es + [e])
    requires AllSkewWithin(Requests(s, es + [e]), skew) && Accommodated(maxKeys, Requests(s, es + [e]), s.window)
    requires NoForgets(maxKeys, Requests(s, es))
    ensures LoginRun(maxKeys, s, es, skew)
    ensures Requests(s, es + [e]) == Requests(s, es) + [Section(s, e)]
  {
    hide Section, Answer, AccountKey, PairKey, Accommodated, NoForgets;
    var all := es + [e];
    RequestsAppend(s, es, [e]);
    assert Requests(s, [e]) == [Section(s, e)];
    AccommodatedPrefix(maxKeys, Requests(s, all), s.window, |es|);
    assert forall i | 0 <= i < |es| :: all[i] == es[i] && Requests(s, all)[i] == Requests(s, es)[i];
    ProtocolPrefix(maxKeys, s, es, e);
  }

  lemma ProtocolPrefix(maxKeys: int, s: Settings, es: seq<Event>, e: Event)
    requires Protocol(maxKeys, s, es + [e])
    ensures Protocol(maxKeys, s, es)
    ensures forall i: nat | i < |es| :: Passed(maxKeys, s, es + [e], i) == Passed(maxKeys, s, es, i)
    ensures e.Finish? ==>
              && e.login < |es| && es[e.login].Start? && es[e.login].email == e.email && Passed(maxKeys, s, es, e.login)
              && forall j | 0 <= j < |es| && es[j].Finish? :: es[j].login != e.login
  {
    hide Answer, Section;
    var all := es + [e];
    RequestsAppend(s, es, [e]);
    assert forall i | 0 <= i < |es| :: all[i] == es[i];
    assert all[|es|] == e;
    assert e.Finish? ==> Begun(maxKeys, s, all, |es|);
    forall j | 0 <= j < |es| && es[j].Finish? ensures Begun(maxKeys, s, es, j) {
      assert Begun(maxKeys, s, all, j);
    }
  }

  /** At a refusal the pruned deque is full: its front is inside the window, and it is part of the record. */
  lemma RefusedFront(maxKeys: int, rs: seq<Request>, r: Request, skew: real) returns (left: seq<real>)
    requires r.Hit? && r.limit >= 1 && skew >= 0.0 && AllSkewWithin(rs + [r], skew)
    requires Answer(maxKeys, rs, r).Refused?
    ensures |left| >= r.limit && Suffix(left, Log(maxKeys, rs, r.key))
    ensures Cutoff(r.now, r.window) < left[0] <= r.now + skew
    ensures forall i | 0 <= i < |left| :: left[0] - skew <= left[i] <= r.now + skew
  {
    var bucket, all := BucketOf(Run(maxKeys, rs), r.key), rs + [r];
    assert forall i | 0 <= i < |rs| :: all[i] == rs[i];
    assert all[|rs|] == r;
    left := Prune(bucket, Cutoff(r.now, r.window));
    OwnBucket(Run(maxKeys, rs), maxKeys, r);
    AnswerIsStep(maxKeys, rs, r);
    BucketSkewed(maxKeys, rs, r.key, skew, r.now + skew);
    DequeIsSuffix(maxKeys, rs, r.key);
    PruneIsSuffix(bucket, Cutoff(r.now, r.window));
  }

  /** At an account refusal four budgets of passwords were checked since some reading not long before the window. */
  lemma AccountFull(maxKeys: int, s: Settings, es: seq<Event>, e: Event, skew: real) returns (oldest: real)
    requires s.loginLimit >= 1 && skew >= 0.0 && e.Finish? && WellFormed(es) && NoForgets(maxKeys, Requests(s, es))
    requires AllSkewWithin(Requests(s, es) + [Section(s, e)], skew)
    requires Answer(maxKeys, Requests(s, es), Section(s, e)).Refused?
    ensures Cutoff(e.now, s.window) - skew < oldest <= e.now
    ensures |AccountChecks(maxKeys, s, es, e.email, oldest, e.now + skew + 1.0)| >= 4 * s.loginLimit
  {
    hide Answer, AccountKey, Log, NoForgets, AllSkewWithin, WellFormed, AccountChecks, AdmittedIn;
    var rs, key, to := Requests(s, es), AccountKey(e.email), e.now + skew + 1.0;
    var left := RefusedFront(maxKeys, rs, Section(s, e), skew);
    oldest := left[0] - skew;
    var log := Log(maxKeys, rs, key);
    var before := log[..|log| - |left|];
    assert log == before + left;
    CountConcat(before, left, oldest, to);
    CountEvery(left, oldest, to);
    RecordCounts(maxKeys, rs, key, oldest, to);
    FinishesAdmitted(maxKeys, s, es, e.email, oldest, to);
  }

  function LoginOf(es: seq<Event>): nat -> nat {
    (j: nat) => if j < |es| && es[j].Finish? then es[j].login else 0
  }

  /** The refused login is known, passed its first section, and no other second section belongs to it. */
  predicate OnlyRefused(maxKeys: int, s: Settings, es: seq<Event>, e: Event, ip: string) {
    && e.Finish? && e.login < |es| && es[e.login].Start? && es[e.login].email == e.email && es[e.login].ip == ip
    && Passed(maxKeys, s, es, e.login)
    && forall j | 0 <= j < |es| && es[j].Finish? :: es[j].login != e.login
  }

  /** The logins behind the checks passed the pair tier not long before, from the own or another live address. */
  lemma LoginBehindCheck(maxKeys: int, s: Settings, es: seq<Event>, e: Event, ips: set<string>, ip: string,
                         skew: real, cutoff: real, oldest: real, delay: real, to: real, j: nat)
    requires OnlyRefused(maxKeys, s, es, e, ip) && cutoff < oldest <= e.now && e.now + skew < to
    requires Protocol(maxKeys, s, es) && AllSkewWithin(Requests(s, es + [e]), skew) && Prompt(es + [e], delay)
    requires ips == OtherIps(maxKeys, s, es, e.email, cutoff, ip) + {ip}
    requires j in AccountChecks(maxKeys, s, es, e.email, oldest, e.now + skew + 1.0)
    ensures LoginOf(es)(j) in PassedStarts(maxKeys, s, es, ips, e.email, oldest - delay, to)
    ensures LoginOf(es)(j) != e.login
  {
    hide Passed, Section;
    var all, i := es + [e], es[j].login;
    assert Begun(maxKeys, s, es, j);
    assert all[j] == es[j] && all[i] == es[i] && all[|es|] == e;
    NotLongAfterLast(s, es, e, skew, i);
    assert es[i].now + delay >= es[j].now;
    if es[i].ip != ip {
      assert CheckedAfter(maxKeys, s, es, i, cutoff);
      assert es[i].ip in OtherIps(maxKeys, s, es, e.email, cutoff, ip);
    }
  }

  lemma NotLongAfterLast(s: Settings, es: seq<Event>, e: Event, skew: real, i: nat)
    requires i < |es| && AllSkewWithin(Requests(s, es + [e]), skew)
    ensures es[i].now <= e.now + skew
  {
    hide PairKey, AccountKey, BucketKey;
    var all := es + [e];
    assert Requests(s, all)[i] == Section(s, es[i]) && Requests(s, all)[|es|] == Section(s, e);
  }

  /**
    * An account refusal takes many addresses: if every login reaches its second section within the delay and k
    * budget spans cover the window, the delay and twice the skew, then n other addresses with a password checked
    * inside the window (less the skew) satisfy k * (n + 1) > 4.
    */
  lemma {:induction false} AccountRefusalNeedsOtherIps(maxKeys: int, s: Settings, es: seq<Event>, e: Event, ip: string,
                                                       skew: real, delay: real, k: nat)
    requires s.loginLimit >= 1 && skew >= 0.0 && BudgetSpan(s, skew) > 0.0
    requires s.window as real + delay + 2.0 * skew <= k as real * BudgetSpan(s, skew)
    requires e.Finish? && e.login < |es| && es[e.login].Start? && es[e.login].ip == ip
    requires WellFormed(es + [e]) && Protocol(maxKeys, s, es + [e]) && Prompt(es + [e], delay)
    requires AllSkewWithin(Requests(s, es + [e]), skew) && Accommodated(maxKeys, Requests(s, es + [e]), s.window)
    requires NoForgets(maxKeys, Requests(s, es))
    requires Answer(maxKeys, Requests(s, es), Section(s, e)).Refused?
    ensures k * (|OtherIps(maxKeys, s, es, e.email, Cutoff(e.now, s.window) - skew, ip)| + 1) > 4
  {
    hide Answer, Section, AccountKey, Accommodated, NoForgets, BudgetSpan, AllSkewWithin;
    BeforeRefusal(maxKeys, s, es, e, skew);
    ProtocolPrefix(maxKeys, s, es, e);
    assert OnlyRefused(maxKeys, s, es, e, ip) && Protocol(maxKeys, s, es) && WellFormed(es);
    var cutoff := Cutoff(e.now, s.window) - skew;
    var oldest := AccountFull(maxKeys, s, es, e, skew);
    var from := oldest - delay;
    var to := from + k as real * BudgetSpan(s, skew);
    assert e.now + skew < to;
    hide *;
    var others := OtherIps(maxKeys, s, es, e.email, cutoff, ip);
    LoginsOutnumberChecks(maxKeys, s, es, e, ip, others + {ip}, skew, cutoff, oldest, delay, to);
    StartsOfMany(maxKeys, s, es, others + {ip}, e.email, skew, from, to, k);
    OtherThanOwn(maxKeys, s, es, e.email, cutoff, ip);
    MoreThan(s.loginLimit, k, |others| + 1);
  }

  /** The logins behind the checks are distinct passed starts, and the refused login is one more. */
  lemma LoginsOutnumberChecks(maxKeys: int, s: Settings, es: seq<Event>, e: Event, ip: string, ips: set<string>,
                              skew: real, cutoff: real, oldest: real, delay: real, to: real)
    requires OnlyRefused(maxKeys, s, es, e, ip) && cutoff < oldest <= e.now && 0.0 <= skew && e.now + skew < to
    requires Protocol(maxKeys, s, es) && AllSkewWithin(Requests(s, es + [e]), skew) && Prompt(es + [e], delay)
    requires ips == OtherIps(maxKeys, s, es, e.email, cutoff, ip) + {ip}
    ensures |AccountChecks(maxKeys, s, es, e.email, oldest, e.now + skew + 1.0)| + 1
            <= |PassedStarts(maxKeys, s, es, ips, e.email, oldest - delay, to)|
  {
    hide PassedStarts, AccountChecks, OtherIps, LoginOf, Prompt, AllSkewWithin, Protocol, Requests, Passed;
    var checks := AccountChecks(maxKeys, s, es, e.email, oldest, e.now + skew + 1.0);
    var starts := PassedStarts(maxKeys, s, es, ips, e.email, oldest - delay, to);
    var logins := Image(checks, LoginOf(es));
    OwnStart(maxKeys, s, es, e, ips, ip, skew, oldest, delay, to);
    ChecksAreDistinct(maxKeys, s, es, e.email, oldest, e.now + skew + 1.0);
    forall j | j in checks ensures LoginOf(es)(j) in starts && LoginOf(es)(j) != e.login {
      LoginBehindCheck(maxKeys, s, es, e, ips, ip, skew, cutoff, oldest, delay, to, j);
    }
    InjectiveImage(checks, LoginOf(es));
    assert e.login !in logins;
    SubsetBound(logins + {e.login}, starts);
  }

  lemma OtherThanOwn(maxKeys: int, s: Settings, es: seq<Event>, email: string, cutoff: real, ip: string)
    ensures var others := OtherIps(maxKeys, s, es, email, cutoff, ip); |others + {ip}| == |others| + 1
  {
    hide CheckedAfter;
    assert ip !in OtherIps(maxKeys, s, es, email, cutoff, ip);
  }

  lemma OwnStart(maxKeys: int, s: Settings, es: seq<Event>, e: Event, ips: set<string>, ip: string,
                 skew: real, oldest: real, delay: real, to: real)
    requires OnlyRefused(maxKeys, s, es, e, ip) && ip in ips && oldest <= e.now && e.now + skew < to
    requires AllSkewWithin(Requests(s, es + [e]), skew) && Prompt(es + [e], delay)
    ensures e.login in PassedStarts(maxKeys, s, es, ips, e.email, oldest - delay, to)
  {
    var all := es + [e];
    assert all[|es|] == e && all[e.login] == es[e.login];
    NotLongAfterLast(s, es, e, skew, e.login);
  }

  lemma ChecksAreDistinct(maxKeys: int, s: Settings, es: seq<Event>, email: string, from: real, to: real)
    requires Protocol(maxKeys, s, es)
    ensures forall i, j | i in AccountChecks(maxKeys, s, es, email, from, to)
                          && j in AccountChecks(maxKeys, s, es, email, from, to)
                          && LoginOf(es)(i) == LoginOf(es)(j) :: i == j
  {
    hide Passed;
    forall i, j | i in AccountChecks(maxKeys, s, es, email, from, to)
                  && j in AccountChecks(maxKeys, s, es, email, from, to) && i != j
      ensures LoginOf(es)(i) != LoginOf(es)(j)
    {
      assert es[i].login != es[j].login;
    }
  }

  lemma AtMost(limit: nat, a: nat, b: nat)
    requires a <= b
    ensures limit * a <= limit * b
  {
  }

  lemma MoreThan(limit: int, k: nat, n: nat)
    requires limit >= 1 && 4 * limit <= limit * k * n - 1
    ensures k * n > 4
  {
    assert limit * k * n == limit * (k * n);
    if k * n <= 4 {
      AtMost(limit, k * n, 4);
    }
  }
}
