/** Exactly when the login budgets hold: no shorter window elsewhere, and never too many keys in one window. */
module LoginBudgets {
  import opened Prelude
  import opened Stamps
  import opened RateLimiter
  import opened LimiterRuns
  import opened LimiterMemory
  import opened LimiterScenarios
  import opened LimiterSkew
  import opened BucketKeys
  import opened LoginThrottle
  import opened LoginBlocks

  ghost predicate PairWithin(maxKeys: int, s: Settings, es: seq<Event>, ip: string, email: string, from: real) {
    |PairChecks(maxKeys, s, es, ip, email, from, from + s.window as real)| <= s.loginLimit
  }

  ghost predicate AccountWithin(maxKeys: int, s: Settings, es: seq<Event>, email: string, from: real) {
    |AccountChecks(maxKeys, s, es, email, from, from + s.window as real)| <= 4 * s.loginLimit
  }

  lemma PairIsWithin(maxKeys: int, s: Settings, es: seq<Event>, shortest: int, ip: string, email: string, from: real)
    requires Ordinary(maxKeys, s, es, shortest) && shortest >= s.window >= 1 && s.loginLimit >= 1
    ensures PairWithin(maxKeys, s, es, ip, email, from)
  {
    hide Ordinary, PairChecks, LoginRun;
    OrdinaryIsLoginRun(maxKeys, s, es, shortest);
    PairBudget(maxKeys, s, es, ip, email, 0.0, from, s.window as real);
  }

  lemma AccountIsWithin(maxKeys: int, s: Settings, es: seq<Event>, shortest: int, email: string, from: real)
    requires Ordinary(maxKeys, s, es, shortest) && shortest >= s.window >= 1 && s.loginLimit >= 1
    ensures AccountWithin(maxKeys, s, es, email, from)
  {
    hide Ordinary, AccountChecks, LoginRun;
    OrdinaryIsLoginRun(maxKeys, s, es, shortest);
    AccountBudget(maxKeys, s, es, email, 0.0, from, s.window as real);
  }

  // ---------------------------------------------------------------- windows

  /** In every run in which no other scope's window is shorter than the given one. */
  ghost predicate PairBudgetHolds(maxKeys: int, s: Settings, shortest: int) {
    forall es, ip, email, from | Ordinary(maxKeys, s, es, shortest) :: PairWithin(maxKeys, s, es, ip, email, from)
  }

  ghost predicate AccountBudgetHolds(maxKeys: int, s: Settings, shortest: int) {
    forall es, email, from | Ordinary(maxKeys, s, es, shortest) :: AccountWithin(maxKeys, s, es, email, from)
  }

  /** The per-pair budget holds in every run if and only if no other scope's window is shorter than the login's. */
  lemma {:induction false} PairBudgetIff(maxKeys: int, s: Settings, shortest: int)
    requires maxKeys >= 5 && s.loginLimit >= 1 && s.window >= 1 && shortest >= 1
    ensures PairBudgetHolds(maxKeys, s, shortest) <==> shortest >= s.window
  {
    hide Ordinary, PairWithin, AccountWithin;
    if shortest >= s.window {
      forall es, ip, email, from | Ordinary(maxKeys, s, es, shortest)
        ensures PairWithin(maxKeys, s, es, ip, email, from)
      {
        PairIsWithin(maxKeys, s, es, shortest, ip, email, from);
      }
    } else {
      var es := BudgetsOverdrawn(maxKeys, s, shortest);
    }
  }

  /** And so does the account budget. */
  lemma {:induction false} AccountBudgetIff(maxKeys: int, s: Settings, shortest: int)
    requires maxKeys >= 5 && s.loginLimit >= 1 && s.window >= 1 && shortest >= 1
    ensures AccountBudgetHolds(maxKeys, s, shortest) <==> shortest >= s.window
  {
    hide Ordinary, PairWithin, AccountWithin;
    if shortest >= s.window {
      forall es, email, from | Ordinary(maxKeys, s, es, shortest) ensures AccountWithin(maxKeys, s, es, email, from) {
        AccountIsWithin(maxKeys, s, es, shortest, email, from);
      }
    } else {
      var es := BudgetsOverdrawn(maxKeys, s, shortest);
    }
  }

  // ---------------------------------------------------------------- four addresses, a sweep, and one login more

  /** The table is filled up and swept; the records stay. */
  function Swept(es: seq<Event>, n: nat, window: int): seq<Event> {
    es + Fillers(n, window, 0.0) + [Sweeper(window)]
  }

  ghost predicate SameShortRecords(maxKeys: int, s: Settings, es: seq<Event>, es': seq<Event>) {
    forall k | |k| <= BASE && k != Newcomer() :: RecordOf(maxKeys, s, es', k) == RecordOf(maxKeys, s, es, k)
  }

  lemma SweptClean(maxKeys: int, s: Settings, es: seq<Event>, keys: set<string>, n: nat, window: int)
    requires Settled(TableOf(maxKeys, s, es), keys, n, 0.0) && n <= maxKeys && maxKeys >= 1 && SmoothRun(maxKeys, s, es)
    requires forall k | k in keys :: |k| <= BASE && k != Newcomer()
    ensures var es' := Swept(es, maxKeys - n, window);
            && TableOf(maxKeys, s, es') == map[Newcomer() := [window as real]]
            && SmoothRun(maxKeys, s, es') && SameShortRecords(maxKeys, s, es, es')
  {
    hide TableOf, RecordOf, SmoothRun, Fillers, Sweeper, DropIdle, Settled, SameShortRecords, Newcomer;
    var full := es + Fillers(maxKeys - n, window, 0.0);
    FilledUp(maxKeys, s, es, keys, n, window);
    SweeperLeaves(maxKeys, s, full, window, map[]);
    assert map[][Newcomer() := [window as real]] == map[Newcomer() := [window as real]];
    SweepKeepsRecords(maxKeys, s, es, full, full + [Sweeper(window)]);
  }

  lemma FilledUp(maxKeys: int, s: Settings, es: seq<Event>, keys: set<string>, n: nat, window: int)
    requires Settled(TableOf(maxKeys, s, es), keys, n, 0.0) && n <= maxKeys && SmoothRun(maxKeys, s, es)
    requires forall k | k in keys :: |k| <= BASE && k != Newcomer()
    ensures var full := es + Fillers(maxKeys - n, window, 0.0);
            && |TableOf(maxKeys, s, full)| == maxKeys && Newcomer() !in TableOf(maxKeys, s, full)
            && DropIdle(TableOf(maxKeys, s, full), 0.0) == map[] && SmoothRun(maxKeys, s, full)
            && SameShortRecords(maxKeys, s, es, full)
  {
    hide TableOf, RecordOf, SmoothRun, Fillers, DropIdle, Newcomer, Padded;
    FillersAdd(maxKeys, s, es, maxKeys - n, window, 0.0);
    PaddedIdle(TableOf(maxKeys, s, es), TableOf(maxKeys, s, es + Fillers(maxKeys - n, window, 0.0)),
               keys, n, maxKeys - n);
  }

  lemma SweepKeepsRecords(maxKeys: int, s: Settings, es: seq<Event>, full: seq<Event>, es': seq<Event>)
    requires SameShortRecords(maxKeys, s, es, full)
    requires forall k | k != Newcomer() :: RecordOf(maxKeys, s, es', k) == RecordOf(maxKeys, s, full, k)
    ensures SameShortRecords(maxKeys, s, es, es')
  {
    hide RecordOf, Newcomer;
  }

  lemma PaddedIdle(h: Table, h': Table, keys: set<string>, n: nat, more: nat)
    requires Settled(h, keys, n, 0.0) && Padded(h, h', BASE, more, 0.0)
    requires Newcomer() !in keys
    ensures DropIdle(h', 0.0) == map[] && |h'| == n + more && Newcomer() !in h'
  {
    assert |Newcomer()| == 14;
  }

  lemma SweptShape(es: seq<Event>, ips: set<string>, delay: real, fill: nat, window: int)
    requires window >= 1 && Shape(es, ips, window, delay, 0.0) && FinishedBelow(es, |es|)
    ensures var swept := Swept(es, fill, window);
            Shape(swept, ips, window, delay, window as real) && FinishedBelow(swept, |swept|)
  {
    var full := es + Fillers(fill, window, 0.0);
    var swept := full + [Sweeper(window)];
    hide Shape, FinishedBelow, Fillers;
    ShapeFillers(es, fill, window, ips, delay, 0.0, 0.0);
    ShapeArrival(full, ips, window, window, delay, 0.0, window as real);
    assert FinishedBelow(full, |es|);
    assert FinishedBelow(swept, |es|);
    FinishedBelowMore(swept, |es|, |swept|);
  }

  lemma SweptEvents(es: seq<Event>, fill: nat, window: int)
    ensures var swept := Swept(es, fill, window);
            && |swept| == |es| + fill + 1
            && (forall i | 0 <= i < |es| :: swept[i] == es[i])
            && (forall i | |es| <= i < |swept| :: swept[i].Other?)
  {
  }

  /** After the sweep the first address logs in once more: one above its budget and the account's. */
  function OneTooMany(n: nat, fill: nat, window: int): seq<Event> {
    var es := Swept(Crowded([], n), fill, window);
    es + Starts("1", 1, window as real) + Finishes(|es|, 1, window as real)
  }

  lemma CrowdAlone(maxKeys: int, s: Settings)
    requires maxKeys >= 5 && s.loginLimit >= 1 && s.window >= 1
    ensures var es := Crowded([], s.loginLimit);
            && Settled(TableOf(maxKeys, s, es), CrowdKeys(), 5, 0.0) && SmoothRun(maxKeys, s, es)
            && RecordOf(maxKeys, s, es, Pair("1")) == Repeat(0.0, s.loginLimit)
            && RecordOf(maxKeys, s, es, Account()) == Repeat(0.0, 4 * s.loginLimit)
            && Account() in TableOf(maxKeys, s, es)
            && TableOf(maxKeys, s, es)[Account()] == Repeat(0.0, 4 * s.loginLimit)
  {
    EmptyRun(maxKeys, s);
    hide TableOf, RecordOf, SmoothRun, Pair, Account, Crowded, Settled, Repeat, CrowdKeys;
    CrowdedTable(maxKeys, s, [], {}, 0, 0.0);
    assert {} + CrowdKeys() == CrowdKeys();
    assert [] + Repeat(0.0, s.loginLimit) == Repeat(0.0, s.loginLimit);
    assert [] + Repeat(0.0, 4 * s.loginLimit) == Repeat(0.0, 4 * s.loginLimit);
  }

  lemma OneTooManyRecords(maxKeys: int, s: Settings, window: int)
    requires maxKeys >= 5 && s.loginLimit >= 1 && s.window >= 1
    ensures var es := OneTooMany(s.loginLimit, maxKeys - 5, window);
            && SmoothRun(maxKeys, s, es)
            && RecordOf(maxKeys, s, es, Pair("1")) == Repeat(0.0, s.loginLimit) + [window as real]
            && RecordOf(maxKeys, s, es, Account()) == Repeat(0.0, 4 * s.loginLimit) + [window as real]
  {
    hide TableOf, RecordOf, SmoothRun, Pair, Account, Starts, Finishes, Settled, Swept, Crowded, Newcomer, Repeat;
    var crowd := Crowded([], s.loginLimit);
    CrowdAlone(maxKeys, s);
    FourKeys();
    SweptClean(maxKeys, s, crowd, CrowdKeys(), 5, window);
    assert Pair("1") in CrowdKeys() && Account() in CrowdKeys();
    LastLogin(maxKeys, s, Swept(crowd, maxKeys - 5, window), Newcomer(), window as real);
  }

  lemma LastLogin(maxKeys: int, s: Settings, es: seq<Event>, other: string, now: real)
    requires maxKeys >= 3 && s.loginLimit >= 1 && s.window >= 1
    requires TableOf(maxKeys, s, es) == map[other := [now]] && other != Pair("1") && other != Account()
    requires Pair("1") != Account()
    ensures var es' := es + Starts("1", 1, now) + Finishes(|es|, 1, now);
            && (SmoothRun(maxKeys, s, es) ==> SmoothRun(maxKeys, s, es'))
            && RecordOf(maxKeys, s, es', Pair("1")) == RecordOf(maxKeys, s, es, Pair("1")) + [now]
            && RecordOf(maxKeys, s, es', Account()) == RecordOf(maxKeys, s, es, Account()) + [now]
  {
    hide TableOf, RecordOf, SmoothRun, Pair, Account, Starts, Finishes;
    assert Repeat(now, 1) == [now] && [] + [now] == [now];
    StartsAdd(maxKeys, s, es, "1", 1, now);
    var es1 := es + Starts("1", 1, now);
    assert |TableOf(maxKeys, s, es1)| == 2;
    FinishesAdd(maxKeys, s, es1, |es|, 1, now, []);
  }

  lemma OneTooManyShape(n: nat, fill: nat, window: int)
    requires n >= 1 && window >= 1
    ensures Shape(OneTooMany(n, fill, window), {"1", "2", "3", "4"}, window, 0.0, window as real)
  {
    var ips, now, crowd := {"1", "2", "3", "4"}, window as real, Crowded([], n);
    EmptyShape(ips, window, 0.0, 0.0);
    CrowdedEvents([], n);
    hide Shape, Swept, Crowded, FinishedBelow;
    CrowdedShape([], n, ips, window, 0.0, 0.0);
    FinishedBelowMore(crowd, 4 * n, |crowd|);
    SweptShape(crowd, ips, 0.0, fill, window);
    ShapeLogin(Swept(crowd, fill, window), "1", ips, window, 0.0, now, now);
  }

  lemma CrowdFinishes(es: seq<Event>, n: nat)
    requires forall i | 0 <= i < |es| :: es[i].Other?
    ensures AllFinish(Crowded(es, n))
  {
    CrowdedEvents(es, n);
    var all := Crowded(es, n);
    hide Crowded;
    forall i: nat | i < |all| && all[i].Start?
      ensures exists j: nat :: j < |all| && all[j].Finish? && all[j].login == i
    {
      assert all[i + 4 * n] == Finish(i, EMAIL, 0.0);
    }
  }

  lemma OneTooManyFinishes(n: nat, fill: nat, window: int)
    ensures AllFinish(OneTooMany(n, fill, window))
  {
    var crowd := Crowded([], n);
    var swept := Swept(crowd, fill, window);
    var es := OneTooMany(n, fill, window);
    CrowdFinishes([], n);
    SweptEvents(crowd, fill, window);
    hide Swept, Crowded;
    forall i: nat | i < |es| && es[i].Start? ensures exists j: nat :: j < |es| && es[j].Finish? && es[j].login == i {
      if i < |swept| {
        assert es[i] == swept[i] && crowd[i].Start?;
        var j: nat :| j < |crowd| && crowd[j].Finish? && crowd[j].login == i;
        assert es[j] == swept[j] == crowd[j];
      } else {
        assert es[|swept| + 1] == Finish(|swept|, EMAIL, window as real);
      }
    }
  }

  /** A shorter window anywhere breaks both budgets: the sweep drops the login keys while their entries count. */
  lemma {:induction false} BudgetsOverdrawn(maxKeys: int, s: Settings, shortest: int) returns (es: seq<Event>)
    requires maxKeys >= 5 && s.loginLimit >= 1 && 1 <= shortest < s.window
    ensures Ordinary(maxKeys, s, es, shortest)
    ensures !PairWithin(maxKeys, s, es, "1", EMAIL, 0.0) && !AccountWithin(maxKeys, s, es, EMAIL, 0.0)
  {
    hide *;
    var n, fill := s.loginLimit, maxKeys - 5;
    es := OneTooMany(n, fill, shortest);
    OneTooManyShape(n, fill, shortest);
    OneTooManyFinishes(n, fill, shortest);
    OneTooManyRecords(maxKeys, s, shortest);
    SmoothShapeIsOrdinary(maxKeys, s, es, {"1", "2", "3", "4"}, shortest, 0.0, shortest as real);
    OrdinaryParts(maxKeys, s, es, shortest);
    PairOverdrawn(maxKeys, s, es, shortest as real);
    AccountOverdrawn(maxKeys, s, es, shortest as real);
  }

  lemma OrdinaryParts(maxKeys: int, s: Settings, es: seq<Event>, shortest: int)
    requires Ordinary(maxKeys, s, es, shortest)
    ensures WellFormed(es) && Protocol(maxKeys, s, es) && NoForgets(maxKeys, Requests(s, es))
  {
  }

  lemma CountAll(n: nat, late: real, length: real)
    requires 0.0 <= late < length
    ensures CountIn(Repeat(0.0, n) + [late], 0.0, 0.0 + length) == n + 1
  {
    CountRepeat(0.0, n, 0.0, length);
    CountAppend(Repeat(0.0, n), late, 0.0, length);
  }

  /** Where every login was admitted and finished, the record counts the checked ones. */
  lemma PairCounted(maxKeys: int, s: Settings, es: seq<Event>, to: real)
    requires WellFormed(es) && NoForgets(maxKeys, Requests(s, es)) && AllFinish(es)
    requires forall i: nat | i < |es| :: Passed(maxKeys, s, es, i)
    ensures |PairChecks(maxKeys, s, es, "1", EMAIL, 0.0, to)| == CountIn(RecordOf(maxKeys, s, es, Pair("1")), 0.0, to)
  {
    hide Passed, NoForgets, AdmittedIn, Log;
    RecordCounts(maxKeys, Requests(s, es), Pair("1"), 0.0, to);
    StartsAdmitted(maxKeys, s, es, "1", EMAIL, 0.0, to);
    assert PairChecks(maxKeys, s, es, "1", EMAIL, 0.0, to) == AdmittedIn(maxKeys, Requests(s, es), Pair("1"), 0.0, to);
  }

  lemma AccountCounted(maxKeys: int, s: Settings, es: seq<Event>, to: real)
    requires WellFormed(es) && NoForgets(maxKeys, Requests(s, es))
    ensures |AccountChecks(maxKeys, s, es, EMAIL, 0.0, to)| == CountIn(RecordOf(maxKeys, s, es, Account()), 0.0, to)
  {
    hide Passed, NoForgets, AdmittedIn, AccountChecks, Log;
    RecordCounts(maxKeys, Requests(s, es), Account(), 0.0, to);
    FinishesAdmitted(maxKeys, s, es, EMAIL, 0.0, to);
  }

  lemma PairOverdrawn(maxKeys: int, s: Settings, es: seq<Event>, late: real)
    requires s.loginLimit >= 1 && 0.0 <= late < s.window as real
    requires WellFormed(es) && NoForgets(maxKeys, Requests(s, es)) && AllFinish(es)
    requires RecordOf(maxKeys, s, es, Pair("1")) == Repeat(0.0, s.loginLimit) + [late]
    requires forall i: nat | i < |es| :: Passed(maxKeys, s, es, i)
    ensures !PairWithin(maxKeys, s, es, "1", EMAIL, 0.0)
  {
    hide Passed, NoForgets, RecordOf, PairChecks, AllFinish, WellFormed;
    CountAll(s.loginLimit, late, s.window as real);
    PairCounted(maxKeys, s, es, 0.0 + s.window as real);
  }

  lemma AccountOverdrawn(maxKeys: int, s: Settings, es: seq<Event>, late: real)
    requires s.loginLimit >= 1 && 0.0 <= late < s.window as real
    requires WellFormed(es) && NoForgets(maxKeys, Requests(s, es))
    requires RecordOf(maxKeys, s, es, Account()) == Repeat(0.0, 4 * s.loginLimit) + [late]
    ensures !AccountWithin(maxKeys, s, es, EMAIL, 0.0)
  {
    hide NoForgets, RecordOf, AccountChecks, WellFormed;
    CountAll(4 * s.loginLimit, late, s.window as real);
    AccountCounted(maxKeys, s, es, 0.0 + s.window as real);
  }

  // ---------------------------------------------------------------- crowds

  /** A run in which no request finds more than `crowd` keys in its window; everything else is as it should be. */
  predicate CrowdRun(maxKeys: int, s: Settings, es: seq<Event>, crowd: int) {
    && WellFormed(es) && Protocol(maxKeys, s, es) && OthersAtLeast(es, s.window)
    && NonDecreasing(Requests(s, es)) && Uncrowded(Requests(s, es), crowd)
  }

  ghost predicate PairBudgetInCrowds(maxKeys: int, s: Settings, crowd: int) {
    forall es, ip, email, from | CrowdRun(maxKeys, s, es, crowd) :: PairWithin(maxKeys, s, es, ip, email, from)
  }

  ghost predicate AccountBudgetInCrowds(maxKeys: int, s: Settings, crowd: int) {
    forall es, email, from | CrowdRun(maxKeys, s, es, crowd) :: AccountWithin(maxKeys, s, es, email, from)
  }

  /** Both budgets hold in every run if and only if fewer keys than the cap are ever used in one window. */
  lemma {:induction false} CrowdIff(maxKeys: int, s: Settings, crowd: int)
    requires maxKeys >= 6 && s.loginLimit >= 1 && s.window >= 1
    ensures PairBudgetInCrowds(maxKeys, s, crowd) <==> crowd < maxKeys
    ensures AccountBudgetInCrowds(maxKeys, s, crowd) <==> crowd < maxKeys
  {
    hide CrowdRun, PairWithin, AccountWithin;
    if crowd < maxKeys {
      forall es, ip, email, from | CrowdRun(maxKeys, s, es, crowd)
        ensures PairWithin(maxKeys, s, es, ip, email, from)
      {
        CrowdRunIsOrdinary(maxKeys, s, es, crowd);
        PairIsWithin(maxKeys, s, es, s.window, ip, email, from);
      }
      forall es, email, from | CrowdRun(maxKeys, s, es, crowd) ensures AccountWithin(maxKeys, s, es, email, from) {
        CrowdRunIsOrdinary(maxKeys, s, es, crowd);
        AccountIsWithin(maxKeys, s, es, s.window, email, from);
      }
    } else {
      var es := FloodOverdraws(maxKeys, s, crowd);
    }
  }

  lemma CrowdRunIsOrdinary(maxKeys: int, s: Settings, es: seq<Event>, crowd: int)
    requires CrowdRun(maxKeys, s, es, crowd) && crowd < maxKeys
    ensures Ordinary(maxKeys, s, es, s.window)
  {
    hide NoForgets, Uncrowded, Protocol, WellFormed, OthersAtLeast, NonDecreasing, PairKey, AccountKey, BucketKey;
    UncrowdedForgetsNothing(maxKeys, Requests(s, es), crowd);
  }

  // ---------------------------------------------------------------- a flood of keys

  /** Half a window before four addresses use up their budgets, other clients take the rest of the table. */
  function BeforeFlood(n: nat, fill: nat, window: int): seq<Event> {
    Crowded(Fillers(fill, window, -(window as real / 2.0)), n)
  }

  /** One client more clears the table, and half a window later the first address logs in again. */
  function Flood(n: nat, fill: nat, window: int): seq<Event> {
    var es := BeforeFlood(n, fill, window) + [Arrival(window, 0.0)];
    es + [Start("1", EMAIL, window as real / 2.0)] + [Finish(|es|, EMAIL, window as real / 2.0)]
  }

  lemma LongKeysAreNew(keys: set<string>)
    requires forall k | k in keys :: |k| > BASE
    ensures keys !! CrowdKeys() && Newcomer() !in keys
  {
    FourKeys();
    hide CrowdKeys, Newcomer;
  }

  lemma PaddedSettled(h: Table, n: nat, oldest: real)
    requires Padded(map[], h, BASE, n, oldest) && oldest <= 0.0
    ensures Settled(h, h.Keys, n, oldest) && forall k | k in h.Keys :: |k| > BASE
  {
  }

  lemma FillersTable(maxKeys: int, s: Settings, fill: nat, oldest: real)
    requires fill <= maxKeys && oldest <= 0.0
    ensures var es := Fillers(fill, s.window, oldest);
            var h := TableOf(maxKeys, s, es);
            && Settled(h, h.Keys, fill, oldest) && h.Keys !! CrowdKeys() && Newcomer() !in h.Keys
            && SmoothRun(maxKeys, s, es)
            && RecordOf(maxKeys, s, es, Pair("1")) == [] && RecordOf(maxKeys, s, es, Account()) == []
  {
    var none: seq<Event> := [];
    var es := Fillers(fill, s.window, oldest);
    EmptyRun(maxKeys, s);
    Keys("1", "1");
    assert none + es == es;
    hide TableOf, RecordOf, SmoothRun, Pair, Account, Fillers, CrowdKeys, Newcomer, Settled, Padded;
    FillersAdd(maxKeys, s, none, fill, s.window, oldest);
    PaddedSettled(TableOf(maxKeys, s, es), fill, oldest);
    LongKeysAreNew(TableOf(maxKeys, s, es).Keys);
  }

  /** The table is full, of keys that are all in use. */
  lemma BeforeFloodTable(maxKeys: int, s: Settings)
    requires maxKeys >= 5 && s.loginLimit >= 1 && s.window >= 1
    ensures var n, es := s.loginLimit, BeforeFlood(s.loginLimit, maxKeys - 5, s.window);
            var h := TableOf(maxKeys, s, es);
            && Settled(h, h.Keys, maxKeys, -(s.window as real / 2.0)) && Newcomer() !in h && SmoothRun(maxKeys, s, es)
            && RecordOf(maxKeys, s, es, Pair("1")) == Repeat(0.0, n)
            && RecordOf(maxKeys, s, es, Account()) == Repeat(0.0, 4 * n)
  {
    var n, fill, oldest := s.loginLimit, maxKeys - 5, -(s.window as real / 2.0);
    var fillers := Fillers(fill, s.window, oldest);
    var keys := TableOf(maxKeys, s, fillers).Keys;
    assert BeforeFlood(n, fill, s.window) == Crowded(fillers, n);
    hide *;
    NewcomerIsNew();
    FillersTable(maxKeys, s, fill, oldest);
    CrowdedTable(maxKeys, s, fillers, keys, fill, oldest);
    SettledKeys(TableOf(maxKeys, s, Crowded(fillers, n)), keys + CrowdKeys(), maxKeys, oldest);
    NothingBefore(Repeat(0.0, n));
    NothingBefore(Repeat(0.0, 4 * n));
  }

  lemma NothingBefore<T>(s: seq<T>)
    ensures [] + s == s
  {
  }

  lemma NewcomerIsNew()
    ensures Newcomer() !in CrowdKeys()
  {
    FourKeys();
  }

  lemma SettledKeys(h: Table, keys: set<string>, n: nat, oldest: real)
    requires Settled(h, keys, n, oldest)
    ensures h.Keys == keys && Settled(h, h.Keys, n, oldest)
  {
  }

  predicate AllInUse(h: Table, cutoff: real) {
    forall k | k in h :: !Idle(h[k], cutoff)
  }

  /** An arrival at a full table without idle keys starts it afresh. */
  lemma Clears(maxKeys: int, rs: seq<Request>, r: Request)
    requires r.Hit? && maxKeys >= 1 && r.limit >= 1 && NeedsRoom(Run(maxKeys, rs), r.key, maxKeys)
    requires AllInUse(Run(maxKeys, rs), Cutoff(r.now, r.window))
    ensures Run(maxKeys, rs + [r]) == map[r.key := [r.now]] && Answer(maxKeys, rs, r).Admitted?
  {
    var h, cutoff := Run(maxKeys, rs), Cutoff(r.now, r.window);
    assert (rs + [r])[..|rs|] == rs;
    assert DropIdle(h, cutoff) == h;
    hide Run, DropIdle, Idle, AllInUse;
    assert Opened(h, r.key, cutoff, maxKeys) == map[r.key := []];
    assert [] + [r.now] == [r.now] && Prune([], cutoff) == [];
    assert map[r.key := []][r.key := [r.now]] == map[r.key := [r.now]];
  }

  /** What an arrival at the full table and one more login look like to the limiter: all of them are admitted. */
  lemma FloodAdmits(maxKeys: int, s: Settings, es: seq<Event>, keys: set<string>)
    requires maxKeys >= 3 && s.loginLimit >= 1 && s.window >= 1
    requires Settled(TableOf(maxKeys, s, es), keys, maxKeys, -(s.window as real / 2.0))
    requires Newcomer() !in TableOf(maxKeys, s, es)
    ensures var es1, half := es + [Arrival(s.window, 0.0)], s.window as real / 2.0;
            var first, second := Start("1", EMAIL, half), Finish(|es| + 1, EMAIL, half);
            && Answer(maxKeys, Requests(s, es1), Section(s, first)).Admitted?
            && Answer(maxKeys, Requests(s, es1 + [first]), Section(s, second)).Admitted?
  {
    hide *;
    var half := s.window as real / 2.0;
    SectionsOf(s, es, half);
    FloodedAdmits(maxKeys, s, es, keys, Section(s, Start("1", EMAIL, half)),
                  Section(s, Finish(|es| + 1, EMAIL, half)));
  }

  lemma FloodedAdmits(maxKeys: int, s: Settings, es: seq<Event>, keys: set<string>, p: Request, q: Request)
    requires maxKeys >= 3 && s.window >= 1 && Settled(TableOf(maxKeys, s, es), keys, maxKeys, -(s.window as real / 2.0))
    requires p.Hit? && q.Hit? && p.limit >= 1 && q.limit >= 1 && p.key != q.key
    requires p.key != Newcomer() && q.key != Newcomer() && Newcomer() !in TableOf(maxKeys, s, es)
    ensures var rs := Requests(s, es) + [Hit(Newcomer(), 1, s.window, 0.0)];
            Answer(maxKeys, rs, p).Admitted? && Answer(maxKeys, rs + [p], q).Admitted?
  {
    hide *;
    TableIsRun(maxKeys, s, es);
    AllLive(TableOf(maxKeys, s, es), keys, maxKeys, s.window);
    AdmitThree(maxKeys, Requests(s, es), Hit(Newcomer(), 1, s.window, 0.0), p, q);
  }

  lemma TableIsRun(maxKeys: int, s: Settings, es: seq<Event>)
    ensures TableOf(maxKeys, s, es) == Run(maxKeys, Requests(s, es))
  {
  }

  lemma AdmitThree(maxKeys: int, rs: seq<Request>, a: Request, p: Request, q: Request)
    requires maxKeys >= 3 && a.Hit? && p.Hit? && q.Hit? && a.limit >= 1 && p.limit >= 1 && q.limit >= 1
    requires a.key != p.key && a.key != q.key && p.key != q.key
    requires a.key !in Run(maxKeys, rs) && |Run(maxKeys, rs)| == maxKeys
    requires AllInUse(Run(maxKeys, rs), Cutoff(a.now, a.window))
    ensures Answer(maxKeys, rs + [a], p).Admitted? && Answer(maxKeys, rs + [a] + [p], q).Admitted?
  {
    assert NeedsRoom(Run(maxKeys, rs), a.key, maxKeys);
    hide *;
    Clears(maxKeys, rs, a);
    AdmitTwo(maxKeys, rs + [a], a, p, q);
  }

  lemma SectionsOf(s: Settings, es: seq<Event>, half: real)
    ensures var es1, first := es + [Arrival(s.window, 0.0)], Start("1", EMAIL, half);
            var a, p := Hit(Newcomer(), 1, s.window, 0.0), Section(s, first);
            var q := Section(s, Finish(|es| + 1, EMAIL, half));
            && Requests(s, es1) == Requests(s, es) + [a] && Requests(s, es1 + [first]) == Requests(s, es1) + [p]
            && p.Hit? && q.Hit? && p.key != q.key && p.key != a.key && q.key != a.key
            && p.limit == s.loginLimit && q.limit == s.loginLimit * 4
  {
    var es1, first := es + [Arrival(s.window, 0.0)], Start("1", EMAIL, half);
    Keys("1", "1");
    RequestsAppend(s, es, [Arrival(s.window, 0.0)]);
    RequestsAppend(s, es1, [first]);
    assert Requests(s, [Arrival(s.window, 0.0)]) == [Hit(Newcomer(), 1, s.window, 0.0)];
    assert Requests(s, [first]) == [Section(s, first)];
  }

  lemma AllLive(h: Table, keys: set<string>, n: nat, window: int)
    requires Settled(h, keys, n, -(window as real / 2.0)) && window >= 1
    ensures AllInUse(h, Cutoff(0.0, window)) && |h| == n
  {
  }

  lemma AdmitTwo(maxKeys: int, rs: seq<Request>, a: Request, p: Request, q: Request)
    requires maxKeys >= 3 && a.Hit? && p.Hit? && q.Hit? && p.limit >= 1 && q.limit >= 1
    requires a.key != p.key && a.key != q.key && p.key != q.key && Run(maxKeys, rs) == map[a.key := [a.now]]
    ensures Answer(maxKeys, rs, p).Admitted? && Answer(maxKeys, rs + [p], q).Admitted?
  {
    assert Prune([], Cutoff(p.now, p.window)) == [] && Prune([], Cutoff(q.now, q.window)) == [];
    hide Run, Prune, Log, Smooth;
    Admits(maxKeys, rs, p, []);
    Admits(maxKeys, rs + [p], q, []);
  }

  /** The flood keeps the protocol, and what was checked before still is. */
  lemma FloodProtocol(maxKeys: int, s: Settings, es: seq<Event>, a: Event, first: Event, second: Event)
    requires Protocol(maxKeys, s, es) && a.Other? && first.Start? && second.Finish?
    requires second.login == |es| + 1 && second.email == first.email
    requires Answer(maxKeys, Requests(s, es + [a]), Section(s, first)).Admitted?
    requires Answer(maxKeys, Requests(s, es + [a] + [first]), Section(s, second)).Admitted?
    ensures var all := es + [a] + [first] + [second];
            && Protocol(maxKeys, s, all) && Passed(maxKeys, s, all, |es| + 1) && Passed(maxKeys, s, all, |es| + 2)
            && forall i: nat | i < |es| :: Passed(maxKeys, s, all, i) == Passed(maxKeys, s, es, i)
  {
    hide Answer, Section;
    ProtocolAppend(maxKeys, s, es, a);
    LoginAppends(maxKeys, s, es + [a], first, second);
    PassedInLonger(maxKeys, s, es + [a], [first] + [second]);
    assert es + [a] + ([first] + [second]) == es + [a] + [first] + [second];
  }

  lemma PassedInLonger(maxKeys: int, s: Settings, es: seq<Event>, more: seq<Event>)
    ensures forall i: nat | i < |es| :: Passed(maxKeys, s, es + more, i) == Passed(maxKeys, s, es, i)
  {
    hide Answer, Section;
    RequestsAppend(s, es, more);
  }

  /** Checks of a prefix are checks of the run, and one more finished login is one more check. */
  lemma PairChecksGrow(maxKeys: int, s: Settings, es: seq<Event>, more: seq<Event>, to: real)
    requires |more| == 3 && more[1] == Start("1", EMAIL, more[1].now) && more[2].Finish?
    requires more[2].login == |es| + 1 && 0.0 <= more[1].now < to && Passed(maxKeys, s, es + more, |es| + 2)
    ensures |PairChecks(maxKeys, s, es + more, "1", EMAIL, 0.0, to)|
            > |PairChecks(maxKeys, s, es, "1", EMAIL, 0.0, to)|
  {
    var all := es + more;
    PassedInLonger(maxKeys, s, es, more);
    var p, p' := PairChecks(maxKeys, s, es, "1", EMAIL, 0.0, to), PairChecks(maxKeys, s, all, "1", EMAIL, 0.0, to);
    hide Passed;
    forall i | i in p ensures i in p' {
      var j: nat :| j < |es| && es[j].Finish? && es[j].login == i && Passed(maxKeys, s, es, j);
      assert all[j] == es[j] && all[i] == es[i];
      assert Checked(maxKeys, s, all, i);
    }
    assert all[|es| + 2] == more[2] && all[|es| + 1] == more[1];
    assert Checked(maxKeys, s, all, |es| + 1);
    hide Checked;
    assert |es| + 1 in p' && |es| + 1 !in p;
    SubsetBound(p + {|es| + 1}, p');
  }

  lemma AccountChecksGrow(maxKeys: int, s: Settings, es: seq<Event>, more: seq<Event>, to: real)
    requires |more| == 3 && more[2].Finish? && more[2].email == EMAIL && 0.0 <= more[2].now < to
    requires Passed(maxKeys, s, es + more, |es| + 2)
    ensures |AccountChecks(maxKeys, s, es + more, EMAIL, 0.0, to)| > |AccountChecks(maxKeys, s, es, EMAIL, 0.0, to)|
  {
    var all := es + more;
    PassedInLonger(maxKeys, s, es, more);
    hide Passed;
    var c, c' := AccountChecks(maxKeys, s, es, EMAIL, 0.0, to), AccountChecks(maxKeys, s, all, EMAIL, 0.0, to);
    assert all[|es| + 2] == more[2];
    assert forall j | j in c :: all[j] == es[j];
    assert |es| + 2 in c' && |es| + 2 !in c;
    SubsetBound(c + {|es| + 2}, c');
  }

  // ---------------------------------------------------------------- how crowded the flood is

  lemma KeysOfConcat(a: seq<Request>, b: seq<Request>)
    ensures KeysOf(a + b) == KeysOf(a) + KeysOf(b)
  {
    assert forall r | r in a :: r in a + b;
    assert forall r | r in b :: r in a + b;
  }

  lemma {:induction false} KeysAreFew(rs: seq<Request>)
    ensures |KeysOf(rs)| <= |rs|
  {
    if rs != [] {
      var n := |rs| - 1;
      KeysAreFew(rs[..n]);
      assert rs[..n] + [rs[n]] == rs;
      KeysOfConcat(rs[..n], [rs[n]]);
      var last := if rs[n].Hit? then {rs[n].key} else {};
      assert KeysOf([rs[n]]) <= last;
      SubsetBound(KeysOf(rs), KeysOf(rs[..n]) + last);
    }
  }

  /** Few keys in all are few keys in every window. */
  lemma {:induction false} FewKeysUncrowded(rs: seq<Request>, crowd: int)
    requires |KeysOf(rs)| <= crowd
    ensures Uncrowded(rs, crowd)
  {
    if rs != [] {
      var rs0, r := rs[..|rs| - 1], rs[|rs| - 1];
      SubsetOfKeys(rs, |rs| - 1);
      FewKeysUncrowded(rs0, crowd);
      if r.Hit? {
        SubsetBound(KeysWithin(rs0, r), KeysOf(rs0));
      }
    }
  }

  lemma UncrowdedAppend(rs: seq<Request>, r: Request, keys: set<string>, crowd: int)
    requires Uncrowded(rs, crowd) && r.Hit? && KeysWithin(rs, r) <= keys && |keys| <= crowd
    ensures Uncrowded(rs + [r], crowd)
  {
    assert (rs + [r])[..|rs|] == rs;
    SubsetBound(KeysWithin(rs, r), keys);
  }

  lemma CrowdedKeysAt(s: Settings, es: seq<Event>, n: nat, i: nat)
    requires |es| <= i < |Crowded(es, n)|
    ensures Section(s, Crowded(es, n)[i]).key in CrowdKeys()
  {
    CrowdedEvents(es, n);
    hide Crowded, PairKey, AccountKey;
    var e := Crowded(es, n)[i];
    assert i >= |es| + 4 * n ==> e == Finish(i - 4 * n, EMAIL, 0.0);
  }

  lemma FiveCrowdKeys()
    ensures |CrowdKeys()| <= 5 && |CrowdKeys() + {Newcomer()}| <= 6
  {
    hide Pair, Account, Newcomer;
  }

  lemma BeforeFloodKeys(s: Settings, n: nat, fill: nat)
    ensures |KeysOf(Requests(s, BeforeFlood(n, fill, s.window)))| <= fill + 5
  {
    var fillers := Fillers(fill, s.window, -(s.window as real / 2.0));
    var es := Crowded(fillers, n);
    var rs, rs0 := Requests(s, es), Requests(s, fillers);
    CrowdedEvents(fillers, n);
    FiveCrowdKeys();
    hide Crowded, CrowdKeys, Section;
    forall key | key in KeysOf(rs) ensures key in KeysOf(rs0) + CrowdKeys() {
      var r :| r in rs && r.Hit? && r.key == key;
      var i :| 0 <= i < |rs| && rs[i] == r;
      if i < fill {
        assert rs0[i] == r && r in rs0;
      } else {
        CrowdedKeysAt(s, fillers, n, i);
      }
    }
    SubsetBound(KeysOf(rs), KeysOf(rs0) + CrowdKeys());
    KeysAreFew(rs0);
  }

  /** Half a window after the flood only the crowd and the newcomer were there within the window. */
  lemma FloodWithin(s: Settings, n: nat, fill: nat, more: seq<Event>, r: Request)
    requires r.Hit? && r.now == s.window as real / 2.0 && r.window == s.window
    requires forall e | e in more :: Section(s, e).key in CrowdKeys() + {Newcomer()}
    ensures KeysWithin(Requests(s, BeforeFlood(n, fill, s.window) + more), r) <= CrowdKeys() + {Newcomer()}
  {
    var fillers := Fillers(fill, s.window, -(s.window as real / 2.0));
    var es := Crowded(fillers, n) + more;
    var rs := Requests(s, es);
    CrowdedEvents(fillers, n);
    hide Crowded, CrowdKeys, Newcomer, PairKey, AccountKey, BucketKey;
    forall key | key in KeysWithin(rs, r) ensures key in CrowdKeys() + {Newcomer()} {
      var x :| x in rs && x.Hit? && x.now > Cutoff(r.now, r.window) && x.key == key;
      var i :| 0 <= i < |rs| && rs[i] == x;
      if i < fill {
        assert es[i] == fillers[i];
      } else if i < |Crowded(fillers, n)| {
        CrowdedKeysAt(s, fillers, n, i);
        assert es[i] == Crowded(fillers, n)[i];
      } else {
        assert es[i] in more;
      }
    }
  }

  lemma FloodUncrowded(maxKeys: int, s: Settings, crowd: int)
    requires maxKeys >= 6 && s.loginLimit >= 1 && s.window >= 1 && crowd >= maxKeys
    ensures Uncrowded(Requests(s, Flood(s.loginLimit, maxKeys - 5, s.window)), crowd)
  {
    hide *;
    var n, fill, half := s.loginLimit, maxKeys - 5, s.window as real / 2.0;
    var es, a := BeforeFlood(n, fill, s.window), Arrival(s.window, 0.0);
    FloodIs(n, fill, s.window);
    FloodSections(s, es, half);
    BeforeFloodKeys(s, n, fill);
    FiveCrowdKeys();
    FloodWithinBoth(s, n, fill);
    UncrowdedThree(Requests(s, es), Section(s, a), Section(s, Start("1", EMAIL, half)),
                   Section(s, Finish(|es| + 1, EMAIL, half)), CrowdKeys() + {Newcomer()}, crowd);
  }

  lemma FloodWithinBoth(s: Settings, n: nat, fill: nat)
    ensures var es, half := BeforeFlood(n, fill, s.window), s.window as real / 2.0;
            var a, first, second := Arrival(s.window, 0.0), Start("1", EMAIL, half), Finish(|es| + 1, EMAIL, half);
            && Section(s, first).Hit? && Section(s, second).Hit?
            && KeysWithin(Requests(s, es + [a]), Section(s, first)) <= CrowdKeys() + {Newcomer()}
            && KeysWithin(Requests(s, es + [a] + [first]), Section(s, second)) <= CrowdKeys() + {Newcomer()}
  {
    var es, half := BeforeFlood(n, fill, s.window), s.window as real / 2.0;
    var a, first, second := Arrival(s.window, 0.0), Start("1", EMAIL, half), Finish(|es| + 1, EMAIL, half);
    assert Section(s, a).key == Newcomer() && Section(s, first).key in CrowdKeys();
    FloodWithin(s, n, fill, [a], Section(s, first));
    FloodWithin(s, n, fill, [a] + [first], Section(s, second));
    Associative(es, [a], [first]);
  }

  lemma UncrowdedThree(rs: seq<Request>, a: Request, p: Request, q: Request, keys: set<string>, crowd: int)
    requires |KeysOf(rs)| <= crowd && |keys| <= crowd && a.Hit? && p.Hit? && q.Hit?
    requires KeysWithin(rs + [a], p) <= keys && KeysWithin(rs + [a] + [p], q) <= keys
    ensures Uncrowded(rs + [a] + [p] + [q], crowd)
  {
    hide *;
    FewKeysUncrowded(rs, crowd);
    ManyWithin(rs, a);
    UncrowdedAppend(rs, a, KeysOf(rs), crowd);
    UncrowdedAppend(rs + [a], p, keys, crowd);
    UncrowdedAppend(rs + [a] + [p], q, keys, crowd);
  }

  lemma ManyWithin(rs: seq<Request>, r: Request)
    requires r.Hit?
    ensures KeysWithin(rs, r) <= KeysOf(rs)
  {
  }

  lemma FloodIs(n: nat, fill: nat, window: int)
    ensures var es, half := BeforeFlood(n, fill, window), window as real / 2.0;
            Flood(n, fill, window)
            == es + [Arrival(window, 0.0)] + [Start("1", EMAIL, half)] + [Finish(|es| + 1, EMAIL, half)]
  {
  }

  lemma FloodSections(s: Settings, es: seq<Event>, half: real)
    ensures var a, first, second := Arrival(s.window, 0.0), Start("1", EMAIL, half), Finish(|es| + 1, EMAIL, half);
            && Requests(s, es + [a]) == Requests(s, es) + [Section(s, a)]
            && Requests(s, es + [a] + [first]) == Requests(s, es + [a]) + [Section(s, first)]
            && Requests(s, es + [a] + [first] + [second]) == Requests(s, es + [a] + [first]) + [Section(s, second)]
            && Section(s, first).window == s.window && Section(s, first).now == half && Section(s, first).Hit?
            && Section(s, second).window == s.window && Section(s, second).now == half && Section(s, second).Hit?
            && Section(s, a).Hit?
            && Section(s, a).key == Newcomer() && Section(s, first).key in CrowdKeys()
  {
    var a, first, second := Arrival(s.window, 0.0), Start("1", EMAIL, half), Finish(|es| + 1, EMAIL, half);
    RequestsAppend(s, es, [a]);
    RequestsAppend(s, es + [a], [first]);
    RequestsAppend(s, es + [a] + [first], [second]);
    assert Requests(s, [a]) == [Section(s, a)] && Requests(s, [first]) == [Section(s, first)];
    assert Requests(s, [second]) == [Section(s, second)];
  }

  lemma FillersShape(fill: nat, window: int, oldest: real)
    requires window >= 1
    ensures var es, ips := Fillers(fill, window, oldest), {"1", "2", "3", "4"};
            && |es| == fill && Shape(es, ips, window, 0.0, oldest) && FinishedBelow(es, fill)
            && forall i | 0 <= i < |es| :: es[i].Other?
  {
    var none: seq<Event> := [];
    var es, ips := Fillers(fill, window, oldest), {"1", "2", "3", "4"};
    assert none + es == es;
    EmptyShape(ips, window, 0.0, oldest);
    hide Shape;
    ShapeFillers(none, fill, window, ips, 0.0, oldest, oldest);
  }

  lemma BeforeFloodShape(n: nat, fill: nat, window: int)
    requires window >= 1
    ensures var es := BeforeFlood(n, fill, window);
            && Shape(es, {"1", "2", "3", "4"}, window, 0.0, 0.0) && FinishedBelow(es, |es|) && AllFinish(es)
  {
    var oldest := -(window as real / 2.0);
    var fillers := Fillers(fill, window, oldest);
    assert BeforeFlood(n, fill, window) == Crowded(fillers, n);
    FillersShape(fill, window, oldest);
    CrowdedEvents(fillers, n);
    hide *;
    CrowdFinishes(fillers, n);
    CrowdedShape(fillers, n, {"1", "2", "3", "4"}, window, 0.0, oldest);
    FinishedBelowMore(Crowded(fillers, n), fill + 4 * n, fill + 8 * n);
  }

  lemma FloodShape(n: nat, fill: nat, window: int)
    requires window >= 1
    ensures Shape(Flood(n, fill, window), {"1", "2", "3", "4"}, window, 0.0, window as real / 2.0)
  {
    var ips, half := {"1", "2", "3", "4"}, window as real / 2.0;
    var es := BeforeFlood(n, fill, window);
    var es1 := es + [Arrival(window, 0.0)];
    BeforeFloodShape(n, fill, window);
    FloodIs(n, fill, window);
    assert Starts("1", 1, half) == [Start("1", EMAIL, half)];
    assert Finishes(|es1|, 1, half) == [Finish(|es1|, EMAIL, half)];
    hide Shape, FinishedBelow, BeforeFlood, Flood, Arrival, AllFinish;
    ShapeArrival(es, ips, window, window, 0.0, 0.0, 0.0);
    assert FinishedBelow(es1, |es|);
    FinishedBelowMore(es1, |es|, |es1|);
    ShapeLogin(es1, "1", ips, window, 0.0, 0.0, half);
  }

  /** Before the flood both budgets are used up exactly. */
  lemma BeforeFloodChecks(maxKeys: int, s: Settings)
    requires maxKeys >= 5 && s.loginLimit >= 1 && s.window >= 1
    ensures var es, to := BeforeFlood(s.loginLimit, maxKeys - 5, s.window), 0.0 + s.window as real;
            && Protocol(maxKeys, s, es)
            && |PairChecks(maxKeys, s, es, "1", EMAIL, 0.0, to)| == s.loginLimit
            && |AccountChecks(maxKeys, s, es, EMAIL, 0.0, to)| == 4 * s.loginLimit
  {
    hide *;
    var n, to := s.loginLimit, 0.0 + s.window as real;
    var es := BeforeFlood(n, maxKeys - 5, s.window);
    BeforeFloodShape(n, maxKeys - 5, s.window);
    BeforeFloodTable(maxKeys, s);
    SmoothShapeIsOrdinary(maxKeys, s, es, {"1", "2", "3", "4"}, s.window, 0.0, 0.0);
    OrdinaryParts(maxKeys, s, es, s.window);
    PairCounted(maxKeys, s, es, to);
    AccountCounted(maxKeys, s, es, to);
    CountRepeat(0.0, n, 0.0, to);
    CountRepeat(0.0, 4 * n, 0.0, to);
  }

  /** When the table can fill up with keys that are in use, clearing it lets both budgets be overdrawn. */
  lemma {:induction false} FloodOverdraws(maxKeys: int, s: Settings, crowd: int) returns (all: seq<Event>)
    requires maxKeys >= 6 && s.loginLimit >= 1 && s.window >= 1 && crowd >= maxKeys
    ensures CrowdRun(maxKeys, s, all, crowd)
    ensures !PairWithin(maxKeys, s, all, "1", EMAIL, 0.0) && !AccountWithin(maxKeys, s, all, EMAIL, 0.0)
  {
    hide *;
    var n, fill, half, to := s.loginLimit, maxKeys - 5, s.window as real / 2.0, 0.0 + s.window as real;
    var es := BeforeFlood(n, fill, s.window);
    var a, first, second := Arrival(s.window, 0.0), Start("1", EMAIL, half), Finish(|es| + 1, EMAIL, half);
    all := Flood(n, fill, s.window);
    FloodIs(n, fill, s.window);
    BeforeFloodTable(maxKeys, s);
    BeforeFloodChecks(maxKeys, s);
    FloodKeepsProtocol(maxKeys, s, es, TableOf(maxKeys, s, es).Keys);
    FloodShape(n, fill, s.window);
    FloodUncrowded(maxKeys, s, crowd);
    FloodIsCrowdRun(maxKeys, s, all, crowd);
    ThreeMore(es, a, first, second);
    PairChecksGrow(maxKeys, s, es, [a, first, second], to);
    AccountChecksGrow(maxKeys, s, es, [a, first, second], to);
    Exceeded(maxKeys, s, all);
  }

  lemma FloodKeepsProtocol(maxKeys: int, s: Settings, es: seq<Event>, keys: set<string>)
    requires maxKeys >= 3 && s.loginLimit >= 1 && s.window >= 1 && Protocol(maxKeys, s, es)
    requires Settled(TableOf(maxKeys, s, es), keys, maxKeys, -(s.window as real / 2.0))
    requires Newcomer() !in TableOf(maxKeys, s, es)
    ensures var a, half := Arrival(s.window, 0.0), s.window as real / 2.0;
            var all := es + [a] + [Start("1", EMAIL, half)] + [Finish(|es| + 1, EMAIL, half)];
            Protocol(maxKeys, s, all) && Passed(maxKeys, s, all, |es| + 2)
  {
    hide *;
    var half := s.window as real / 2.0;
    FloodAdmits(maxKeys, s, es, keys);
    ArrivalIsOther(s.window, 0.0);
    FloodProtocol(maxKeys, s, es, Arrival(s.window, 0.0), Start("1", EMAIL, half), Finish(|es| + 1, EMAIL, half));
  }

  lemma ArrivalIsOther(window: int, now: real)
    ensures Arrival(window, now).Other?
  {
  }

  lemma ThreeMore(es: seq<Event>, a: Event, b: Event, c: Event)
    ensures es + [a, b, c] == es + [a] + [b] + [c] && |[a, b, c]| == 3 && [a, b, c][1] == b && [a, b, c][2] == c
  {
  }

  lemma Exceeded(maxKeys: int, s: Settings, es: seq<Event>)
    ensures |PairChecks(maxKeys, s, es, "1", EMAIL, 0.0, 0.0 + s.window as real)| > s.loginLimit ==>
              !PairWithin(maxKeys, s, es, "1", EMAIL, 0.0)
    ensures |AccountChecks(maxKeys, s, es, EMAIL, 0.0, 0.0 + s.window as real)| > 4 * s.loginLimit ==>
              !AccountWithin(maxKeys, s, es, EMAIL, 0.0)
  {
    hide PairChecks, AccountChecks;
  }

  lemma FloodIsCrowdRun(maxKeys: int, s: Settings, es: seq<Event>, crowd: int)
    requires Protocol(maxKeys, s, es) && Uncrowded(Requests(s, es), crowd)
    requires Shape(es, {"1", "2", "3", "4"}, s.window, 0.0, s.window as real / 2.0)
    ensures CrowdRun(maxKeys, s, es, crowd)
  {
    ShapeInOrder(s, es, {"1", "2", "3", "4"}, s.window, 0.0, s.window as real / 2.0);
    hide Protocol, Uncrowded, Requests, NonDecreasing;
  }
}
