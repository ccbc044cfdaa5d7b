/** Login runs built from blocks: bursts of sections, a table filled up by other clients, an arrival that needs room. */
module LoginBlocks {
  import opened Prelude
  import opened Stamps
  import opened RateLimiter
  import opened LimiterRuns
  import opened LimiterScenarios
  import opened BucketKeys
  import opened LoginThrottle

  // ---------------------------------------------------------------- ordinary runs

  predicate OthersAtLeast(es: seq<Event>, shortest: int) {
    forall i | 0 <= i < |es| && es[i].Other? :: es[i].window >= shortest
  }

  /** A run that follows the protocol on a clock that never runs backwards and forgets nothing. */
  predicate Ordinary(maxKeys: int, s: Settings, es: seq<Event>, shortest: int) {
    && WellFormed(es) && Protocol(maxKeys, s, es) && OthersAtLeast(es, shortest)
    && NonDecreasing(Requests(s, es)) && NoForgets(maxKeys, Requests(s, es))
  }

  lemma OrdinaryIsLoginRun(maxKeys: int, s: Settings, es: seq<Event>, shortest: int)
    requires Ordinary(maxKeys, s, es, shortest) && shortest >= s.window
    ensures LoginRun(maxKeys, s, es, 0.0)
  {
    hide Protocol, WellFormed, NoForgets, PairKey, AccountKey, BucketKey, KeysOf;
    NoShorterSection(s, es, shortest);
  }

  lemma NoShorterSection(s: Settings, es: seq<Event>, shortest: int)
    requires OthersAtLeast(es, shortest) && shortest >= s.window
    ensures NoShorterWindow(Requests(s, es), s.window)
  {
    hide PairKey, AccountKey, BucketKey, Newcomer;
  }

  // ---------------------------------------------------------------- the blocks

  const EMAIL := "e"
  /** No key of the runs below is longer, apart from the fillers'. */
  const BASE: nat := 20

  function Pair(ip: string): string {
    PairKey(ip, EMAIL)
  }

  function Account(): string {
    AccountKey(EMAIL)
  }

  /** The global key of a client whose address is not known. */
  function Newcomer(): string {
    BucketKey("global", "unknown")
  }

  function Starts(ip: string, n: nat, now: real): seq<Event> {
    Repeat(Start(ip, EMAIL, now), n)
  }

  function Finishes(first: nat, n: nat, now: real): seq<Event> {
    seq(n, i requires 0 <= i < n => Finish(first + i, EMAIL, now))
  }

  /** One request each from clients with ever longer names. */
  function Fillers(n: nat, window: int, now: real): seq<Event> {
    seq(n, i requires 0 <= i < n => Other("global", Repeat('x', BASE + i), 1, window, now))
  }

  /** The arrival on another scope for which the full table has to make room. */
  function Arrival(window: int, now: real): Event {
    Other("global", "unknown", 1, window, now)
  }

  /** It comes one of its own windows after time zero. */
  function Sweeper(window: int): Event {
    Arrival(window, window as real)
  }

  lemma Keys(a: string, b: string)
    requires '|' !in a && '|' !in b
    ensures Pair(a) == Pair(b) <==> a == b
    ensures Pair(a) != Account() && Pair(a) != Newcomer() && Account() != Newcomer()
    ensures |Pair(a)| == 8 + |a| && |Account()| <= BASE && |Newcomer()| <= BASE
  {
    PairKeyInjective(a, EMAIL, b, EMAIL);
    TiersDistinct(a, EMAIL, EMAIL);
    BucketKeyInjective("login", PairSubject(a, EMAIL), "global", "unknown");
  }

  lemma StartRequests(s: Settings, ip: string, n: nat, now: real)
    ensures Requests(s, Starts(ip, n, now)) == Repeat(Hit(Pair(ip), s.loginLimit, s.window, now), n)
  {
  }

  lemma FinishRequests(s: Settings, first: nat, n: nat, now: real)
    ensures Requests(s, Finishes(first, n, now)) == Repeat(Hit(Account(), s.loginLimit * 4, s.window, now), n)
  {
  }

  lemma FillerRequests(s: Settings, n: nat, window: int, now: real)
    ensures Requests(s, Fillers(n, window, now)) == Fill(BASE, n, Constant(window), now)
  {
    assert forall i | 0 <= i < n :: BucketKey("global", Repeat('x', BASE + i)) == Pad(BASE, i);
  }

  /** The table and the record of a key after some events. */
  function TableOf(maxKeys: int, s: Settings, es: seq<Event>): Table {
    Run(maxKeys, Requests(s, es))
  }

  function RecordOf(maxKeys: int, s: Settings, es: seq<Event>, key: string): seq<real> {
    Log(maxKeys, Requests(s, es), key)
  }

  predicate SmoothRun(maxKeys: int, s: Settings, es: seq<Event>) {
    Smooth(maxKeys, Requests(s, es))
  }

  /** The events `more` put the readings ts into the deque of the key and into its record. */
  ghost predicate Adds(maxKeys: int, s: Settings, es: seq<Event>, es': seq<Event>, key: string, bucket: seq<real>,
                       ts: seq<real>) {
    && TableOf(maxKeys, s, es') == TableOf(maxKeys, s, es)[key := bucket]
    && RecordOf(maxKeys, s, es', key) == RecordOf(maxKeys, s, es, key) + ts
    && (SmoothRun(maxKeys, s, es) ==> SmoothRun(maxKeys, s, es'))
    && forall k | k != key :: RecordOf(maxKeys, s, es', k) == RecordOf(maxKeys, s, es, k)
  }

  /** A burst of first sections on a pair whose deque is absent or out of date. */
  lemma StartsAdd(maxKeys: int, s: Settings, es: seq<Event>, ip: string, n: nat, now: real)
    requires s.window >= 1 && 1 <= n <= s.loginLimit
    requires Pair(ip) in TableOf(maxKeys, s, es) || |TableOf(maxKeys, s, es)| < maxKeys
    requires Prune(BucketOf(TableOf(maxKeys, s, es), Pair(ip)), Cutoff(now, s.window)) == []
    ensures Adds(maxKeys, s, es, es + Starts(ip, n, now), Pair(ip), Repeat(now, n), Repeat(now, n))
  {
    hide Run, Log, Smooth, Prune, Repeat, Starts, Pair;
    StartRequests(s, ip, n, now);
    RequestsAppend(s, es, Starts(ip, n, now));
    hide Requests;
    Refill(maxKeys, Requests(s, es), Hit(Pair(ip), s.loginLimit, s.window, now), n);
  }

  /** A burst of second sections on an account whose deque is absent or has room. */
  lemma FinishesAdd(maxKeys: int, s: Settings, es: seq<Event>, first: nat, n: nat, now: real, bucket: seq<real>)
    requires s.window >= 1 && n >= 1 && |bucket| + n <= s.loginLimit * 4
    requires bucket == BucketOf(TableOf(maxKeys, s, es), Account())
    requires Account() in TableOf(maxKeys, s, es) || |TableOf(maxKeys, s, es)| < maxKeys
    requires bucket == [] || bucket[0] > Cutoff(now, s.window)
    ensures Adds(maxKeys, s, es, es + Finishes(first, n, now), Account(), bucket + Repeat(now, n), Repeat(now, n))
  {
    hide Run, Log, Smooth, Repeat, Finishes, Account;
    FinishRequests(s, first, n, now);
    RequestsAppend(s, es, Finishes(first, n, now));
    hide Requests;
    Burst(maxKeys, Requests(s, es), Hit(Account(), s.loginLimit * 4, s.window, now), n);
  }

  lemma FillersAdd(maxKeys: int, s: Settings, es: seq<Event>, n: nat, window: int, now: real)
    requires |TableOf(maxKeys, s, es)| + n <= maxKeys && forall k | k in TableOf(maxKeys, s, es) :: |k| <= BASE
    ensures Padded(TableOf(maxKeys, s, es), TableOf(maxKeys, s, es + Fillers(n, window, now)), BASE, n, now)
    ensures SmoothRun(maxKeys, s, es) ==> SmoothRun(maxKeys, s, es + Fillers(n, window, now))
    ensures forall k | |k| <= BASE ::
              RecordOf(maxKeys, s, es + Fillers(n, window, now), k) == RecordOf(maxKeys, s, es, k)
  {
    hide Run, Log, Smooth, Fill, Fillers, Padded;
    FillerRequests(s, n, window, now);
    RequestsAppend(s, es, Fillers(n, window, now));
    hide Requests;
    Filled(maxKeys, Requests(s, es), BASE, n, Constant(window), now);
  }

  /** The sweeper finds the table full and leaves the keys with an entry after time zero. */
  lemma SweeperLeaves(maxKeys: int, s: Settings, es: seq<Event>, window: int, kept: Table)
    requires |TableOf(maxKeys, s, es)| >= maxKeys && Newcomer() !in TableOf(maxKeys, s, es)
    requires DropIdle(TableOf(maxKeys, s, es), 0.0) == kept && |kept| < maxKeys
    ensures TableOf(maxKeys, s, es + [Sweeper(window)]) == kept[Newcomer() := [window as real]]
    ensures SmoothRun(maxKeys, s, es) ==> SmoothRun(maxKeys, s, es + [Sweeper(window)])
    ensures forall k | k != Newcomer() ::
              RecordOf(maxKeys, s, es + [Sweeper(window)], k) == RecordOf(maxKeys, s, es, k)
  {
    var r := Hit(Newcomer(), 1, window, window as real);
    assert Requests(s, [Sweeper(window)]) == [r];
    RequestsAppend(s, es, [Sweeper(window)]);
    hide Run, Log, Smooth, DropIdle, BucketKey, Requests, Sweeper;
    SweepsTo(maxKeys, Requests(s, es), r, kept);
  }

  // ---------------------------------------------------------------- the form of such runs

  /** Every second section has its own earlier first section for the same account. */
  predicate Paired(es: seq<Event>) {
    && (forall j | 0 <= j < |es| && es[j].Finish? ::
          es[j].login < j && es[es[j].login].Start? && es[es[j].login].email == es[j].email)
    && (forall j, k | 0 <= j < k < |es| && es[j].Finish? && es[k].Finish? :: es[j].login != es[k].login)
  }

  predicate FinishedBelow(es: seq<Event>, n: nat) {
    forall j | 0 <= j < |es| && es[j].Finish? :: es[j].login < n
  }

  predicate Ordered(es: seq<Event>, t: real) {
    && (forall i, j | 0 <= i < j < |es| :: es[i].now <= es[j].now)
    && (forall i | 0 <= i < |es| :: es[i].now <= t)
  }

  predicate From(es: seq<Event>, ips: set<string>) {
    forall i | 0 <= i < |es| && es[i].Start? :: es[i].ip in ips
  }

  predicate Shape(es: seq<Event>, ips: set<string>, shortest: int, delay: real, t: real) {
    && WellFormed(es) && OthersAtLeast(es, shortest) && From(es, ips)
    && Ordered(es, t) && Paired(es) && Prompt(es, delay)
  }

  /** First sections and other requests may be appended freely. */
  lemma ShapeMore(es: seq<Event>, more: seq<Event>, ips: set<string>, shortest: int, delay: real, t: real, now: real)
    requires Shape(es, ips, shortest, delay, t) && t <= now
    requires WellFormed(more) && OthersAtLeast(more, shortest) && From(more, ips)
    requires forall i | 0 <= i < |more| :: !more[i].Finish? && more[i].now == now
    ensures Shape(es + more, ips, shortest, delay, now)
    ensures forall n | FinishedBelow(es, n) :: FinishedBelow(es + more, n)
  {
  }

  lemma ShapeFinishes(es: seq<Event>, first: nat, n: nat, ips: set<string>, shortest: int, delay: real, t: real,
                      now: real)
    requires Shape(es, ips, shortest, delay, t) && t <= now
    requires FinishedBelow(es, first) && first + n <= |es|
    requires forall i | first <= i < first + n :: es[i].Start? && es[i].email == EMAIL && now <= es[i].now + delay
    ensures Shape(es + Finishes(first, n, now), ips, shortest, delay, now)
    ensures FinishedBelow(es + Finishes(first, n, now), first + n)
  {
    PairedFinishes(es, first, n, now);
    PromptFinishes(es, first, n, now, delay);
    hide Paired, Prompt, FinishedBelow;
  }

  lemma PairedFinishes(es: seq<Event>, first: nat, n: nat, now: real)
    requires Paired(es) && FinishedBelow(es, first) && first + n <= |es|
    requires forall i | first <= i < first + n :: es[i].Start? && es[i].email == EMAIL
    ensures Paired(es + Finishes(first, n, now)) && FinishedBelow(es + Finishes(first, n, now), first + n)
  {
    var all := es + Finishes(first, n, now);
    assert forall j | 0 <= j < |es| :: all[j] == es[j];
    assert forall j | |es| <= j < |all| :: all[j] == Finish(first + (j - |es|), EMAIL, now);
  }

  lemma PromptFinishes(es: seq<Event>, first: nat, n: nat, now: real, delay: real)
    requires Paired(es) && Prompt(es, delay) && first + n <= |es|
    requires forall i | first <= i < first + n :: es[i].Start? && now <= es[i].now + delay
    ensures Prompt(es + Finishes(first, n, now), delay)
  {
    var all := es + Finishes(first, n, now);
    assert forall j | 0 <= j < |es| :: all[j] == es[j];
    assert forall j | |es| <= j < |all| :: all[j] == Finish(first + (j - |es|), EMAIL, now);
  }

  lemma SmoothShapeIsOrdinary(maxKeys: int, s: Settings, es: seq<Event>, ips: set<string>, shortest: int, delay: real,
                              t: real)
    requires SmoothRun(maxKeys, s, es) && Shape(es, ips, shortest, delay, t)
    ensures Ordinary(maxKeys, s, es, shortest)
    ensures forall i: nat | i < |es| :: Passed(maxKeys, s, es, i)
  {
    SmoothPasses(maxKeys, s, es);
    SmoothForgetsNothing(maxKeys, Requests(s, es));
    hide Passed, Smooth, NoForgets, PairKey, AccountKey, BucketKey, Newcomer;
    assert NonDecreasing(Requests(s, es));
    assert forall j | 0 <= j < |es| && es[j].Finish? :: Begun(maxKeys, s, es, j);
  }

  lemma ShapeInOrder(s: Settings, es: seq<Event>, ips: set<string>, shortest: int, delay: real, t: real)
    requires Shape(es, ips, shortest, delay, t)
    ensures NonDecreasing(Requests(s, es)) && Prompt(es, delay) && WellFormed(es)
  {
    hide PairKey, AccountKey, BucketKey;
  }

  lemma SmoothPasses(maxKeys: int, s: Settings, es: seq<Event>)
    requires SmoothRun(maxKeys, s, es)
    ensures forall i: nat | i < |es| :: Passed(maxKeys, s, es, i)
  {
    forall i: nat | i < |es| ensures Passed(maxKeys, s, es, i) {
      SmoothAdmits(maxKeys, Requests(s, es), i);
    }
  }

  lemma ShapeStarts(es: seq<Event>, ip: string, n: nat, ips: set<string>, shortest: int, delay: real, t: real,
                    now: real)
    requires Shape(es, ips, shortest, delay, t) && t <= now && ip in ips && '|' !in ip
    ensures Shape(es + Starts(ip, n, now), ips, shortest, delay, now)
    ensures forall m | FinishedBelow(es, m) :: FinishedBelow(es + Starts(ip, n, now), m)
  {
    ShapeMore(es, Starts(ip, n, now), ips, shortest, delay, t, now);
  }

  lemma EmptyShape(ips: set<string>, shortest: int, delay: real, t: real)
    ensures Shape([], ips, shortest, delay, t) && FinishedBelow([], 0)
  {
  }

  lemma FinishedBelowMore(es: seq<Event>, n: nat, m: nat)
    requires FinishedBelow(es, n) && n <= m
    ensures FinishedBelow(es, m)
  {
  }

  /** One login without delay. */
  lemma ShapeLogin(es: seq<Event>, ip: string, ips: set<string>, shortest: int, delay: real, t: real, now: real)
    requires Shape(es, ips, shortest, delay, t) && FinishedBelow(es, |es|) && t <= now && delay >= 0.0
    requires ip in ips && '|' !in ip
    ensures var es' := es + Starts(ip, 1, now) + Finishes(|es|, 1, now);
            Shape(es', ips, shortest, delay, now) && FinishedBelow(es', |es'|)
  {
    var started := es + Starts(ip, 1, now);
    assert started[|es|] == Start(ip, EMAIL, now) && |started| == |es| + 1;
    hide Shape, Starts, Finishes;
    ShapeStarts(es, ip, 1, ips, shortest, delay, t, now);
    assert FinishedBelow(started, |es|);
    hide FinishedBelow;
    ShapeFinishes(started, |es|, 1, ips, shortest, delay, now, now);
    FinishedBelowMore(started + Finishes(|es|, 1, now), |es| + 1, |started + Finishes(|es|, 1, now)|);
  }

  lemma ShapeFillers(es: seq<Event>, fill: nat, window: int, ips: set<string>, delay: real, t: real, now: real)
    requires Shape(es, ips, window, delay, t) && t <= now
    ensures Shape(es + Fillers(fill, window, now), ips, window, delay, now)
    ensures forall n | FinishedBelow(es, n) :: FinishedBelow(es + Fillers(fill, window, now), n)
  {
    ShapeMore(es, Fillers(fill, window, now), ips, window, delay, t, now);
  }

  lemma ShapeArrival(es: seq<Event>, ips: set<string>, shortest: int, window: int, delay: real, t: real, now: real)
    requires Shape(es, ips, shortest, delay, t) && t <= now && shortest <= window
    ensures Shape(es + [Arrival(window, now)], ips, shortest, delay, now)
    ensures forall n | FinishedBelow(es, n) :: FinishedBelow(es + [Arrival(window, now)], n)
  {
    ShapeMore(es, [Arrival(window, now)], ips, shortest, delay, t, now);
  }

  // ---------------------------------------------------------------- addresses that use up their budgets

  /** A table of known keys whose newest entries lie between the oldest one and time zero. */
  ghost predicate Settled(h: Table, keys: set<string>, n: nat, oldest: real) {
    && h.Keys == keys && |h| == n
    && forall k | k in h :: h[k] != [] && oldest <= h[k][|h[k]| - 1] <= 0.0
  }

  lemma SettledGrows(h: Table, keys: set<string>, n: nat, oldest: real, key: string, m: nat)
    requires Settled(h, keys, n, oldest) && key !in keys && m >= 1 && oldest <= 0.0
    ensures Settled(h[key := Repeat(0.0, m)], keys + {key}, n + 1, oldest)
  {
    RepeatLength(0.0, m);
    hide Repeat;
    assert h[key := Repeat(0.0, m)].Keys == h.Keys + {key};
  }

  /** What an address or the account adds to the run: its key, and its readings in the record. */
  ghost predicate Joins(maxKeys: int, s: Settings, es: seq<Event>, es': seq<Event>, key: string, m: nat,
                        keys: set<string>, n: nat, oldest: real) {
    && Settled(TableOf(maxKeys, s, es'), keys + {key}, n + 1, oldest)
    && TableOf(maxKeys, s, es')[key] == Repeat(0.0, m)
    && (SmoothRun(maxKeys, s, es) ==> SmoothRun(maxKeys, s, es'))
    && RecordOf(maxKeys, s, es', key) == RecordOf(maxKeys, s, es, key) + Repeat(0.0, m)
    && forall k | k != key :: RecordOf(maxKeys, s, es', k) == RecordOf(maxKeys, s, es, k)
  }

  lemma NewAddress(maxKeys: int, s: Settings, es: seq<Event>, ip: string, m: nat, keys: set<string>, n: nat,
                   oldest: real)
    requires 1 <= m <= s.loginLimit && s.window >= 1 && n < maxKeys && oldest <= 0.0
    requires Settled(TableOf(maxKeys, s, es), keys, n, oldest) && Pair(ip) !in keys
    ensures Joins(maxKeys, s, es, es + Starts(ip, m, 0.0), Pair(ip), m, keys, n, oldest)
  {
    hide TableOf, RecordOf, SmoothRun, Pair, Starts, Repeat;
    var h := TableOf(maxKeys, s, es);
    StartsAdd(maxKeys, s, es, ip, m, 0.0);
    SettledGrows(h, keys, n, oldest, Pair(ip), m);
  }

  lemma NewAccount(maxKeys: int, s: Settings, es: seq<Event>, first: nat, m: nat, keys: set<string>, n: nat,
                   oldest: real)
    requires 1 <= m <= s.loginLimit * 4 && s.window >= 1 && n < maxKeys && oldest <= 0.0
    requires Settled(TableOf(maxKeys, s, es), keys, n, oldest) && Account() !in keys
    ensures Joins(maxKeys, s, es, es + Finishes(first, m, 0.0), Account(), m, keys, n, oldest)
  {
    hide TableOf, RecordOf, SmoothRun, Account, Finishes, Repeat;
    var h := TableOf(maxKeys, s, es);
    FinishesAdd(maxKeys, s, es, first, m, 0.0, []);
    assert [] + Repeat(0.0, m) == Repeat(0.0, m);
    SettledGrows(h, keys, n, oldest, Account(), m);
  }

  function FourJoin(es: seq<Event>, n: nat): seq<Event> {
    es + Starts("1", n, 0.0) + Starts("2", n, 0.0) + Starts("3", n, 0.0) + Starts("4", n, 0.0)
  }

  /** Four addresses each use up their budget, and with that the account's. */
  function Crowded(es: seq<Event>, n: nat): seq<Event> {
    FourJoin(es, n) + Finishes(|es|, 4 * n, 0.0)
  }

  function CrowdKeys(): set<string> {
    {Pair("1"), Pair("2"), Pair("3"), Pair("4"), Account()}
  }

  lemma FourKeys()
    ensures Pair("1") != Pair("2") && Pair("1") != Pair("3") && Pair("1") != Pair("4")
    ensures Pair("2") != Pair("3") && Pair("2") != Pair("4") && Pair("3") != Pair("4")
    ensures forall k | k in CrowdKeys() :: |k| <= BASE && k != Newcomer() && (k == Account() || |k| == 9)
    ensures Account() !in {Pair("1"), Pair("2"), Pair("3"), Pair("4")} && |Newcomer()| <= BASE
  {
    Keys("1", "2");
    Keys("1", "3");
    Keys("1", "4");
    Keys("2", "3");
    Keys("2", "4");
    Keys("3", "4");
    Keys("4", "4");
  }

  /** The state of the run while further addresses join. */
  ghost predicate Joining(maxKeys: int, s: Settings, es: seq<Event>, es': seq<Event>, keys: set<string>, n: nat,
                          oldest: real)
    requires s.loginLimit >= 0
  {
    && Settled(TableOf(maxKeys, s, es'), keys, n, oldest) && SmoothRun(maxKeys, s, es')
    && RecordOf(maxKeys, s, es', Pair("1")) == RecordOf(maxKeys, s, es, Pair("1")) + Repeat(0.0, s.loginLimit)
    && RecordOf(maxKeys, s, es', Account()) == RecordOf(maxKeys, s, es, Account())
  }

  lemma FirstJoins(maxKeys: int, s: Settings, es: seq<Event>, keys: set<string>, n: nat, oldest: real)
    requires n < maxKeys && s.loginLimit >= 1 && s.window >= 1 && oldest <= 0.0 && SmoothRun(maxKeys, s, es)
    requires Settled(TableOf(maxKeys, s, es), keys, n, oldest) && Pair("1") !in keys
    ensures Joining(maxKeys, s, es, es + Starts("1", s.loginLimit, 0.0), keys + {Pair("1")}, n + 1, oldest)
  {
    Keys("1", "1");
    hide TableOf, RecordOf, SmoothRun, Pair, Account, Starts, Settled, Repeat;
    NewAddress(maxKeys, s, es, "1", s.loginLimit, keys, n, oldest);
  }

  lemma NextJoins(maxKeys: int, s: Settings, es: seq<Event>, es': seq<Event>, ip: string, keys: set<string>, n: nat,
                  oldest: real)
    requires n < maxKeys && s.loginLimit >= 1 && s.window >= 1 && oldest <= 0.0
    requires Joining(maxKeys, s, es, es', keys, n, oldest)
    requires Pair(ip) !in keys && Pair(ip) != Pair("1") && Pair(ip) != Account()
    ensures Joining(maxKeys, s, es, es' + Starts(ip, s.loginLimit, 0.0), keys + {Pair(ip)}, n + 1, oldest)
  {
    hide TableOf, RecordOf, SmoothRun, Pair, Account, Starts, Settled, Repeat;
    NewAddress(maxKeys, s, es', ip, s.loginLimit, keys, n, oldest);
  }

  function Pairs(keys: set<string>): set<string> {
    keys + {Pair("1")} + {Pair("2")} + {Pair("3")} + {Pair("4")}
  }

  lemma CrowdIsNew(keys: set<string>)
    requires keys !! CrowdKeys()
    ensures Pair("1") !in keys && Pair("2") !in keys + {Pair("1")} && Pair("3") !in keys + {Pair("1")} + {Pair("2")}
    ensures Pair("4") !in keys + {Pair("1")} + {Pair("2")} + {Pair("3")}
    ensures Account() !in Pairs(keys) && Pairs(keys) + {Account()} == keys + CrowdKeys()
    ensures Pair("2") != Pair("1") && Pair("3") != Pair("1") && Pair("4") != Pair("1")
    ensures Pair("2") != Account() && Pair("3") != Account() && Pair("4") != Account() && Pair("1") != Account()
  {
    FourKeys();
    hide Pair, Account;
    assert forall k | k in CrowdKeys() :: k !in keys;
    assert Pair("1") in CrowdKeys() && Pair("2") in CrowdKeys() && Pair("3") in CrowdKeys() && Pair("4") in CrowdKeys();
    assert Account() in CrowdKeys();
  }

  lemma FourJoinTable(maxKeys: int, s: Settings, es: seq<Event>, keys: set<string>, n: nat, oldest: real)
    requires n + 4 <= maxKeys && s.loginLimit >= 1 && s.window >= 1 && oldest <= 0.0 && SmoothRun(maxKeys, s, es)
    requires Settled(TableOf(maxKeys, s, es), keys, n, oldest) && keys !! CrowdKeys()
    ensures Joining(maxKeys, s, es, FourJoin(es, s.loginLimit), Pairs(keys), n + 4, oldest)
  {
    hide *;
    var m := s.loginLimit;
    var es1 := es + Starts("1", m, 0.0);
    var es2 := es1 + Starts("2", m, 0.0);
    var keys1 := keys + {Pair("1")};
    var keys2 := keys1 + {Pair("2")};
    CrowdIsNew(keys);
    FourJoinIs(es, m, keys);
    FirstJoins(maxKeys, s, es, keys, n, oldest);
    NextJoins(maxKeys, s, es, es1, "2", keys1, n + 1, oldest);
    NextJoins(maxKeys, s, es, es2, "3", keys2, n + 2, oldest);
    NextJoins(maxKeys, s, es, es2 + Starts("3", m, 0.0), "4", keys2 + {Pair("3")}, n + 3, oldest);
  }

  lemma FourJoinIs(es: seq<Event>, n: nat, keys: set<string>)
    ensures FourJoin(es, n)
            == es + Starts("1", n, 0.0) + Starts("2", n, 0.0) + Starts("3", n, 0.0) + Starts("4", n, 0.0)
    ensures Pairs(keys) == keys + {Pair("1")} + {Pair("2")} + {Pair("3")} + {Pair("4")}
  {
  }

  lemma CrowdedTable(maxKeys: int, s: Settings, es: seq<Event>, keys: set<string>, n: nat, oldest: real)
    requires n + 5 <= maxKeys && s.loginLimit >= 1 && s.window >= 1 && oldest <= 0.0 && SmoothRun(maxKeys, s, es)
    requires Settled(TableOf(maxKeys, s, es), keys, n, oldest) && keys !! CrowdKeys()
    ensures var m, es' := s.loginLimit, Crowded(es, s.loginLimit);
            && Settled(TableOf(maxKeys, s, es'), keys + CrowdKeys(), n + 5, oldest) && SmoothRun(maxKeys, s, es')
            && RecordOf(maxKeys, s, es', Pair("1")) == RecordOf(maxKeys, s, es, Pair("1")) + Repeat(0.0, m)
            && RecordOf(maxKeys, s, es', Account()) == RecordOf(maxKeys, s, es, Account()) + Repeat(0.0, 4 * m)
            && Account() in TableOf(maxKeys, s, es') && TableOf(maxKeys, s, es')[Account()] == Repeat(0.0, 4 * m)
  {
    CrowdIsNew(keys);
    hide RecordOf, SmoothRun, Pair, Account, FourJoin, Finishes, Repeat, CrowdKeys, TableOf, Pairs;
    FourJoinTable(maxKeys, s, es, keys, n, oldest);
    NewAccount(maxKeys, s, FourJoin(es, s.loginLimit), |es|, 4 * s.loginLimit, Pairs(keys), n + 4, oldest);
  }

  lemma EmptyRun(maxKeys: int, s: Settings)
    ensures TableOf(maxKeys, s, []) == map[] && Settled(TableOf(maxKeys, s, []), {}, 0, 0.0)
    ensures SmoothRun(maxKeys, s, [])
    ensures forall k :: RecordOf(maxKeys, s, [], k) == []
  {
  }

  lemma FourJoinEvents(es: seq<Event>, n: nat)
    ensures |FourJoin(es, n)| == |es| + 4 * n
    ensures forall i | 0 <= i < |es| :: FourJoin(es, n)[i] == es[i]
    ensures forall i | |es| <= i < |es| + 4 * n ::
              FourJoin(es, n)[i] in {Start("1", EMAIL, 0.0), Start("2", EMAIL, 0.0),
                                     Start("3", EMAIL, 0.0), Start("4", EMAIL, 0.0)}
  {
    hide Repeat;
    RepeatLength(Start("1", EMAIL, 0.0), n);
    RepeatLength(Start("2", EMAIL, 0.0), n);
    RepeatLength(Start("3", EMAIL, 0.0), n);
    RepeatLength(Start("4", EMAIL, 0.0), n);
  }

  lemma FourJoinShape(es: seq<Event>, n: nat, ips: set<string>, shortest: int, delay: real, t: real)
    requires Shape(es, ips, shortest, delay, t) && t <= 0.0 && FinishedBelow(es, |es|) && {"1", "2", "3", "4"} <= ips
    ensures Shape(FourJoin(es, n), ips, shortest, delay, 0.0) && FinishedBelow(FourJoin(es, n), |es|)
  {
    var es1 := es + Starts("1", n, 0.0);
    var es2 := es1 + Starts("2", n, 0.0);
    var es3 := es2 + Starts("3", n, 0.0);
    hide Shape, Starts, FinishedBelow;
    ShapeStarts(es, "1", n, ips, shortest, delay, t, 0.0);
    assert FinishedBelow(es1, |es|);
    ShapeStarts(es1, "2", n, ips, shortest, delay, 0.0, 0.0);
    assert FinishedBelow(es2, |es|);
    ShapeStarts(es2, "3", n, ips, shortest, delay, 0.0, 0.0);
    assert FinishedBelow(es3, |es|);
    ShapeStarts(es3, "4", n, ips, shortest, delay, 0.0, 0.0);
  }

  lemma CrowdedShape(es: seq<Event>, n: nat, ips: set<string>, shortest: int, delay: real, t: real)
    requires Shape(es, ips, shortest, delay, t) && t <= 0.0 && FinishedBelow(es, |es|) && {"1", "2", "3", "4"} <= ips
    requires delay >= 0.0
    ensures Shape(Crowded(es, n), ips, shortest, delay, 0.0) && FinishedBelow(Crowded(es, n), |es| + 4 * n)
  {
    FourJoinShape(es, n, ips, shortest, delay, t);
    FourJoinEvents(es, n);
    hide Shape, FinishedBelow, FourJoin, Finishes;
    ShapeFinishes(FourJoin(es, n), |es|, 4 * n, ips, shortest, delay, 0.0, 0.0);
  }

  lemma CrowdedEvents(es: seq<Event>, n: nat)
    ensures |Crowded(es, n)| == |es| + 8 * n
    ensures forall i | 0 <= i < |es| :: Crowded(es, n)[i] == es[i]
    ensures forall i | |es| <= i < |es| + 4 * n ::
              Crowded(es, n)[i] in {Start("1", EMAIL, 0.0), Start("2", EMAIL, 0.0),
                                    Start("3", EMAIL, 0.0), Start("4", EMAIL, 0.0)}
    ensures forall i | |es| + 4 * n <= i < |es| + 8 * n :: Crowded(es, n)[i] == Finish(i - 4 * n, EMAIL, 0.0)
  {
    FourJoinEvents(es, n);
    hide FourJoin;
  }

  /** Every login of the run reaches its second section. */
  ghost predicate AllFinish(es: seq<Event>) {
    forall i: nat | i < |es| && es[i].Start? :: exists j: nat :: j < |es| && es[j].Finish? && es[j].login == i
  }
}
