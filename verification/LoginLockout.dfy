/** Exactly how many other addresses it takes to lock an account, for every delay between a login's two sections. */
module LoginLockout {
  import opened Prelude
  import opened Stamps
  import opened RateLimiter
  import opened LimiterRuns
  import opened LimiterMemory
  import opened LimiterScenarios
  import opened LimiterSkew
  import opened BucketKeys
  import opened LoginThrottle
  import opened LoginBlocks
  import opened LoginBudgets

  /** The second section e of a login is refused, and every login takes at most the delay to reach its own. */
  predicate RefusedAfter(maxKeys: int, s: Settings, es: seq<Event>, e: Event, shortest: int, delay: real) {
    && e.Finish? && WellFormed(es + [e]) && Protocol(maxKeys, s, es + [e]) && OthersAtLeast(es, shortest)
    && NonDecreasing(Requests(s, es + [e])) && NoForgets(maxKeys, Requests(s, es)) && Prompt(es + [e], delay)
    && Answer(maxKeys, Requests(s, es), Section(s, e)).Refused?
  }

  ghost predicate HasOthers(maxKeys: int, s: Settings, es: seq<Event>, e: Event, n: nat) {
    && e.Finish? && e.login < |es| && es[e.login].Start?
    && |OtherIps(maxKeys, s, es, e.email, Cutoff(e.now, s.window), es[e.login].ip)| >= n
  }

  /** Whenever an account refuses, passwords were checked inside the window from at least n other addresses. */
  ghost predicate RefusalNeedsOthers(maxKeys: int, s: Settings, shortest: int, delay: real, n: nat) {
    forall es, e | RefusedAfter(maxKeys, s, es, e, shortest, delay) :: HasOthers(maxKeys, s, es, e, n)
  }

  // ---------------------------------------------------------------- account refusals with few addresses

  /** A refused second section shows that fewer others suffice than the addresses of the run. */
  lemma RefusalSeen(maxKeys: int, s: Settings, es: seq<Event>, ips: set<string>, first: nat, now: real,
                    shortest: int, delay: real, t: real)
    requires SmoothRun(maxKeys, s, es) && Shape(es, ips, shortest, delay, t) && t <= now
    requires FinishedBelow(es, first) && first < |es| && es[first].Start? && es[first].email == EMAIL
    requires now <= es[first].now + delay
    requires Answer(maxKeys, Requests(s, es), Section(s, Finish(first, EMAIL, now))).Refused?
    ensures !RefusalNeedsOthers(maxKeys, s, shortest, delay, |ips|)
  {
    var e := Finish(first, EMAIL, now);
    assert es + Finishes(first, 1, now) == es + [e];
    ShapeFinishes(es, first, 1, ips, shortest, delay, t, now);
    SmoothShapeIsOrdinary(maxKeys, s, es, ips, shortest, delay, t);
    ProtocolAppend(maxKeys, s, es, e);
    FewOthers(maxKeys, s, es, e, ips);
    ShapeInOrder(s, es + [e], ips, shortest, delay, now);
    hide Protocol, Section, Answer, Paired, Ordered, NonDecreasing, NoForgets, HasOthers, Prompt, Passed;
    assert RefusedAfter(maxKeys, s, es, e, shortest, delay);
  }

  lemma SeenFromThree(maxKeys: int, s: Settings, es: seq<Event>, first: nat, now: real, shortest: int, delay: real)
    requires SmoothRun(maxKeys, s, es) && Shape(es, {"1", "2", "3"}, shortest, delay, now) && delay >= 0.0
    requires FinishedBelow(es, first) && first < |es|
    requires es[first].Start? && es[first].email == EMAIL && es[first].now == now
    requires Answer(maxKeys, Requests(s, es), Section(s, Finish(first, EMAIL, now))).Refused?
    ensures !RefusalNeedsOthers(maxKeys, s, shortest, delay, 3)
  {
    hide *;
    ThreeAddresses();
    RefusalSeen(maxKeys, s, es, {"1", "2", "3"}, first, now, shortest, delay, now);
  }

  lemma ThreeAddresses()
    ensures |{"1", "2", "3"}| == 3
  {
    assert "1"[0] != "2"[0] && "1"[0] != "3"[0] && "2"[0] != "3"[0];
  }

  lemma FewOthers(maxKeys: int, s: Settings, es: seq<Event>, e: Event, ips: set<string>)
    requires e.Finish? && e.login < |es| && es[e.login].Start? && From(es, ips)
    ensures !HasOthers(maxKeys, s, es, e, |ips|)
  {
    hide CheckedAfter;
    var own := es[e.login].ip;
    var others := OtherIps(maxKeys, s, es, e.email, Cutoff(e.now, s.window), own);
    assert own in ips && own !in others;
    assert others <= ips - {own};
    SubsetBound(others, ips - {own});
  }

  /** A full account deque whose front still counts refuses. */
  lemma AccountRefuses(maxKeys: int, s: Settings, es: seq<Event>, first: nat, now: real, bucket: seq<real>)
    requires s.loginLimit >= 1 && s.window >= 1
    requires Account() in TableOf(maxKeys, s, es) && TableOf(maxKeys, s, es)[Account()] == bucket
    requires |bucket| == s.loginLimit * 4 && bucket[0] > Cutoff(now, s.window)
    ensures Answer(maxKeys, Requests(s, es), Section(s, Finish(first, EMAIL, now))).Refused?
  {
    assert Section(s, Finish(first, EMAIL, now)) == Hit(Account(), s.loginLimit * 4, s.window, now);
    hide Run, Account, Requests, Section;
  }

  /** Two addresses use up their budgets at time zero; the second sections come at the given time. */
  function TwoLogins(n: nat, t: real): seq<Event> {
    Starts("1", n, 0.0) + Starts("2", n, 0.0) + Finishes(0, 2 * n, t)
  }

  lemma TwoStartsTable(maxKeys: int, s: Settings)
    requires maxKeys >= 2 && s.loginLimit >= 1 && s.window >= 1
    ensures var n, es := s.loginLimit, Starts("1", s.loginLimit, 0.0) + Starts("2", s.loginLimit, 0.0);
            && TableOf(maxKeys, s, es) == map[Pair("1") := Repeat(0.0, n), Pair("2") := Repeat(0.0, n)]
            && SmoothRun(maxKeys, s, es) && Pair("1") != Pair("2")
  {
    var n := s.loginLimit;
    var none: seq<Event> := [];
    var es1 := Starts("1", n, 0.0);
    EmptyRun(maxKeys, s);
    Keys("1", "2");
    assert TableOf(maxKeys, s, none) == map[];
    assert none + es1 == es1;
    assert Prune([], Cutoff(0.0, s.window)) == [];
    hide TableOf, RecordOf, SmoothRun, Pair, Account, Starts, Repeat, Prune, BucketKey, Newcomer;
    StartsAdd(maxKeys, s, none, "1", n, 0.0);
    assert map[][Pair("1") := Repeat(0.0, n)] == map[Pair("1") := Repeat(0.0, n)];
    StartsAdd(maxKeys, s, es1, "2", n, 0.0);
  }

  lemma TwoLoginsTable(maxKeys: int, s: Settings, t: real)
    requires maxKeys >= 3 && s.loginLimit >= 1 && s.window >= 1
    ensures var n, es := s.loginLimit, TwoLogins(s.loginLimit, t);
            && TableOf(maxKeys, s, es)
               == map[Pair("1") := Repeat(0.0, n), Pair("2") := Repeat(0.0, n), Account() := Repeat(t, 2 * n)]
            && SmoothRun(maxKeys, s, es)
  {
    var n := s.loginLimit;
    Keys("1", "2");
    Keys("2", "1");
    assert [] + Repeat(t, 2 * n) == Repeat(t, 2 * n);
    hide TableOf, RecordOf, SmoothRun, Pair, Account, Starts, Finishes, Repeat, BucketKey, Newcomer;
    TwoStartsTable(maxKeys, s);
    var es2 := Starts("1", n, 0.0) + Starts("2", n, 0.0);
    assert |TableOf(maxKeys, s, es2)| == 2;
    FinishesAdd(maxKeys, s, es2, 0, 2 * n, t, []);
  }

  lemma TwoStartsShape(n: nat, ips: set<string>, shortest: int, delay: real)
    requires "1" in ips && "2" in ips
    ensures var es := Starts("1", n, 0.0) + Starts("2", n, 0.0);
            && Shape(es, ips, shortest, delay, 0.0) && FinishedBelow(es, 0) && |es| == 2 * n
            && forall i | 0 <= i < 2 * n :: es[i].Start? && es[i].email == EMAIL && es[i].now == 0.0
  {
    var none: seq<Event> := [];
    var one := Starts("1", n, 0.0);
    assert none + one == one;
    EmptyShape(ips, shortest, delay, 0.0);
    hide Shape, FinishedBelow;
    ShapeStarts(none, "1", n, ips, shortest, delay, 0.0, 0.0);
    assert FinishedBelow(one, 0);
    ShapeStarts(one, "2", n, ips, shortest, delay, 0.0, 0.0);
  }

  lemma TwoLoginsShape(n: nat, ips: set<string>, shortest: int, delay: real, t: real)
    requires "1" in ips && "2" in ips && 0.0 <= t <= delay
    ensures Shape(TwoLogins(n, t), ips, shortest, delay, t) && FinishedBelow(TwoLogins(n, t), 2 * n)
  {
    TwoStartsShape(n, ips, shortest, delay);
    hide Shape, FinishedBelow, Starts, Finishes;
    ShapeFinishes(Starts("1", n, 0.0) + Starts("2", n, 0.0), 0, 2 * n, ips, shortest, delay, 0.0, t);
  }

  /**
    * Two addresses begin a budget of logins each, whose second sections come late, and again a window later:
    * all second sections fall into one window. A third address then finds the account exhausted.
    */
  function Overlap(n: nat, late: real, now: real): seq<Event> {
    TwoLogins(n, late) + Starts("1", n, now) + Starts("2", n, now) + Finishes(4 * n, 2 * n, now) + Starts("3", 1, now)
  }

  lemma OverlapShape(n: nat, ips: set<string>, shortest: int, delay: real, late: real, now: real)
    requires ips == {"1", "2", "3"} && 0.0 <= late <= delay && late <= now
    ensures Shape(Overlap(n, late, now), ips, shortest, delay, now) && FinishedBelow(Overlap(n, late, now), 8 * n)
    ensures |Overlap(n, late, now)| == 8 * n + 1 && Overlap(n, late, now)[8 * n] == Start("3", EMAIL, now)
  {
    TwoLoginsShape(n, ips, shortest, delay, late);
    var es1 := TwoLogins(n, late);
    var es2 := es1 + Starts("1", n, now);
    var es3 := es2 + Starts("2", n, now);
    var es4 := es3 + Finishes(4 * n, 2 * n, now);
    assert forall i | 4 * n <= i < 6 * n :: es3[i].Start? && es3[i].email == EMAIL && es3[i].now == now;
    assert |es4| == 8 * n && Starts("3", 1, now) == [Start("3", EMAIL, now)];
    hide Shape, TwoLogins, Starts, Finishes;
    ShapeStarts(es1, "1", n, ips, shortest, delay, late, now);
    ShapeStarts(es2, "2", n, ips, shortest, delay, now, now);
    assert FinishedBelow(es3, 4 * n);
    ShapeFinishes(es3, 4 * n, 2 * n, ips, shortest, delay, now, now);
    ShapeStarts(es4, "3", 1, ips, shortest, delay, now, now);
    assert FinishedBelow(es4 + Starts("3", 1, now), 8 * n);
  }

  /** A further budget from each of the two addresses, whose deques are out of date or gone. */
  lemma SecondBudgets(maxKeys: int, s: Settings, es: seq<Event>, now: real)
    requires s.loginLimit >= 1 && s.window >= 1 && |TableOf(maxKeys, s, es) - {Pair("1"), Pair("2")}| + 2 <= maxKeys
    requires Prune(BucketOf(TableOf(maxKeys, s, es), Pair("1")), Cutoff(now, s.window)) == []
    requires Prune(BucketOf(TableOf(maxKeys, s, es), Pair("2")), Cutoff(now, s.window)) == []
    ensures var n, es' := s.loginLimit, es + Starts("1", s.loginLimit, now) + Starts("2", s.loginLimit, now);
            && TableOf(maxKeys, s, es')
               == TableOf(maxKeys, s, es)[Pair("1") := Repeat(now, n)][Pair("2") := Repeat(now, n)]
            && (SmoothRun(maxKeys, s, es) ==> SmoothRun(maxKeys, s, es'))
  {
    var n := s.loginLimit;
    var h := TableOf(maxKeys, s, es);
    Keys("1", "2");
    hide TableOf, RecordOf, SmoothRun, Pair, Account, Starts, Repeat, BucketKey, Newcomer, Prune;
    Room(h, Pair("1"), Pair("2"), maxKeys);
    StartsAdd(maxKeys, s, es, "1", n, now);
    RoomKept(h, Pair("1"), Pair("2"), Repeat(now, n));
    Room(h[Pair("1") := Repeat(now, n)], Pair("2"), Pair("1"), maxKeys);
    StartsAdd(maxKeys, s, es + Starts("1", n, now), "2", n, now);
  }

  lemma Room(h: Table, a: string, b: string, maxKeys: int)
    requires |h - {a, b}| + 2 <= maxKeys
    ensures a in h || |h| < maxKeys
  {
    if a !in h {
      assert h.Keys <= (h - {a, b}).Keys + {b};
      SubsetBound(h.Keys, (h - {a, b}).Keys + {b});
    }
  }

  lemma RoomKept(h: Table, a: string, b: string, bucket: seq<real>)
    ensures |h[a := bucket] - {b, a}| == |h - {a, b}|
  {
    assert h[a := bucket] - {b, a} == h - {a, b};
  }

  function ThreeKeys(a: string, b: string, c: string, x: seq<real>, y: seq<real>, z: seq<real>): Table {
    map[a := x, b := y, c := z]
  }

  lemma ThreeKeysFacts(a: string, b: string, c: string, x: seq<real>, y: seq<real>, z: seq<real>,
                       x': seq<real>, y': seq<real>, z': seq<real>)
    requires a != b && a != c && b != c
    ensures var h := ThreeKeys(a, b, c, x, y, z);
            && |h| == 3 && h.Keys == {a, b, c} && BucketOf(h, a) == x && BucketOf(h, b) == y && BucketOf(h, c) == z
            && |h - {a, b}| == 1
            && h[a := x'][b := y'] == ThreeKeys(a, b, c, x', y', z)
            && h[c := z'] == ThreeKeys(a, b, c, x, y, z')
  {
    var h := ThreeKeys(a, b, c, x, y, z);
    assert |h| == |h.Keys|;
    assert h - {a, b} == map[c := z];
  }

  lemma OverlapPairs(maxKeys: int, s: Settings, late: real)
    requires maxKeys >= 4 && s.loginLimit >= 1 && s.window >= 1
    ensures var n, now := s.loginLimit, s.window as real;
            var es := TwoLogins(s.loginLimit, late) + Starts("1", n, now) + Starts("2", n, now);
            && TableOf(maxKeys, s, es)
               == ThreeKeys(Pair("1"), Pair("2"), Account(), Repeat(now, n), Repeat(now, n), Repeat(late, 2 * n))
            && SmoothRun(maxKeys, s, es)
  {
    var n, now := s.loginLimit, s.window as real;
    var x, y, z := Repeat(0.0, n), Repeat(now, n), Repeat(late, 2 * n);
    Keys("1", "2");
    Keys("2", "1");
    RepeatUpTo(0.0, n);
    PruneNone(x, Cutoff(now, s.window));
    assert ThreeKeys(Pair("1"), Pair("2"), Account(), x, x, z) == map[Pair("1") := x, Pair("2") := x, Account() := z];
    hide *;
    TwoLoginsTable(maxKeys, s, late);
    ThreeKeysFacts(Pair("1"), Pair("2"), Account(), x, x, z, y, y, z);
    SecondBudgets(maxKeys, s, TwoLogins(n, late), now);
  }

  /** Further second sections and one more address, on the table left by the two addresses. */
  lemma ThirdAddress(maxKeys: int, s: Settings, es: seq<Event>, first: nat, now: real, bucket: seq<real>, x: seq<real>)
    requires maxKeys >= 4 && s.loginLimit >= 1 && s.window >= 1
    requires TableOf(maxKeys, s, es) == ThreeKeys(Pair("1"), Pair("2"), Account(), x, x, bucket)
    requires SmoothRun(maxKeys, s, es)
    requires |bucket| == 2 * s.loginLimit && bucket[0] > Cutoff(now, s.window)
    ensures var n := s.loginLimit;
            var es' := es + Finishes(first, 2 * n, now) + Starts("3", 1, now);
            && SmoothRun(maxKeys, s, es') && Account() in TableOf(maxKeys, s, es')
            && TableOf(maxKeys, s, es')[Account()] == bucket + Repeat(now, 2 * n)
  {
    var n := s.loginLimit;
    var z := bucket + Repeat(now, 2 * n);
    Keys("1", "2");
    Keys("2", "3");
    Keys("3", "1");
    assert Prune([], Cutoff(now, s.window)) == [];
    var es3 := es + Finishes(first, 2 * n, now);
    ThreeKeysFacts(Pair("1"), Pair("2"), Account(), x, x, bucket, x, x, z);
    ThreeKeysFacts(Pair("1"), Pair("2"), Account(), x, x, z, x, x, z);
    hide TableOf, RecordOf, SmoothRun, Pair, Account, Starts, Finishes, Repeat, BucketKey, Newcomer, Prune, ThreeKeys;
    FinishesAdd(maxKeys, s, es, first, 2 * n, now, bucket);
    StartsAdd(maxKeys, s, es3, "3", 1, now);
  }

  lemma OverlapTable(maxKeys: int, s: Settings, late: real)
    requires maxKeys >= 4 && s.loginLimit >= 1 && s.window >= 1 && 0.0 < late <= s.window as real
    ensures var n, es := s.loginLimit, Overlap(s.loginLimit, late, s.window as real);
            && SmoothRun(maxKeys, s, es) && Account() in TableOf(maxKeys, s, es)
            && TableOf(maxKeys, s, es)[Account()] == Repeat(late, 2 * n) + Repeat(s.window as real, 2 * n)
  {
    var n, now := s.loginLimit, s.window as real;
    RepeatLength(late, 2 * n);
    hide TableOf, SmoothRun, Pair, Account, Starts, Finishes, Repeat, TwoLogins;
    OverlapPairs(maxKeys, s, late);
    var es := TwoLogins(n, late) + Starts("1", n, now) + Starts("2", n, now);
    ThirdAddress(maxKeys, s, es, 4 * n, now, Repeat(late, 2 * n), Repeat(now, n));
  }

  /** Any delay between the two sections lets two other addresses exhaust an account. */
  lemma {:induction false} DelayLocksOut(maxKeys: int, s: Settings, shortest: int, delay: real)
    requires maxKeys >= 4 && s.loginLimit >= 1 && s.window >= 1 && delay > 0.0
    ensures !RefusalNeedsOthers(maxKeys, s, shortest, delay, 3)
  {
    var n, now := s.loginLimit, s.window as real;
    var late := if delay < now then delay else now;
    var es := Overlap(n, late, now);
    RepeatLength(late, 2 * n);
    RepeatLength(now, 2 * n);
    hide *;
    OverlapShape(n, {"1", "2", "3"}, shortest, delay, late, now);
    OverlapTable(maxKeys, s, late);
    LateFront(n, late, s.window);
    AccountRefuses(maxKeys, s, es, 8 * n, now, Repeat(late, 2 * n) + Repeat(now, 2 * n));
    SeenFromThree(maxKeys, s, es, 8 * n, now, shortest, delay);
  }

  lemma LateFront(n: nat, late: real, window: int)
    requires n >= 1 && late > 0.0
    ensures var bucket := Repeat(late, 2 * n) + Repeat(window as real, 2 * n);
            |bucket| == n * 4 && bucket[0] > Cutoff(window as real, window)
  {
  }

  /** Two addresses use up their budgets, a third keeps the account's deque alive, and a sweep drops the two pairs. */
  function HalfSwept(n: nat, fill: nat, window: int): seq<Event> {
    var full := TwoLogins(n, 0.0) + Fillers(fill, window, 0.0);
    full + Starts("3", 1, window as real / 2.0) + Finishes(|full|, 1, window as real / 2.0) + [Sweeper(window)]
  }

  /** The two addresses log in again until the account is exhausted: the last login has no second section yet. */
  function TwiceBudgeted(n: nat, fill: nat, window: int): seq<Event>
    requires n >= 1
  {
    var es, now := HalfSwept(n, fill, window), window as real;
    es + Starts("1", n, now) + Starts("2", n, now) + Finishes(|es|, 2 * n - 1, now)
  }

  lemma FullShape(n: nat, fill: nat, window: int, ips: set<string>, delay: real)
    requires window >= 1 && delay >= 0.0 && ips == {"1", "2", "3"}
    ensures var es := TwoLogins(n, 0.0) + Fillers(fill, window, 0.0);
            Shape(es, ips, window, delay, 0.0) && FinishedBelow(es, |es|)
  {
    var es := TwoLogins(n, 0.0);
    TwoLoginsShape(n, ips, window, delay, 0.0);
    hide Shape, TwoLogins;
    ShapeFillers(es, fill, window, ips, delay, 0.0, 0.0);
    FinishedBelowMore(es + Fillers(fill, window, 0.0), 2 * n, |es + Fillers(fill, window, 0.0)|);
  }

  lemma HalfSweptShape(n: nat, fill: nat, window: int, ips: set<string>, delay: real)
    requires window >= 1 && delay >= 0.0 && ips == {"1", "2", "3"}
    ensures var es := HalfSwept(n, fill, window);
            Shape(es, ips, window, delay, window as real) && FinishedBelow(es, |es|)
  {
    var full, half := TwoLogins(n, 0.0) + Fillers(fill, window, 0.0), window as real / 2.0;
    var es := full + Starts("3", 1, half) + Finishes(|full|, 1, half);
    assert HalfSwept(n, fill, window) == es + [Sweeper(window)];
    hide *;
    FullShape(n, fill, window, ips, delay);
    ShapeLogin(full, "3", ips, window, delay, 0.0, half);
    ShapeArrival(es, ips, window, window, delay, half, window as real);
    FinishedBelowMore(es + [Sweeper(window)], |es|, |es + [Sweeper(window)]|);
  }

  lemma TwiceBudgetedShape(n: nat, fill: nat, window: int, ips: set<string>, delay: real)
    requires n >= 1 && window >= 1 && delay >= 0.0 && ips == {"1", "2", "3"}
    ensures var es, last := TwiceBudgeted(n, fill, window), |HalfSwept(n, fill, window)| + 2 * n - 1;
            && Shape(es, ips, window, delay, window as real) && FinishedBelow(es, last)
            && last < |es| && es[last] == Start("2", EMAIL, window as real)
  {
    HalfSweptShape(n, fill, window, ips, delay);
    hide Shape, HalfSwept, FinishedBelow;
    MoreBudgetsShape(HalfSwept(n, fill, window), n, ips, window, delay, window as real);
  }

  lemma BudgetEvents(es: seq<Event>, n: nat, now: real)
    requires n >= 1
    ensures var es2, more := es + Starts("1", n, now) + Starts("2", n, now), Finishes(|es|, 2 * n - 1, now);
            && |es2| == |es| + 2 * n && (es2 + more)[|es2| - 1] == Start("2", EMAIL, now) && |more| == 2 * n - 1
            && forall i | |es| <= i < |es2| :: es2[i].Start? && es2[i].email == EMAIL && es2[i].now == now
  {
  }

  lemma MoreBudgetsShape(es: seq<Event>, n: nat, ips: set<string>, shortest: int, delay: real, now: real)
    requires n >= 1 && delay >= 0.0 && ips == {"1", "2", "3"}
    requires Shape(es, ips, shortest, delay, now) && FinishedBelow(es, |es|)
    ensures var es' := es + Starts("1", n, now) + Starts("2", n, now) + Finishes(|es|, 2 * n - 1, now);
            var last := |es| + 2 * n - 1;
            && Shape(es', ips, shortest, delay, now) && FinishedBelow(es', last)
            && last < |es'| && es'[last] == Start("2", EMAIL, now)
  {
    hide Shape, Starts, Finishes;
    var es1 := es + Starts("1", n, now);
    var es2 := es1 + Starts("2", n, now);
    BudgetEvents(es, n, now);
    ShapeStarts(es, "1", n, ips, shortest, delay, now, now);
    ShapeStarts(es1, "2", n, ips, shortest, delay, now, now);
    assert FinishedBelow(es2, |es|);
    hide FinishedBelow;
    ShapeFinishes(es2, |es|, 2 * n - 1, ips, shortest, delay, now, now);
  }

  lemma PaddedThree(h: Table, h': Table, a: string, b: string, c: string, d: string, x: seq<real>, z: seq<real>,
                    fill: nat)
    requires h == ThreeKeys(a, b, c, x, x, z) && Idle(x, 0.0) && Padded(h, h', BASE, fill, 0.0)
    requires a != b && c !in {a, b} && d !in {a, b, c} && |d| <= BASE
    ensures c in h' && h'[c] == z && d !in h' && |h'| == fill + 3
    ensures forall k | k in h' && k != c :: Idle(h'[k], 0.0)
    ensures forall k | k in h' :: k in {a, b, c} || |k| > BASE
  {
    ThreeKeysFacts(a, b, c, x, x, z, x, x, z);
  }

  /** A third address and an account that is not idle are all that the sweep leaves. */
  lemma SweepLeaves(h: Table, c: string, d: string, z: seq<real>, half: real)
    requires c in h && h[c] == z && d !in h && half > 0.0
    requires forall k | k in h && k != c :: Idle(h[k], 0.0)
    ensures var h3 := h[d := [half]][c := z + [half]];
            |h3| == |h| + 1 && DropIdle(h3, 0.0) == map[d := [half], c := z + [half]]
  {
    var h3 := h[d := [half]][c := z + [half]];
    assert h3.Keys == h.Keys + {d};
  }

  /** Room for one key more; all keys but the account's are idle. */
  predicate NearlyFull(h: Table, maxKeys: int, z: seq<real>) {
    && Account() in h && h[Account()] == z && Pair("3") !in h && |h| == maxKeys - 1 && Newcomer() !in h
    && forall k | k in h && k != Account() :: Idle(h[k], 0.0)
  }

  lemma FullTable(maxKeys: int, s: Settings, window: int)
    requires maxKeys >= 5 && s.loginLimit >= 1 && s.window >= 1
    ensures var n, es := s.loginLimit, TwoLogins(s.loginLimit, 0.0) + Fillers(maxKeys - 4, window, 0.0);
            SmoothRun(maxKeys, s, es) && NearlyFull(TableOf(maxKeys, s, es), maxKeys, Repeat(0.0, 2 * n))
  {
    var n, fill, es := s.loginLimit, maxKeys - 4, TwoLogins(s.loginLimit, 0.0);
    var x, z := Repeat(0.0, n), Repeat(0.0, 2 * n);
    FourKeys();
    RepeatLength(0.0, n);
    ThreeKeysFacts(Pair("1"), Pair("2"), Account(), x, x, z, x, x, z);
    assert ThreeKeys(Pair("1"), Pair("2"), Account(), x, x, z) == map[Pair("1") := x, Pair("2") := x, Account() := z];
    assert Idle(x, 0.0);
    var y := Newcomer();
    assert y !in {Pair("1"), Pair("2"), Account()} by {
      assert Pair("1") in CrowdKeys() && Pair("2") in CrowdKeys() && Account() in CrowdKeys();
    }
    hide TableOf, RecordOf, SmoothRun, Pair, Account, Repeat, Newcomer, TwoLogins, Fillers, Padded, Idle, ThreeKeys;
    hide CrowdKeys;
    TwoLoginsTable(maxKeys, s, 0.0);
    FillersAdd(maxKeys, s, es, fill, window, 0.0);
    PaddedThree(TableOf(maxKeys, s, es), TableOf(maxKeys, s, es + Fillers(fill, window, 0.0)),
                Pair("1"), Pair("2"), Account(), Pair("3"), x, z, fill);
  }

  lemma FreshLogin(maxKeys: int, s: Settings, es: seq<Event>, half: real, z: seq<real>)
    requires s.loginLimit >= 1 && s.window >= 1 && |TableOf(maxKeys, s, es)| < maxKeys
    requires Account() in TableOf(maxKeys, s, es) && TableOf(maxKeys, s, es)[Account()] == z
    requires Pair("3") !in TableOf(maxKeys, s, es)
    requires z != [] && |z| < s.loginLimit * 4 && z[0] > Cutoff(half, s.window)
    ensures var es' := es + Starts("3", 1, half) + Finishes(|es|, 1, half);
            && TableOf(maxKeys, s, es') == TableOf(maxKeys, s, es)[Pair("3") := [half]][Account() := z + [half]]
            && (SmoothRun(maxKeys, s, es) ==> SmoothRun(maxKeys, s, es'))
  {
    Keys("3", "1");
    assert Repeat(half, 1) == [half] && Prune([], Cutoff(half, s.window)) == [];
    hide TableOf, RecordOf, SmoothRun, Pair, Account, Starts, Finishes, Repeat, BucketKey, Newcomer, Prune;
    StartsAdd(maxKeys, s, es, "3", 1, half);
    FinishesAdd(maxKeys, s, es + Starts("3", 1, half), |es|, 1, half, z);
  }

  lemma HalfSweptTable(maxKeys: int, s: Settings, window: int)
    requires maxKeys >= 5 && s.loginLimit >= 1 && 1 <= window < s.window
    ensures var n, half, es := s.loginLimit, window as real / 2.0, HalfSwept(s.loginLimit, maxKeys - 4, window);
            && SmoothRun(maxKeys, s, es)
            && TableOf(maxKeys, s, es)
               == map[Pair("3") := [half],
                      Account() := Repeat(0.0, 2 * n) + [half]][Newcomer() := [window as real]]
  {
    hide *;
    var n, half, fill := s.loginLimit, window as real / 2.0, maxKeys - 4;
    FullTable(maxKeys, s, window);
    ZeroFront(n, half, s.window);
    SweepOfFull(maxKeys, s, TwoLogins(n, 0.0) + Fillers(fill, window, 0.0), half, Repeat(0.0, 2 * n), window);
    HalfSweptIs(n, fill, window);
  }

  lemma ZeroFront(n: nat, now: real, window: int)
    requires n >= 1 && now < window as real
    ensures var z := Repeat(0.0, 2 * n); |z| == 2 * n && z != [] && |z| < n * 4 && z[0] > Cutoff(now, window)
  {
  }

  lemma HalfSweptIs(n: nat, fill: nat, window: int)
    ensures var full, half := TwoLogins(n, 0.0) + Fillers(fill, window, 0.0), window as real / 2.0;
            HalfSwept(n, fill, window) == full + Starts("3", 1, half) + Finishes(|full|, 1, half) + [Sweeper(window)]
  {
  }

  lemma SweepOfFull(maxKeys: int, s: Settings, full: seq<Event>, half: real, z: seq<real>, window: int)
    requires maxKeys >= 5 && s.loginLimit >= 1 && s.window >= 1 && SmoothRun(maxKeys, s, full) && half > 0.0
    requires NearlyFull(TableOf(maxKeys, s, full), maxKeys, z)
    requires z != [] && |z| < s.loginLimit * 4 && z[0] > Cutoff(half, s.window)
    ensures var es := full + Starts("3", 1, half) + Finishes(|full|, 1, half) + [Sweeper(window)];
            && SmoothRun(maxKeys, s, es)
            && TableOf(maxKeys, s, es)
               == map[Pair("3") := [half], Account() := z + [half]][Newcomer() := [window as real]]
  {
    var h, a, d, y := TableOf(maxKeys, s, full), Account(), Pair("3"), Newcomer();
    Keys("3", "1");
    FreshLogin(maxKeys, s, full, half, z);
    SweepLeaves(h, a, d, z, half);
    hide *;
    assert |map[d := [half], a := z + [half]]| <= 2;
    assert y !in h[d := [half]][a := z + [half]];
    SweeperLeaves(maxKeys, s, full + Starts("3", 1, half) + Finishes(|full|, 1, half), window,
                  map[d := [half], a := z + [half]]);
  }

  lemma TwiceBudgetedTable(maxKeys: int, s: Settings, window: int)
    requires maxKeys >= 5 && s.loginLimit >= 1 && 1 <= window < s.window
    ensures var n, es := s.loginLimit, TwiceBudgeted(s.loginLimit, maxKeys - 4, window);
            && SmoothRun(maxKeys, s, es) && Account() in TableOf(maxKeys, s, es)
            && TableOf(maxKeys, s, es)[Account()]
               == Repeat(0.0, 2 * n) + [window as real / 2.0] + Repeat(window as real, 2 * n - 1)
  {
    hide *;
    HalfSweptTable(maxKeys, s, window);
    TwiceFrom(maxKeys, s, HalfSwept(s.loginLimit, maxKeys - 4, window), window as real,
              Repeat(0.0, 2 * s.loginLimit) + [window as real / 2.0], [window as real / 2.0], window);
    TwiceIs(s.loginLimit, maxKeys - 4, window);
  }

  lemma TwiceIs(n: nat, fill: nat, window: int)
    requires n >= 1
    ensures var es, now := HalfSwept(n, fill, window), window as real;
            TwiceBudgeted(n, fill, window)
            == es + Starts("1", n, now) + Starts("2", n, now) + Finishes(|es|, 2 * n - 1, now)
  {
  }

  lemma ThreeOthers(h: Table, d: string, c: string, y: string, x: seq<real>, bucket: seq<real>, z: seq<real>,
                    a: string, b: string, more: seq<real>)
    requires h == map[d := x, c := bucket][y := z] && a !in {d, c, y} && b !in {d, c, y} && c != d && c != y
    ensures |h - {a, b}| <= 3 && BucketOf(h, a) == [] && BucketOf(h, b) == []
    ensures var h' := h[a := more][b := more]; c in h' && h'[c] == bucket && BucketOf(h', c) == bucket
  {
    assert h.Keys == {d, c, y} && h[c] == bucket;
    hide BucketOf;
    assert h - {a, b} == h;
    KeyCount(h, {d, c, y});
    AtMostThree(d, c, y);
    KeptKey(h, a, b, c, more);
  }

  lemma KeyCount(h: Table, keys: set<string>)
    requires h.Keys == keys
    ensures |h| == |keys| && forall k | k !in keys :: BucketOf(h, k) == []
  {
    assert |h| == |h.Keys|;
  }

  lemma AtMostThree(a: string, b: string, c: string)
    ensures |{a, b, c}| <= 3
  {
  }

  lemma KeptKey(h: Table, a: string, b: string, c: string, more: seq<real>)
    requires c in h && c != a && c != b
    ensures var h' := h[a := more][b := more]; c in h' && h'[c] == h[c] && BucketOf(h', c) == h[c]
  {
  }

  lemma TwiceFrom(maxKeys: int, s: Settings, es: seq<Event>, now: real, bucket: seq<real>, third: seq<real>,
                  window: int)
    requires maxKeys >= 5 && s.loginLimit >= 1 && 1 <= window < s.window && now == window as real
    requires bucket == Repeat(0.0, 2 * s.loginLimit) + [now / 2.0] && SmoothRun(maxKeys, s, es)
    requires TableOf(maxKeys, s, es) == map[Pair("3") := third, Account() := bucket][Newcomer() := [now]]
    ensures var n := s.loginLimit;
            var es' := es + Starts("1", n, now) + Starts("2", n, now) + Finishes(|es|, 2 * n - 1, now);
            && SmoothRun(maxKeys, s, es') && Account() in TableOf(maxKeys, s, es')
            && TableOf(maxKeys, s, es')[Account()] == bucket + Repeat(now, 2 * n - 1)
  {
    hide *;
    TwiceStarts(maxKeys, s, es, now, bucket, third);
    ZeroFront(s.loginLimit, now, s.window);
    UpToLimit(maxKeys, s, es + Starts("1", s.loginLimit, now) + Starts("2", s.loginLimit, now), |es|, now, bucket);
  }

  lemma TwiceStarts(maxKeys: int, s: Settings, es: seq<Event>, now: real, bucket: seq<real>, third: seq<real>)
    requires maxKeys >= 5 && s.loginLimit >= 1 && s.window >= 1 && SmoothRun(maxKeys, s, es)
    requires TableOf(maxKeys, s, es) == map[Pair("3") := third, Account() := bucket][Newcomer() := [now]]
    ensures var es' := es + Starts("1", s.loginLimit, now) + Starts("2", s.loginLimit, now);
            && SmoothRun(maxKeys, s, es') && Account() in TableOf(maxKeys, s, es')
            && TableOf(maxKeys, s, es')[Account()] == bucket
  {
    Keys("1", "3");
    Keys("2", "3");
    Keys("3", "3");
    assert Prune([], Cutoff(now, s.window)) == [];
    hide *;
    ThreeOthers(TableOf(maxKeys, s, es), Pair("3"), Account(), Newcomer(), third, bucket, [now],
                Pair("1"), Pair("2"), Repeat(now, s.loginLimit));
    SecondBudgets(maxKeys, s, es, now);
  }

  lemma UpToLimit(maxKeys: int, s: Settings, es: seq<Event>, first: nat, now: real, bucket: seq<real>)
    requires s.loginLimit >= 1 && s.window >= 1 && SmoothRun(maxKeys, s, es)
    requires Account() in TableOf(maxKeys, s, es) && TableOf(maxKeys, s, es)[Account()] == bucket
    requires |bucket| == 2 * s.loginLimit + 1 && bucket[0] > Cutoff(now, s.window)
    ensures var es' := es + Finishes(first, 2 * s.loginLimit - 1, now);
            && SmoothRun(maxKeys, s, es') && Account() in TableOf(maxKeys, s, es')
            && TableOf(maxKeys, s, es')[Account()] == bucket + Repeat(now, 2 * s.loginLimit - 1)
  {
    hide TableOf, RecordOf, SmoothRun, Account, Finishes, Repeat;
    FinishesAdd(maxKeys, s, es, first, 2 * s.loginLimit - 1, now, bucket);
  }

  lemma FullFront(n: nat, now: real, window: int)
    requires n >= 1 && now < window as real
    ensures var bucket := Repeat(0.0, 2 * n) + [now / 2.0] + Repeat(now, 2 * n - 1);
            |bucket| == n * 4 && bucket[0] > Cutoff(now, window)
  {
  }

  /** A shorter window anywhere lets two other addresses exhaust an account, even without delays. */
  lemma {:induction false} ShortWindowLocksOut(maxKeys: int, s: Settings, shortest: int, delay: real)
    requires maxKeys >= 5 && s.loginLimit >= 1 && 1 <= shortest < s.window && delay >= 0.0
    ensures !RefusalNeedsOthers(maxKeys, s, shortest, delay, 3)
  {
    hide *;
    var n, now := s.loginLimit, shortest as real;
    TwiceBudgetedShape(n, maxKeys - 4, shortest, {"1", "2", "3"}, delay);
    TwiceBudgetedTable(maxKeys, s, shortest);
    ExhaustedTwice(maxKeys, s, TwiceBudgeted(n, maxKeys - 4, shortest),
                   |HalfSwept(n, maxKeys - 4, shortest)| + 2 * n - 1, now, shortest, delay);
  }

  lemma ExhaustedTwice(maxKeys: int, s: Settings, es: seq<Event>, last: nat, now: real, shortest: int, delay: real)
    requires s.loginLimit >= 1 && s.window >= 1 && now < s.window as real && delay >= 0.0
    requires SmoothRun(maxKeys, s, es) && Shape(es, {"1", "2", "3"}, shortest, delay, now)
    requires FinishedBelow(es, last) && last < |es| && es[last] == Start("2", EMAIL, now)
    requires Account() in TableOf(maxKeys, s, es)
    requires TableOf(maxKeys, s, es)[Account()]
             == Repeat(0.0, 2 * s.loginLimit) + [now / 2.0] + Repeat(now, 2 * s.loginLimit - 1)
    ensures !RefusalNeedsOthers(maxKeys, s, shortest, delay, 3)
  {
    hide *;
    FullFront(s.loginLimit, now, s.window);
    AccountRefuses(maxKeys, s, es, last, now, TableOf(maxKeys, s, es)[Account()]);
    SeenFromThree(maxKeys, s, es, last, now, shortest, delay);
  }

  // ---------------------------------------------------------------- delays of more than one window

  /** Round m starts m windows after time zero. */
  function Round(m: nat, window: int): real {
    m as real * window as real
  }

  /** One address uses up its budget of first sections in m windows in a row. */
  function Rounds(n: nat, m: nat, window: int): seq<Event> {
    if m == 0 then [] else Rounds(n, m - 1, window) + Starts("1", n, Round(m - 1, window))
  }

  lemma RoundStep(m: nat, window: int)
    requires m >= 1 && window >= 1
    ensures Round(m, window) == Round(m - 1, window) + window as real && Round(m - 1, window) >= 0.0
    ensures Cutoff(Round(m, window), window) == Round(m - 1, window)
  {
  }

  lemma FewRounds(window: int)
    ensures Round(0, window) == 0.0 && Round(1, window) == window as real && Round(2, window) == 2.0 * window as real
    ensures Round(3, window) == 3.0 * window as real && Round(4, window) == 4.0 * window as real
  {
  }

  /** The deque of the address holds its last budget only. */
  lemma {:induction false} RoundsTable(maxKeys: int, s: Settings, es: seq<Event>, m: nat)
    requires s.loginLimit >= 1 && s.window >= 1 && m >= 1 && SmoothRun(maxKeys, s, es)
    requires Pair("1") !in TableOf(maxKeys, s, es) && |TableOf(maxKeys, s, es)| < maxKeys
    ensures var n, es' := s.loginLimit, es + Rounds(s.loginLimit, m, s.window);
            && TableOf(maxKeys, s, es') == TableOf(maxKeys, s, es)[Pair("1") := Repeat(Round(m - 1, s.window), n)]
            && SmoothRun(maxKeys, s, es')
  {
    var n, t := s.loginLimit, Round(m - 1, s.window);
    var before := es + Rounds(n, m - 1, s.window);
    Associative(es, Rounds(n, m - 1, s.window), Starts("1", n, t));
    if m == 1 {
      assert before == es && Prune([], Cutoff(t, s.window)) == [];
      hide TableOf, RecordOf, SmoothRun, Pair, Starts, Repeat, Prune, Rounds;
      StartsAdd(maxKeys, s, es, "1", n, t);
    } else {
      var t0 := Round(m - 2, s.window);
      RoundStep(m - 1, s.window);
      RepeatUpTo(t0, n);
      PruneNone(Repeat(t0, n), Cutoff(t, s.window));
      RoundsTable(maxKeys, s, es, m - 1);
      hide *;
      NextRound(maxKeys, s, es, before, n, t0, t);
    }
  }

  lemma NextRound(maxKeys: int, s: Settings, es: seq<Event>, before: seq<Event>, n: nat, t0: real, t: real)
    requires n == s.loginLimit >= 1 && s.window >= 1 && SmoothRun(maxKeys, s, before)
    requires TableOf(maxKeys, s, before) == TableOf(maxKeys, s, es)[Pair("1") := Repeat(t0, n)]
    requires Prune(Repeat(t0, n), Cutoff(t, s.window)) == []
    ensures var es' := before + Starts("1", n, t);
            TableOf(maxKeys, s, es') == TableOf(maxKeys, s, es)[Pair("1") := Repeat(t, n)] && SmoothRun(maxKeys, s, es')
  {
    hide TableOf, RecordOf, SmoothRun, Pair, Starts, Repeat, Prune;
    StartsAdd(maxKeys, s, before, "1", n, t);
  }

  lemma {:induction false} RoundsShape(es: seq<Event>, n: nat, m: nat, window: int, ips: set<string>, shortest: int,
                                       delay: real)
    requires window >= 1 && m >= 1 && "1" in ips && Shape(es, ips, shortest, delay, 0.0) && FinishedBelow(es, 0)
    ensures var es' := es + Rounds(n, m, window);
            Shape(es', ips, shortest, delay, Round(m - 1, window)) && FinishedBelow(es', 0)
  {
    hide *;
    if m == 1 {
      FirstRound(n, window);
      ShapeStarts(es, "1", n, ips, shortest, delay, 0.0, 0.0);
      assert FinishedBelow(es + Starts("1", n, 0.0), 0);
    } else {
      var t := Round(m - 1, window);
      var before := es + Rounds(n, m - 1, window);
      MoreRounds(es, n, m, window);
      RoundStep(m - 1, window);
      RoundsShape(es, n, m - 1, window, ips, shortest, delay);
      ShapeStarts(before, "1", n, ips, shortest, delay, Round(m - 2, window), t);
      assert FinishedBelow(before + Starts("1", n, t), 0);
    }
  }

  lemma FirstRound(n: nat, window: int)
    ensures Rounds(n, 1, window) == Starts("1", n, 0.0) && Round(0, window) == 0.0
  {
    assert Rounds(n, 0, window) == [];
  }

  lemma MoreRounds(es: seq<Event>, n: nat, m: nat, window: int)
    requires m >= 1
    ensures es + Rounds(n, m, window) == (es + Rounds(n, m - 1, window)) + Starts("1", n, Round(m - 1, window))
  {
    Associative(es, Rounds(n, m - 1, window), Starts("1", n, Round(m - 1, window)));
  }

  /** All of them are first sections since time zero. */
  lemma {:induction false} RoundsEvents(n: nat, m: nat, window: int)
    requires window >= 1
    ensures |Rounds(n, m, window)| == m * n
    ensures forall i | 0 <= i < m * n ::
              var e := Rounds(n, m, window)[i]; e.Start? && e.email == EMAIL && e.now >= 0.0
  {
    if m > 0 {
      RoundsEvents(n, m - 1, window);
      RoundStep(m, window);
      RepeatLength(Start("1", EMAIL, Round(m - 1, window)), n);
      hide Repeat, Round;
      assert m * n == (m - 1) * n + n;
    }
  }

  // ---------------------------------------------------------------- one other address

  /** The second address begins a budget with the first round of the first address, and two rounds finish late. */
  function Stretched(n: nat, late: real, window: int): seq<Event> {
    Starts("2", n, 0.0) + Rounds(n, 2, window) + Finishes(0, 3 * n, late)
  }

  /** After a third round has finished at once, the second address finds the account exhausted. */
  function LongStretch(n: nat, late: real, window: int): seq<Event> {
    Stretched(n, late, window) + Starts("1", n, Round(2, window)) + Finishes(6 * n, n, Round(2, window))
    + Starts("2", 1, Round(2, window))
  }

  lemma StretchBegins(n: nat, window: int, ips: set<string>, shortest: int, delay: real)
    requires window >= 1 && ips == {"1", "2"}
    ensures var es := Starts("2", n, 0.0) + Rounds(n, 2, window);
            Shape(es, ips, shortest, delay, Round(1, window)) && FinishedBelow(es, 0)
  {
    var none: seq<Event> := [];
    var first := Starts("2", n, 0.0);
    assert none + first == first;
    EmptyShape(ips, shortest, delay, 0.0);
    hide Shape, Rounds, Round, Starts, FinishedBelow;
    ShapeStarts(none, "2", n, ips, shortest, delay, 0.0, 0.0);
    assert FinishedBelow(first, 0);
    RoundsShape(first, n, 2, window, ips, shortest, delay);
  }

  lemma StretchEvents(n: nat, window: int)
    requires window >= 1
    ensures var es := Starts("2", n, 0.0) + Rounds(n, 2, window);
            && |es| == 3 * n
            && forall i | 0 <= i < 3 * n :: es[i].Start? && es[i].email == EMAIL && es[i].now >= 0.0
    ensures forall late :: |Finishes(0, 3 * n, late)| == 3 * n
  {
    RoundsEvents(n, 2, window);
    RepeatLength(Start("2", EMAIL, 0.0), n);
    hide Rounds, Repeat;
  }

  lemma StretchedShape(n: nat, late: real, window: int, shortest: int, delay: real)
    requires window >= 1 && window as real <= late <= delay
    ensures var es := Stretched(n, late, window);
            Shape(es, {"1", "2"}, shortest, delay, late) && FinishedBelow(es, 3 * n) && |es| == 6 * n
  {
    var ips := {"1", "2"};
    StretchBegins(n, window, ips, shortest, delay);
    StretchEvents(n, window);
    FewRounds(window);
    hide Shape, Rounds, Round, Starts, Finishes, FinishedBelow;
    ShapeFinishes(Starts("2", n, 0.0) + Rounds(n, 2, window), 0, 3 * n, ips, shortest, delay, Round(1, window), late);
  }

  lemma LongStretchShape(n: nat, late: real, window: int, shortest: int, delay: real)
    requires n >= 1 && window >= 1 && window as real <= late <= delay && late <= Round(2, window)
    ensures var es := LongStretch(n, late, window);
            && Shape(es, {"1", "2"}, shortest, delay, Round(2, window)) && FinishedBelow(es, 8 * n)
            && |es| == 8 * n + 1 && es[8 * n] == Start("2", EMAIL, Round(2, window))
  {
    StretchedShape(n, late, window, shortest, delay);
    hide Shape, Stretched, Round;
    StretchEnds(Stretched(n, late, window), n, {"1", "2"}, shortest, delay, late, Round(2, window));
  }

  lemma StretchEnds(es: seq<Event>, n: nat, ips: set<string>, shortest: int, delay: real, late: real, now: real)
    requires n >= 1 && |es| == 6 * n && ips == {"1", "2"} && late <= now && delay >= 0.0
    requires Shape(es, ips, shortest, delay, late) && FinishedBelow(es, 3 * n)
    ensures var all := es + Starts("1", n, now) + Finishes(6 * n, n, now) + Starts("2", 1, now);
            && Shape(all, ips, shortest, delay, now) && FinishedBelow(all, 8 * n)
            && |all| == 8 * n + 1 && all[8 * n] == Start("2", EMAIL, now)
  {
    var es1 := es + Starts("1", n, now);
    var es2 := es1 + Finishes(6 * n, n, now);
    assert forall i | 6 * n <= i < 7 * n :: es1[i].Start? && es1[i].email == EMAIL && es1[i].now == now;
    assert |es2| == 8 * n && Starts("2", 1, now) == [Start("2", EMAIL, now)];
    hide Shape, Starts, Finishes;
    ShapeStarts(es, "1", n, ips, shortest, delay, late, now);
    FinishedBelowMore(es1, 3 * n, 6 * n);
    ShapeFinishes(es1, 6 * n, n, ips, shortest, delay, now, now);
    FinishedBelowMore(es2, 7 * n, 8 * n);
    ShapeStarts(es2, "2", 1, ips, shortest, delay, now, now);
  }

  lemma StretchedTable(maxKeys: int, s: Settings, late: real)
    requires maxKeys >= 3 && s.loginLimit >= 1 && s.window >= 1
    ensures var n, es := s.loginLimit, Stretched(s.loginLimit, late, s.window);
            && SmoothRun(maxKeys, s, es)
            && TableOf(maxKeys, s, es) == ThreeKeys(Pair("1"), Pair("2"), Account(),
                                                    Repeat(Round(1, s.window), n), Repeat(0.0, n), Repeat(late, 3 * n))
  {
    var n := s.loginLimit;
    var none: seq<Event> := [];
    var first := Starts("2", n, 0.0);
    var x, y, z := Repeat(Round(1, s.window), n), Repeat(0.0, n), Repeat(late, 3 * n);
    EmptyRun(maxKeys, s);
    Keys("1", "2");
    Keys("2", "1");
    assert none + first == first && [] + z == z && Prune([], Cutoff(0.0, s.window)) == [];
    assert map[][Pair("2") := y] == map[Pair("2") := y];
    TwoThenThree(Pair("1"), Pair("2"), Account(), x, y, z);
    hide TableOf, RecordOf, SmoothRun, Pair, Account, Starts, Finishes, Repeat, Prune, Rounds, Round, ThreeKeys;
    StartsAdd(maxKeys, s, none, "2", n, 0.0);
    RoundsTable(maxKeys, s, first, 2);
    FinishesAdd(maxKeys, s, first + Rounds(n, 2, s.window), 0, 3 * n, late, []);
  }

  lemma TwoThenThree(a: string, b: string, c: string, x: seq<real>, y: seq<real>, z: seq<real>)
    requires a != b && a != c && b != c
    ensures var h := map[b := y];
            && a !in h && |h| == 1 && |h[a := x]| == 2 && c !in h[a := x]
            && h[a := x][c := z] == ThreeKeys(a, b, c, x, y, z)
  {
    var h := map[b := y];
    assert h[a := x].Keys == {a, b};
  }

  lemma StretchEndsTable(maxKeys: int, s: Settings, es: seq<Event>, x: seq<real>, y: seq<real>, z: seq<real>, now: real)
    requires maxKeys >= 3 && s.loginLimit >= 1 && s.window >= 1 && SmoothRun(maxKeys, s, es)
    requires TableOf(maxKeys, s, es) == ThreeKeys(Pair("1"), Pair("2"), Account(), x, y, z)
    requires Prune(x, Cutoff(now, s.window)) == [] && Prune(y, Cutoff(now, s.window)) == []
    requires |z| == 3 * s.loginLimit && z[0] > Cutoff(now, s.window)
    ensures var n := s.loginLimit;
            var all := es + Starts("1", n, now) + Finishes(6 * n, n, now) + Starts("2", 1, now);
            && SmoothRun(maxKeys, s, all) && Account() in TableOf(maxKeys, s, all)
            && TableOf(maxKeys, s, all)[Account()] == z + Repeat(now, n)
  {
    var n := s.loginLimit;
    var x', z' := Repeat(now, n), z + Repeat(now, n);
    var es1 := es + Starts("1", n, now);
    var es2 := es1 + Finishes(6 * n, n, now);
    Keys("1", "2");
    Keys("2", "1");
    ThreeKeysChange(Pair("1"), Pair("2"), Account(), x, y, z, x', z', Repeat(now, 1));
    hide TableOf, RecordOf, SmoothRun, Pair, Account, Starts, Finishes, Repeat, Prune, ThreeKeys;
    StartsAdd(maxKeys, s, es, "1", n, now);
    FinishesAdd(maxKeys, s, es1, 6 * n, n, now, z);
    StartsAdd(maxKeys, s, es2, "2", 1, now);
  }

  lemma ThreeKeysChange(a: string, b: string, c: string, x: seq<real>, y: seq<real>, z: seq<real>,
                        x': seq<real>, z': seq<real>, y': seq<real>)
    requires a != b && a != c && b != c
    ensures var h := ThreeKeys(a, b, c, x, y, z);
            var h1 := h[a := x'];
            var h2 := h1[c := z'];
            && a in h && BucketOf(h, a) == x && c in h1 && BucketOf(h1, c) == z
            && b in h2 && BucketOf(h2, b) == y && c in h2[b := y'] && h2[b := y'][c] == z'
  {
  }

  /** With more than one window of delay a single other address exhausts an account. */
  lemma {:induction false} LongDelayLocksOut(maxKeys: int, s: Settings, shortest: int, delay: real)
    requires maxKeys >= 3 && s.loginLimit >= 1 && s.window >= 1 && delay > s.window as real
    ensures !RefusalNeedsOthers(maxKeys, s, shortest, delay, 2)
  {
    var n, w := s.loginLimit, s.window as real;
    var late := if delay < 2.0 * w then delay else 2.0 * w;
    FewRounds(s.window);
    LongStretchShape(n, late, s.window, shortest, delay);
    LongStretchTable(maxKeys, s, late);
    TwoAddresses();
    var z := Repeat(late, 3 * n) + Repeat(Round(2, s.window), n);
    RepeatLength(late, 3 * n);
    RepeatLength(Round(2, s.window), n);
    assert |z| == s.loginLimit * 4 && z[0] > Cutoff(Round(2, s.window), s.window);
    hide *;
    AccountRefuses(maxKeys, s, LongStretch(n, late, s.window), 8 * n, Round(2, s.window), z);
    SeenNow(maxKeys, s, LongStretch(n, late, s.window), {"1", "2"}, 8 * n, Round(2, s.window), shortest, delay);
  }

  lemma LongStretchTable(maxKeys: int, s: Settings, late: real)
    requires maxKeys >= 3 && s.loginLimit >= 1 && s.window >= 1 && s.window as real < late <= Round(2, s.window)
    ensures var n, es := s.loginLimit, LongStretch(s.loginLimit, late, s.window);
            && SmoothRun(maxKeys, s, es) && Account() in TableOf(maxKeys, s, es)
            && TableOf(maxKeys, s, es)[Account()] == Repeat(late, 3 * n) + Repeat(Round(2, s.window), n)
  {
    var n, now := s.loginLimit, Round(2, s.window);
    FewRounds(s.window);
    RepeatUpTo(Round(1, s.window), n);
    RepeatUpTo(0.0, n);
    PruneNone(Repeat(Round(1, s.window), n), Cutoff(now, s.window));
    PruneNone(Repeat(0.0, n), Cutoff(now, s.window));
    RepeatLength(late, 3 * n);
    hide TableOf, SmoothRun, Pair, Account, Starts, Finishes, Repeat, Prune, Round, ThreeKeys, Stretched;
    StretchedTable(maxKeys, s, late);
    StretchEndsTable(maxKeys, s, Stretched(n, late, s.window), Repeat(Round(1, s.window), n), Repeat(0.0, n),
                     Repeat(late, 3 * n), now);
  }

  lemma SeenNow(maxKeys: int, s: Settings, es: seq<Event>, ips: set<string>, first: nat, now: real,
                shortest: int, delay: real)
    requires SmoothRun(maxKeys, s, es) && Shape(es, ips, shortest, delay, now) && delay >= 0.0
    requires FinishedBelow(es, first) && first < |es|
    requires es[first].Start? && es[first].email == EMAIL && es[first].now == now
    requires Answer(maxKeys, Requests(s, es), Section(s, Finish(first, EMAIL, now))).Refused?
    ensures !RefusalNeedsOthers(maxKeys, s, shortest, delay, |ips|)
  {
    hide *;
    RefusalSeen(maxKeys, s, es, ips, first, now, shortest, delay, now);
  }

  lemma TwoAddresses()
    ensures |{"1", "2"}| == 2
  {
    assert "1"[0] != "2"[0];
  }

  // ---------------------------------------------------------------- no other address

  /** Four rounds of one address finish late and together; a fifth finds the account exhausted. */
  function Alone(n: nat, late: real, window: int): seq<Event> {
    Rounds(n, 4, window) + Finishes(0, 4 * n, late) + Starts("1", 1, Round(4, window))
  }

  lemma AloneShape(n: nat, late: real, window: int, shortest: int, delay: real)
    requires n >= 1 && window >= 1 && Round(3, window) <= late <= delay && late <= Round(4, window)
    ensures var es := Alone(n, late, window);
            && Shape(es, {"1"}, shortest, delay, Round(4, window)) && FinishedBelow(es, 8 * n)
            && |es| == 8 * n + 1 && es[8 * n] == Start("1", EMAIL, Round(4, window))
  {
    var none: seq<Event> := [];
    var ips, rounds, now := {"1"}, Rounds(n, 4, window), Round(4, window);
    var finished := rounds + Finishes(0, 4 * n, late);
    EmptyShape(ips, shortest, delay, 0.0);
    RoundsEvents(n, 4, window);
    FewRounds(window);
    assert none + rounds == rounds && |Finishes(0, 4 * n, late)| == 4 * n;
    assert Starts("1", 1, now) == [Start("1", EMAIL, now)];
    hide Shape, Rounds, Round, Starts, Finishes;
    RoundsShape(none, n, 4, window, ips, shortest, delay);
    ShapeFinishes(rounds, 0, 4 * n, ips, shortest, delay, Round(3, window), late);
    FinishedBelowMore(finished, 4 * n, 8 * n);
    ShapeStarts(finished, "1", 1, ips, shortest, delay, late, now);
  }

  lemma AloneTable(maxKeys: int, s: Settings, late: real)
    requires maxKeys >= 2 && s.loginLimit >= 1 && s.window >= 1
    ensures var n, es := s.loginLimit, Alone(s.loginLimit, late, s.window);
            && SmoothRun(maxKeys, s, es) && Account() in TableOf(maxKeys, s, es)
            && TableOf(maxKeys, s, es)[Account()] == Repeat(late, 4 * n)
  {
    hide *;
    var n := s.loginLimit;
    var rounds := Rounds(n, 4, s.window);
    RoundsAlone(maxKeys, s, 4);
    LastRoundPruned(n, s.window);
    AloneEnds(maxKeys, s, rounds, Repeat(Round(3, s.window), n), late, Round(4, s.window));
    AloneIs(n, late, s.window);
  }

  lemma AloneIs(n: nat, late: real, window: int)
    ensures Alone(n, late, window) == Rounds(n, 4, window) + Finishes(0, 4 * n, late) + Starts("1", 1, Round(4, window))
  {
  }

  lemma LastRoundPruned(n: nat, window: int)
    requires window >= 1
    ensures Prune(Repeat(Round(3, window), n), Cutoff(Round(4, window), window)) == []
  {
    RoundStep(4, window);
    RepeatUpTo(Round(3, window), n);
    PruneNone(Repeat(Round(3, window), n), Cutoff(Round(4, window), window));
  }

  lemma RoundsAlone(maxKeys: int, s: Settings, m: nat)
    requires maxKeys >= 1 && s.loginLimit >= 1 && s.window >= 1 && m >= 1
    ensures var n, es := s.loginLimit, Rounds(s.loginLimit, m, s.window);
            && TableOf(maxKeys, s, es) == map[][Pair("1") := Repeat(Round(m - 1, s.window), n)]
            && SmoothRun(maxKeys, s, es)
  {
    var none: seq<Event> := [];
    EmptyRun(maxKeys, s);
    hide TableOf, SmoothRun, Pair, Repeat, Rounds, Round;
    assert none + Rounds(s.loginLimit, m, s.window) == Rounds(s.loginLimit, m, s.window);
    RoundsTable(maxKeys, s, none, m);
  }

  lemma AloneEnds(maxKeys: int, s: Settings, es: seq<Event>, x: seq<real>, late: real, now: real)
    requires maxKeys >= 2 && s.loginLimit >= 1 && s.window >= 1 && SmoothRun(maxKeys, s, es)
    requires TableOf(maxKeys, s, es) == map[][Pair("1") := x] && Prune(x, Cutoff(now, s.window)) == []
    ensures var n, es' := s.loginLimit, es + Finishes(0, 4 * s.loginLimit, late) + Starts("1", 1, now);
            && SmoothRun(maxKeys, s, es') && Account() in TableOf(maxKeys, s, es')
            && TableOf(maxKeys, s, es')[Account()] == Repeat(late, 4 * n)
  {
    var z := Repeat(late, 4 * s.loginLimit);
    Keys("1", "1");
    OneThenTwo(Pair("1"), Account(), x, z, Repeat(now, 1));
    hide TableOf, RecordOf, SmoothRun, Pair, Account, Starts, Finishes, Repeat, Prune;
    assert [] + z == z;
    FinishesAdd(maxKeys, s, es, 0, 4 * s.loginLimit, late, []);
    StartsAdd(maxKeys, s, es + Finishes(0, 4 * s.loginLimit, late), "1", 1, now);
  }

  lemma OneThenTwo(a: string, c: string, x: seq<real>, z: seq<real>, x': seq<real>)
    requires a != c
    ensures var h: Table := map[][a := x];
            && |h| == 1 && c !in h && a in h[c := z] && BucketOf(h[c := z], a) == x
            && c in h[c := z][a := x'] && h[c := z][a := x'][c] == z
  {
    var h: Table := map[][a := x];
    assert h == map[a := x];
  }

  /** With more than three windows of delay an address exhausts an account all by itself. */
  lemma {:induction false} VeryLongDelayLocksOut(maxKeys: int, s: Settings, shortest: int, delay: real)
    requires maxKeys >= 2 && s.loginLimit >= 1 && s.window >= 1 && delay > 3.0 * s.window as real
    ensures !RefusalNeedsOthers(maxKeys, s, shortest, delay, 1)
  {
    var n, w := s.loginLimit, s.window as real;
    var late := if delay < 4.0 * w then delay else 4.0 * w;
    FewRounds(s.window);
    AloneShape(n, late, s.window, shortest, delay);
    AloneTable(maxKeys, s, late);
    RepeatLength(late, 4 * n);
    var z := Repeat(late, 4 * n);
    assert |z| == s.loginLimit * 4 && z[0] > Cutoff(Round(4, s.window), s.window) && |{"1"}| == 1;
    hide *;
    AccountRefuses(maxKeys, s, Alone(n, late, s.window), 8 * n, Round(4, s.window), z);
    SeenNow(maxKeys, s, Alone(n, late, s.window), {"1"}, 8 * n, Round(4, s.window), shortest, delay);
  }

  // ---------------------------------------------------------------- exactly how many other addresses it takes

  /** Four addresses exhaust the account, and a fifth finds it exhausted, all at once. */
  lemma {:induction false} FourSuffice(maxKeys: int, s: Settings, shortest: int, delay: real)
    requires maxKeys >= 6 && s.loginLimit >= 1 && s.window >= 1 && delay >= 0.0
    ensures !RefusalNeedsOthers(maxKeys, s, shortest, delay, 5)
  {
    hide *;
    var n := s.loginLimit;
    FifthTable(maxKeys, s);
    FifthShape(n, shortest, delay);
    ZeroFront(2 * n, 0.0, s.window);
    AccountRefuses(maxKeys, s, Crowded([], n) + Starts("5", 1, 0.0), 8 * n, 0.0, Repeat(0.0, 4 * n));
    FiveAddresses();
    RefusalSeen(maxKeys, s, Crowded([], n) + Starts("5", 1, 0.0), {"1", "2", "3", "4", "5"}, 8 * n, 0.0,
                shortest, delay, 0.0);
  }

  lemma FiveAddresses()
    ensures |{"1", "2", "3", "4", "5"}| == 5
  {
    assert "1"[0] != "2"[0] && "1"[0] != "3"[0] && "1"[0] != "4"[0] && "1"[0] != "5"[0] && "2"[0] != "3"[0];
    assert "2"[0] != "4"[0] && "2"[0] != "5"[0] && "3"[0] != "4"[0] && "3"[0] != "5"[0] && "4"[0] != "5"[0];
  }

  lemma FifthTable(maxKeys: int, s: Settings)
    requires maxKeys >= 6 && s.loginLimit >= 1 && s.window >= 1
    ensures var es := Crowded([], s.loginLimit) + Starts("5", 1, 0.0);
            && SmoothRun(maxKeys, s, es) && Account() in TableOf(maxKeys, s, es)
            && TableOf(maxKeys, s, es)[Account()] == Repeat(0.0, 4 * s.loginLimit)
  {
    FifthIsNew();
    hide TableOf, RecordOf, SmoothRun, Pair, Account, Starts, Repeat, Crowded, CrowdKeys, Settled;
    CrowdAlone(maxKeys, s);
    OneMoreKey(maxKeys, s, Crowded([], s.loginLimit), CrowdKeys(), 5, "5");
  }

  lemma FifthIsNew()
    ensures Pair("5") !in CrowdKeys() && Pair("5") != Account()
  {
    Keys("5", "1");
    Keys("5", "2");
    Keys("5", "3");
    Keys("5", "4");
  }

  lemma OneMoreKey(maxKeys: int, s: Settings, es: seq<Event>, keys: set<string>, n: nat, ip: string)
    requires s.loginLimit >= 1 && s.window >= 1 && n < maxKeys && SmoothRun(maxKeys, s, es)
    requires Settled(TableOf(maxKeys, s, es), keys, n, 0.0) && Pair(ip) !in keys
    requires Account() in TableOf(maxKeys, s, es) && Pair(ip) != Account()
    ensures var es' := es + Starts(ip, 1, 0.0);
            && SmoothRun(maxKeys, s, es') && Account() in TableOf(maxKeys, s, es')
            && TableOf(maxKeys, s, es')[Account()] == TableOf(maxKeys, s, es)[Account()]
  {
    assert Prune([], Cutoff(0.0, s.window)) == [];
    hide TableOf, RecordOf, SmoothRun, Pair, Account, Starts, Repeat, Prune;
    StartsAdd(maxKeys, s, es, ip, 1, 0.0);
  }

  lemma FifthShape(n: nat, shortest: int, delay: real)
    requires n >= 1 && delay >= 0.0
    ensures var es := Crowded([], n) + Starts("5", 1, 0.0);
            && Shape(es, {"1", "2", "3", "4", "5"}, shortest, delay, 0.0) && FinishedBelow(es, 8 * n)
            && |es| == 8 * n + 1 && es[8 * n] == Start("5", EMAIL, 0.0)
  {
    var ips := {"1", "2", "3", "4", "5"};
    EmptyShape(ips, shortest, delay, 0.0);
    CrowdedEvents([], n);
    assert Starts("5", 1, 0.0) == [Start("5", EMAIL, 0.0)];
    hide Crowded, Starts, Shape;
    CrowdedShape([], n, ips, shortest, delay, 0.0);
    FinishedBelowMore(Crowded([], n), 4 * n, 8 * n);
    ShapeStarts(Crowded([], n), "5", 1, ips, shortest, delay, 0.0, 0.0);
  }

  /** Fewer others are needed a fortiori. */
  lemma NeedsFewer(maxKeys: int, s: Settings, shortest: int, delay: real, n: nat, m: nat)
    requires m <= n && RefusalNeedsOthers(maxKeys, s, shortest, delay, n)
    ensures RefusalNeedsOthers(maxKeys, s, shortest, delay, m)
  {
    hide RefusedAfter;
    forall es, e | RefusedAfter(maxKeys, s, es, e, shortest, delay) ensures HasOthers(maxKeys, s, es, e, m) {
      assert HasOthers(maxKeys, s, es, e, n);
    }
  }

  /** With delays of up to k - 1 windows and no shorter window elsewhere, n others are needed if k * n <= 4. */
  lemma NeedsOthers(maxKeys: int, s: Settings, shortest: int, delay: real, k: nat, n: nat)
    requires s.loginLimit >= 1 && s.window >= 1 && shortest >= s.window
    requires s.window as real + delay <= k as real * s.window as real && k * n <= 4
    ensures RefusalNeedsOthers(maxKeys, s, shortest, delay, n)
  {
    forall es, e | RefusedAfter(maxKeys, s, es, e, shortest, delay) ensures HasOthers(maxKeys, s, es, e, n) {
      hide *;
      RefusalCounted(maxKeys, s, es, e, shortest, delay, k);
      AtLeast(maxKeys, s, es, e, k, n);
    }
  }

  lemma RefusalCounted(maxKeys: int, s: Settings, es: seq<Event>, e: Event, shortest: int, delay: real, k: nat)
    requires s.loginLimit >= 1 && s.window >= 1 && shortest >= s.window
    requires s.window as real + delay <= k as real * s.window as real
    requires RefusedAfter(maxKeys, s, es, e, shortest, delay)
    ensures e.Finish? && e.login < |es| && es[e.login].Start?
    ensures k * (|OtherIps(maxKeys, s, es, e.email, Cutoff(e.now, s.window), es[e.login].ip)| + 1) > 4
  {
    hide Answer, Section, WellFormed, Protocol, NoForgets, KeysOf, NoShorterWindow, OtherIps, Prompt;
    ProtocolPrefix(maxKeys, s, es, e);
    assert OthersAtLeast(es + [e], shortest);
    NoShorterSection(s, es + [e], shortest);
    assert AllSkewWithin(Requests(s, es + [e]), 0.0);
    assert BudgetSpan(s, 0.0) == s.window as real && Cutoff(e.now, s.window) - 0.0 == Cutoff(e.now, s.window);
    hide AllSkewWithin, NonDecreasing, BudgetSpan;
    AccountRefusalNeedsOtherIps(maxKeys, s, es, e, es[e.login].ip, 0.0, delay, k);
  }

  lemma AtLeast(maxKeys: int, s: Settings, es: seq<Event>, e: Event, k: nat, n: nat)
    requires e.Finish? && e.login < |es| && es[e.login].Start? && k * n <= 4
    requires k * (|OtherIps(maxKeys, s, es, e.email, Cutoff(e.now, s.window), es[e.login].ip)| + 1) > 4
    ensures HasOthers(maxKeys, s, es, e, n)
  {
    hide OtherIps;
    var m := |OtherIps(maxKeys, s, es, e.email, Cutoff(e.now, s.window), es[e.login].ip)|;
    if m + 1 <= n {
      AtMost(k, m + 1, n);
    }
  }

  /** A refused login has begun, whoever else has. */
  lemma NeedsNone(maxKeys: int, s: Settings, shortest: int, delay: real)
    ensures RefusalNeedsOthers(maxKeys, s, shortest, delay, 0)
  {
    forall es, e | RefusedAfter(maxKeys, s, es, e, shortest, delay) ensures HasOthers(maxKeys, s, es, e, 0) {
      hide Answer, Section, WellFormed, Protocol, NonDecreasing, NoForgets, OtherIps, Prompt;
      ProtocolPrefix(maxKeys, s, es, e);
    }
  }

  /** The number of other addresses it takes, by the delay between the two sections of a login. */
  function OthersNeeded(s: Settings, delay: real): nat {
    if delay == 0.0 then 4
    else if delay <= s.window as real then 2
    else if delay <= 3.0 * s.window as real then 1
    else 0
  }

  lemma NeedsThatMany(maxKeys: int, s: Settings, shortest: int, delay: real)
    requires s.loginLimit >= 1 && 1 <= s.window <= shortest && delay >= 0.0
    ensures RefusalNeedsOthers(maxKeys, s, shortest, delay, OthersNeeded(s, delay))
  {
    hide RefusalNeedsOthers;
    if delay == 0.0 {
      NeedsOthers(maxKeys, s, shortest, delay, 1, 4);
    } else if delay <= s.window as real {
      NeedsOthers(maxKeys, s, shortest, delay, 2, 2);
    } else if delay <= 3.0 * s.window as real {
      NeedsOthers(maxKeys, s, shortest, delay, 4, 1);
    } else {
      NeedsNone(maxKeys, s, shortest, delay);
    }
  }

  lemma NeedsNoMore(maxKeys: int, s: Settings, shortest: int, delay: real)
    requires maxKeys >= 6 && s.loginLimit >= 1 && s.window >= 1 && delay >= 0.0
    ensures !RefusalNeedsOthers(maxKeys, s, shortest, delay, OthersNeeded(s, delay) + 1)
  {
    hide RefusalNeedsOthers;
    if delay == 0.0 {
      FourSuffice(maxKeys, s, shortest, delay);
    } else if delay <= s.window as real {
      DelayLocksOut(maxKeys, s, shortest, delay);
    } else if delay <= 3.0 * s.window as real {
      LongDelayLocksOut(maxKeys, s, shortest, delay);
    } else {
      VeryLongDelayLocksOut(maxKeys, s, shortest, delay);
    }
  }

  /**
    * How many other addresses it takes to lock an account, when no other scope's window is shorter: exactly four
    * without delay between the two sections of a login, two with any delay of up to one window, one with delays of
    * up to three windows, and none beyond.
    */
  lemma {:induction false} OthersNeededIff(maxKeys: int, s: Settings, shortest: int, delay: real, n: nat)
    requires maxKeys >= 6 && s.loginLimit >= 1 && 1 <= s.window <= shortest && delay >= 0.0
    ensures RefusalNeedsOthers(maxKeys, s, shortest, delay, n) <==> n <= OthersNeeded(s, delay)
  {
    hide RefusalNeedsOthers, OthersNeeded;
    NeedsThatMany(maxKeys, s, shortest, delay);
    NeedsNoMore(maxKeys, s, shortest, delay);
    if n <= OthersNeeded(s, delay) {
      NeedsFewer(maxKeys, s, shortest, delay, OthersNeeded(s, delay), n);
    } else if RefusalNeedsOthers(maxKeys, s, shortest, delay, n) {
      NeedsFewer(maxKeys, s, shortest, delay, n, OthersNeeded(s, delay) + 1);
    }
  }

  /**
    * An account refusal takes four other addresses in every run if and only if no other scope's window is shorter
    * than the login's and no time passes between the two sections of a login.
    */
  lemma {:induction false} FourOthersIff(maxKeys: int, s: Settings, shortest: int, delay: real)
    requires maxKeys >= 5 && s.loginLimit >= 1 && s.window >= 1 && shortest >= 1 && delay >= 0.0
    ensures RefusalNeedsOthers(maxKeys, s, shortest, delay, 4) <==> shortest >= s.window && delay == 0.0
  {
    hide RefusalNeedsOthers;
    if shortest >= s.window && delay == 0.0 {
      NeedsOthers(maxKeys, s, shortest, delay, 1, 4);
    } else if RefusalNeedsOthers(maxKeys, s, shortest, delay, 4) {
      NeedsFewer(maxKeys, s, shortest, delay, 4, 3);
      if shortest < s.window {
        ShortWindowLocksOut(maxKeys, s, shortest, delay);
      } else {
        DelayLocksOut(maxKeys, s, shortest, delay);
      }
    }
  }
}
