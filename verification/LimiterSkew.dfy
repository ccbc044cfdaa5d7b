/** The window bound when threads append out of order: the clock of app/ratelimit.py is read outside the lock. */
module LimiterSkew {
  import opened Prelude
  import opened Stamps
  import opened RateLimiter
  import opened LimiterRuns
  import opened LimiterMemory
  import opened LimiterScenarios
  import opened LimiterEviction

  /** Readings for the key, in lock order, fall at most `skew` below an earlier one. */
  predicate SkewWithin(rs: seq<Request>, key: string, skew: real) {
    forall i, j | 0 <= i < j < |rs| && rs[i].Hit? && rs[j].Hit? && rs[i].key == key && rs[j].key == key ::
      rs[j].now >= rs[i].now - skew
  }

  /** What an eviction of the key dropped is too old to matter to any later hit on the key. */
  predicate EvictionsAged(maxKeys: int, rs: seq<Request>, key: string, window: int, skew: real) {
    forall i, j | 0 <= i < j < |rs| && rs[j].Hit? && rs[j].key == key && EvictsKey(maxKeys, rs[..i], rs[i], key) ::
      UpTo(BucketOf(Run(maxKeys, rs[..i]), key), Cutoff(rs[j].now, window) + skew)
  }

  /** One request keeps deque and record in agreement beyond a cutoff that covers its own. */
  lemma StepKeepsLive(maxKeys: int, rs: seq<Request>, r: Request, key: string, cutoff: real)
    requires r.Hit? && r.key == key ==> Cutoff(r.now, r.window) <= cutoff
    requires EvictsKey(maxKeys, rs, r, key) ==> UpTo(BucketOf(Run(maxKeys, rs), key), cutoff)
    requires Live(BucketOf(Run(maxKeys, rs), key), cutoff) == Live(Log(maxKeys, rs, key), cutoff)
    ensures Live(BucketOf(Step(Run(maxKeys, rs), maxKeys, r).0, key), cutoff)
            == Live(LogAt(maxKeys, rs, r, key)
                    + (if r.Hit? && r.key == key && Answer(maxKeys, rs, r).Admitted? then [r.now] else []), cutoff)
  {
    var bucket, log := BucketOf(Run(maxKeys, rs), key), LogAt(maxKeys, rs, r, key);
    assert log + [] == log;
    if EvictsKey(maxKeys, rs, r, key) {
      LiveNone(bucket, cutoff);
    }
    if r.Hit? && r.key == key {
      var c := Cutoff(r.now, r.window);
      PruneKeepsLive(BucketOf(Opened(Run(maxKeys, rs), key, c, maxKeys), key), c, cutoff);
      LiveAppend(Prune(bucket, c), r.now, cutoff);
      LiveAppend(log, r.now, cutoff);
    }
  }

  predicate CutoffsUpTo(rs: seq<Request>, key: string, cutoff: real) {
    forall i | 0 <= i < |rs| && rs[i].Hit? && rs[i].key == key :: Cutoff(rs[i].now, rs[i].window) <= cutoff
  }

  predicate EvictionsUpTo(maxKeys: int, rs: seq<Request>, key: string, cutoff: real) {
    forall i | 0 <= i < |rs| && EvictsKey(maxKeys, rs[..i], rs[i], key) ::
      UpTo(BucketOf(Run(maxKeys, rs[..i]), key), cutoff)
  }

  lemma EvictionsUpToPrefix(maxKeys: int, rs: seq<Request>, key: string, cutoff: real)
    requires rs != [] && EvictionsUpTo(maxKeys, rs, key, cutoff)
    ensures var rs0, r := rs[..|rs| - 1], rs[|rs| - 1];
            && EvictionsUpTo(maxKeys, rs0, key, cutoff)
            && (EvictsKey(maxKeys, rs0, r, key) ==> UpTo(BucketOf(Run(maxKeys, rs0), key), cutoff))
  {
    var rs0 := rs[..|rs| - 1];
    forall i | 0 <= i < |rs0| && EvictsKey(maxKeys, rs0[..i], rs0[i], key)
      ensures UpTo(BucketOf(Run(maxKeys, rs0[..i]), key), cutoff)
    {
      assert rs0[..i] == rs[..i];
    }
  }

  /** Deque and record agree beyond every cutoff used so far, in whatever order entries were appended. */
  lemma {:induction false} UnsortedTracks(maxKeys: int, rs: seq<Request>, key: string, cutoff: real)
    requires CutoffsUpTo(rs, key, cutoff) && EvictionsUpTo(maxKeys, rs, key, cutoff)
    ensures Live(BucketOf(Run(maxKeys, rs), key), cutoff) == Live(Log(maxKeys, rs, key), cutoff)
  {
    if rs != [] {
      var rs0, r := rs[..|rs| - 1], rs[|rs| - 1];
      EvictionsUpToPrefix(maxKeys, rs, key, cutoff);
      UnsortedTracks(maxKeys, rs0, key, cutoff);
      StepKeepsLive(maxKeys, rs0, r, key, cutoff);
      assert LogAt(maxKeys, rs0, r, key) + [] == LogAt(maxKeys, rs0, r, key);
    }
  }

  lemma EvictionsAgedPrefix(maxKeys: int, rs: seq<Request>, key: string, window: int, skew: real)
    requires rs != [] && EvictionsAged(maxKeys, rs, key, window, skew)
    ensures EvictionsAged(maxKeys, rs[..|rs| - 1], key, window, skew)
  {
    var rs0 := rs[..|rs| - 1];
    forall i, j | 0 <= i < j < |rs0| && rs0[j].Hit? && rs0[j].key == key && EvictsKey(maxKeys, rs0[..i], rs0[i], key)
      ensures UpTo(BucketOf(Run(maxKeys, rs0[..i]), key), Cutoff(rs0[j].now, window) + skew)
    {
      assert rs0[..i] == rs[..i];
    }
  }

  lemma AdmittedBelowLimit(maxKeys: int, rs: seq<Request>, r: Request)
    requires r.Hit? && Answer(maxKeys, rs, r).Admitted?
    ensures |Prune(BucketOf(Run(maxKeys, rs), r.key), Cutoff(r.now, r.window))| < r.limit
  {
  }

  lemma SkewCutoffs(rs: seq<Request>, r: Request, window: int, skew: real)
    requires r.Hit? && KeyWindow(rs, r.key, window) && SkewWithin(rs + [r], r.key, skew)
    ensures CutoffsUpTo(rs, r.key, Cutoff(r.now, window) + skew)
  {
    var all := rs + [r];
    forall i | 0 <= i < |rs| && rs[i].Hit? && rs[i].key == r.key
      ensures Cutoff(rs[i].now, rs[i].window) <= Cutoff(r.now, window) + skew
    {
      assert all[i] == rs[i] && all[|rs|] == r;
    }
  }

  lemma AgedForNext(maxKeys: int, rs: seq<Request>, r: Request, window: int, skew: real)
    requires r.Hit? && EvictionsAged(maxKeys, rs + [r], r.key, window, skew)
    ensures EvictionsUpTo(maxKeys, rs, r.key, Cutoff(r.now, window) + skew)
  {
    var all := rs + [r];
    forall i | 0 <= i < |rs| && EvictsKey(maxKeys, rs[..i], rs[i], r.key)
      ensures UpTo(BucketOf(Run(maxKeys, rs[..i]), r.key), Cutoff(r.now, window) + skew)
    {
      assert all[..i] == rs[..i] && all[i] == rs[i] && all[|rs|] == r;
    }
  }

  /** An admission is preceded by fewer than `limit` recorded admissions in any interval that reaches it. */
  lemma AdmissionHasRoom(maxKeys: int, rs: seq<Request>, r: Request, limit: int, window: int, skew: real, from: real)
    requires r.Hit? && r.limit == limit && r.window == window && skew >= 0.0
    requires CutoffsUpTo(rs, r.key, Cutoff(r.now, window) + skew)
    requires EvictionsUpTo(maxKeys, rs, r.key, Cutoff(r.now, window) + skew)
    requires Answer(maxKeys, rs, r).Admitted? && !Forgets(maxKeys, rs, r)
    requires r.now < from + window as real - skew
    ensures CountIn(Log(maxKeys, rs, r.key), from, from + window as real - skew) < limit
  {
    hide Log, Run, Live, CountIn, Step, Prune, CutoffsUpTo, EvictionsUpTo;
    var c := Cutoff(r.now, window);
    var bucket := BucketOf(Run(maxKeys, rs), r.key);
    UnsortedTracks(maxKeys, rs, r.key, c + skew);
    PruneKeepsLive(bucket, c, c + skew);
    LiveMembers(Prune(bucket, c), c + skew);
    AdmittedBelowLimit(maxKeys, rs, r);
    CountWithinLive(Log(maxKeys, rs, r.key), c + skew, from, from + window as real - skew);
  }

  /** Any interval shorter than the window by the skew holds at most `limit` admissions. */
  lemma {:induction false} WindowBound(maxKeys: int, rs: seq<Request>, key: string, limit: int, window: int,
                                       skew: real, from: real)
    requires limit >= 1 && skew >= 0.0
    requires Limited(rs, key, limit) && KeyWindow(rs, key, window) && SkewWithin(rs, key, skew)
    requires EvictionsAged(maxKeys, rs, key, window, skew)
    ensures CountIn(Log(maxKeys, rs, key), from, from + window as real - skew) <= limit
  {
    if rs != [] {
      var rs0, r := rs[..|rs| - 1], rs[|rs| - 1];
      assert rs0 + [r] == rs;
      var to := from + window as real - skew;
      EvictionsAgedPrefix(maxKeys, rs, key, window, skew);
      WindowBound(maxKeys, rs0, key, limit, window, skew, from);
      if r.Hit? && r.key == key && Answer(maxKeys, rs0, r).Admitted? {
        var kept := LogAt(maxKeys, rs0, r, key);
        assert Log(maxKeys, rs, key)[..|kept|] == kept;
        if from <= r.now < to && !Forgets(maxKeys, rs0, r) {
          SkewCutoffs(rs0, r, window, skew);
          AgedForNext(maxKeys, rs0, r, window, skew);
          AdmissionHasRoom(maxKeys, rs0, r, limit, window, skew, from);
        }
      }
    }
  }

  // ---------------------------------------------------------------- how old evicted entries are

  predicate Skewed(s: seq<real>, skew: real) {
    forall i, j | 0 <= i < j < |s| :: s[j] >= s[i] - skew
  }

  /** The deque inherits the skew of the readings. */
  lemma {:induction false} BucketSkewed(maxKeys: int, rs: seq<Request>, key: string, skew: real, t: real)
    requires AllSkewWithin(rs, skew)
    requires TimesUpTo(rs, t)
    ensures Skewed(BucketOf(Run(maxKeys, rs), key), skew) && UpTo(BucketOf(Run(maxKeys, rs), key), t)
  {
    if rs != [] {
      var rs0, r := rs[..|rs| - 1], rs[|rs| - 1];
      BucketSkewed(maxKeys, rs0, key, skew, t);
      if r.Hit? && r.key == key {
        BucketSkewed(maxKeys, rs0, key, skew, r.now + skew);
        StepKeepsSkewed(Run(maxKeys, rs0), maxKeys, r, skew, t);
      }
    }
  }

  lemma StepKeepsSkewed(h: Table, maxKeys: int, r: Request, skew: real, t: real)
    requires r.Hit? && r.now <= t && Skewed(BucketOf(h, r.key), skew)
    requires UpTo(BucketOf(h, r.key), t) && UpTo(BucketOf(h, r.key), r.now + skew)
    ensures Skewed(BucketOf(Step(h, maxKeys, r).0, r.key), skew) && UpTo(BucketOf(Step(h, maxKeys, r).0, r.key), t)
  {
    PruneIsSuffix(BucketOf(h, r.key), Cutoff(r.now, r.window));
  }

  lemma FewKeysNeverEvict(maxKeys: int, rs: seq<Request>, key: string, i: nat)
    requires i < |rs| && |KeysOf(rs)| <= maxKeys
    ensures !EvictsKey(maxKeys, rs[..i], rs[i], key)
  {
    SubsetOfKeys(rs, i + 1);
    assert rs[..i] + [rs[i]] == rs[..i + 1];
    hide Run, Forgets;
    if rs[i].Hit? {
      FewKeysNeedNoRoom(maxKeys, rs[..i], rs[i]);
    }
  }

  /** The newest entry is at or before the cutoff, so no entry is more than the skew after it. */
  lemma EvictedAged(maxKeys: int, rs: seq<Request>, r: Request, key: string, skew: real, t: real)
    requires skew >= 0.0 && AllSkewWithin(rs, skew) && TimesUpTo(rs, t) && EvictsKey(maxKeys, rs, r, key)
    ensures UpTo(BucketOf(Run(maxKeys, rs), key), Cutoff(r.now, r.window) + skew)
  {
    hide Run, Forgets, NeedsRoom, AllSkewWithin, TimesUpTo;
    BucketSkewed(maxKeys, rs, key, skew, t);
  }

  /** An eviction looks only at the newest entry, so it may drop entries that are younger by the skew. */
  lemma EvictionsAreAged(maxKeys: int, rs: seq<Request>, key: string, window: int, skew: real)
    requires skew >= 0.0 && Accommodated(maxKeys, rs, window) && AllSkewWithin(rs, skew)
    ensures EvictionsAged(maxKeys, rs, key, window, 2.0 * skew)
  {
    hide Run, KeysOf;
    forall i, j | 0 <= i < j < |rs| && rs[j].Hit? && rs[j].key == key && EvictsKey(maxKeys, rs[..i], rs[i], key)
      ensures UpTo(BucketOf(Run(maxKeys, rs[..i]), key), Cutoff(rs[j].now, window) + 2.0 * skew)
    {
      if |KeysOf(rs)| <= maxKeys {
        FewKeysNeverEvict(maxKeys, rs, key, i);
      } else {
        assert rs[i].window >= window && rs[j].now >= rs[i].now - skew;
        var t := rs[i].now + skew;
        assert AllSkewWithin(rs[..i], skew) && TimesUpTo(rs[..i], t);
        hide NoShorterWindow, AllSkewWithin, TimesUpTo;
        EvictedAged(maxKeys, rs[..i], rs[i], key, skew, t);
      }
    }
  }

  lemma SingleEvicted(maxKeys: int, rs: seq<Request>, r: Request, key: string)
    requires EvictsKey(maxKeys, rs, r, key) && Limited(rs, key, 1)
    ensures UpTo(BucketOf(Run(maxKeys, rs), key), Cutoff(r.now, r.window))
  {
    BucketBounded(maxKeys, rs, key, 1);
  }

  /** A deque that never holds more than one entry is dropped as a whole only when that entry is old enough. */
  lemma SingleEvictionsAreAged(maxKeys: int, rs: seq<Request>, key: string, window: int, skew: real)
    requires skew >= 0.0 && Accommodated(maxKeys, rs, window) && AllSkewWithin(rs, skew) && Limited(rs, key, 1)
    ensures EvictionsAged(maxKeys, rs, key, window, skew)
  {
    hide Run, KeysOf;
    forall i, j | 0 <= i < j < |rs| && rs[j].Hit? && rs[j].key == key && EvictsKey(maxKeys, rs[..i], rs[i], key)
      ensures UpTo(BucketOf(Run(maxKeys, rs[..i]), key), Cutoff(rs[j].now, window) + skew)
    {
      if |KeysOf(rs)| <= maxKeys {
        FewKeysNeverEvict(maxKeys, rs, key, i);
      } else {
        assert rs[i].window >= window && rs[j].now >= rs[i].now - skew;
        hide NoShorterWindow, AllSkewWithin;
        SingleEvicted(maxKeys, rs[..i], rs[i], key);
      }
    }
  }

  // ---------------------------------------------------------------- one admission per window

  /** The deque is the newest entry of the record, unless an eviction dropped that. */
  predicate Single(bucket: seq<real>, log: seq<real>, cutoff: real) {
    if log == [] then bucket == []
    else bucket == [log[|log| - 1]] || (bucket == [] && log[|log| - 1] <= cutoff)
  }

  lemma SingleHit(bucket: seq<real>, log: seq<real>, cutoff: real, c: real, now: real)
    requires Single(bucket, log, cutoff)
    ensures Prune(bucket, c) == bucket || Prune(bucket, c) == []
    ensures |Prune(bucket, c)| >= 1 ==> Prune(bucket, c) == bucket && Single(bucket, log, cutoff)
    ensures |Prune(bucket, c)| < 1 ==> Single(Prune(bucket, c) + [now], log + [now], cutoff)
  {
  }

  lemma SingleOther(maxKeys: int, rs: seq<Request>, r: Request, key: string, cutoff: real)
    requires r.Hit? ==> r.key != key
    requires EvictsKey(maxKeys, rs, r, key) ==> UpTo(BucketOf(Run(maxKeys, rs), key), cutoff)
    requires Single(BucketOf(Run(maxKeys, rs), key), Log(maxKeys, rs, key), cutoff)
    ensures Single(BucketOf(Step(Run(maxKeys, rs), maxKeys, r).0, key), LogAt(maxKeys, rs, r, key), cutoff)
  {
    hide Run, Step, Forgets, EvictsKey;
    OtherBucket(maxKeys, rs, r, key);
    var bucket := BucketOf(Run(maxKeys, rs), key);
    assert EvictsKey(maxKeys, rs, r, key) && bucket != [] ==> bucket[0] <= cutoff;
  }

  lemma SingleOwn(maxKeys: int, rs: seq<Request>, r: Request, cutoff: real)
    requires r.Hit? && r.limit == 1
    requires Single(BucketOf(Run(maxKeys, rs), r.key), Log(maxKeys, rs, r.key), cutoff)
    ensures Single(BucketOf(Step(Run(maxKeys, rs), maxKeys, r).0, r.key),
                   LogAt(maxKeys, rs, r, r.key) + (if Answer(maxKeys, rs, r).Admitted? then [r.now] else []), cutoff)
  {
    var bucket, log := BucketOf(Run(maxKeys, rs), r.key), LogAt(maxKeys, rs, r, r.key);
    assert Forgets(maxKeys, rs, r) ==> bucket == [];
    assert Single(bucket, log, cutoff);
    hide Run, Step, Forgets, Prune, Single;
    OwnBucket(Run(maxKeys, rs), maxKeys, r);
    SingleHit(bucket, log, cutoff, Cutoff(r.now, r.window), r.now);
    assert log + [] == log;
  }

  lemma SingleStep(maxKeys: int, rs: seq<Request>, r: Request, key: string, cutoff: real)
    requires r.Hit? && r.key == key ==> r.limit == 1
    requires EvictsKey(maxKeys, rs, r, key) ==> UpTo(BucketOf(Run(maxKeys, rs), key), cutoff)
    requires Single(BucketOf(Run(maxKeys, rs), key), Log(maxKeys, rs, key), cutoff)
    ensures Single(BucketOf(Run(maxKeys, rs + [r]), key), Log(maxKeys, rs + [r], key), cutoff)
  {
    assert (rs + [r])[..|rs|] == rs;
    hide Step, Single, Forgets, EvictsKey, LogAt;
    if r.Hit? && r.key == key {
      SingleOwn(maxKeys, rs, r, cutoff);
      assert LogAt(maxKeys, rs, r, key) + [] == LogAt(maxKeys, rs, r, key);
    } else {
      SingleOther(maxKeys, rs, r, key, cutoff);
    }
  }

  /** At limit one the deque is a single entry in every run, whatever the clock does. */
  lemma {:induction false} SingleEntry(maxKeys: int, rs: seq<Request>, key: string, cutoff: real)
    requires Limited(rs, key, 1) && EvictionsUpTo(maxKeys, rs, key, cutoff)
    ensures Single(BucketOf(Run(maxKeys, rs), key), Log(maxKeys, rs, key), cutoff)
  {
    hide *;
    if rs == [] {
      SingleNone(maxKeys, key, cutoff);
    } else {
      var rs0, r := rs[..|rs| - 1], rs[|rs| - 1];
      LimitedPrefix(rs, key, 1);
      EvictionsUpToPrefix(maxKeys, rs, key, cutoff);
      SingleEntry(maxKeys, rs0, key, cutoff);
      assert rs0 + [r] == rs;
      SingleStep(maxKeys, rs0, r, key, cutoff);
    }
  }

  lemma SingleNone(maxKeys: int, key: string, cutoff: real)
    ensures Single(BucketOf(Run(maxKeys, []), key), Log(maxKeys, [], key), cutoff)
  {
  }

  lemma LimitedPrefix(rs: seq<Request>, key: string, limit: int)
    requires rs != [] && Limited(rs, key, limit)
    ensures Limited(rs[..|rs| - 1], key, limit)
    ensures var r := rs[|rs| - 1]; r.Hit? && r.key == key ==> r.limit == limit
  {
  }

  /** Consecutive admissions are a window apart, less what an eviction may have dropped too early. */
  lemma {:induction false} SinglesSpaced(maxKeys: int, rs: seq<Request>, key: string, window: int, slack: real)
    requires Limited(rs, key, 1) && KeyWindow(rs, key, window) && EvictionsAged(maxKeys, rs, key, window, slack)
    requires 0.0 <= slack <= window as real
    ensures Spaced(Log(maxKeys, rs, key), window as real - slack)
  {
    if rs != [] {
      var rs0, r := rs[..|rs| - 1], rs[|rs| - 1];
      assert rs0 + [r] == rs;
      EvictionsAgedPrefix(maxKeys, rs, key, window, slack);
      SinglesSpaced(maxKeys, rs0, key, window, slack);
      if r.Hit? && r.key == key && Answer(maxKeys, rs0, r).Admitted? && !Forgets(maxKeys, rs0, r) {
        AgedForNext(maxKeys, rs0, r, window, slack);
        hide EvictionsAged;
        SingleEntry(maxKeys, rs0, key, Cutoff(r.now, window) + slack);
        AdmittedBelowLimit(maxKeys, rs0, r);
        hide Run, Step;
        SpacedAppend(Log(maxKeys, rs0, key), BucketOf(Run(maxKeys, rs0), key), r.now, window, slack);
      }
    }
  }

  lemma SpacedAppend(log: seq<real>, bucket: seq<real>, now: real, window: int, slack: real)
    requires 0.0 <= slack <= window as real && Spaced(log, window as real - slack)
    requires Single(bucket, log, Cutoff(now, window) + slack) && Prune(bucket, Cutoff(now, window)) == []
    ensures Spaced(log + [now], window as real - slack)
  {
    if log != [] {
      var last := log[|log| - 1];
      assert bucket != [] ==> bucket[0] <= Cutoff(now, window);
      assert last <= Cutoff(now, window) + slack;
      forall i | 0 <= i < |log| ensures now >= log[i] + (window as real - slack) {
        assert i < |log| - 1 ==> log[|log| - 1] >= log[i] + (window as real - slack);
      }
    }
  }

  // ---------------------------------------------------------------- how much an interval can hold

  /** The key is used with one limit and one window, its readings are skewed a little, and it is never evicted. */
  predicate KeptRun(maxKeys: int, rs: seq<Request>, key: string, limit: int, window: int, skew: real) {
    && Limited(rs, key, limit) && KeyWindow(rs, key, window) && SkewWithin(rs, key, skew)
    && forall i | 0 <= i < |rs| :: !EvictsKey(maxKeys, rs[..i], rs[i], key)
  }

  /** Evictions may happen, but the key is accommodated; all readings are skewed a little. */
  predicate SharedRun(maxKeys: int, rs: seq<Request>, key: string, limit: int, window: int, skew: real) {
    && Limited(rs, key, limit) && KeyWindow(rs, key, window)
    && Accommodated(maxKeys, rs, window) && AllSkewWithin(rs, skew)
  }

  predicate Holds(maxKeys: int, rs: seq<Request>, key: string, limit: int, from: real, length: real) {
    CountIn(Log(maxKeys, rs, key), from, from + length) <= limit
  }

  /** Threads that append out of order cost the bound no more than the skew, and at limit one nothing. */
  lemma SkewTolerantWindow(maxKeys: int, rs: seq<Request>, key: string, limit: int, window: int,
                           skew: real, from: real, length: real)
    requires limit >= 1 && window >= 1 && skew >= 0.0 && KeptRun(maxKeys, rs, key, limit, window, skew)
    requires length <= if limit == 1 then window as real else window as real - skew
    ensures Holds(maxKeys, rs, key, limit, from, length)
  {
    hide Log, Run, CountIn, EvictsKey;
    var log := Log(maxKeys, rs, key);
    if limit == 1 {
      SinglesSpaced(maxKeys, rs, key, window, 0.0);
      SpacedCount(log, window as real, from, from + length);
    } else {
      WindowBound(maxKeys, rs, key, limit, window, skew, from);
      CountWider(log, from, from + length, from + window as real - skew);
    }
  }

  /** Across evictions the skew is paid once more: `_evict` looks only at the newest entry. */
  lemma SkewTolerantWindowAcrossEviction(maxKeys: int, rs: seq<Request>, key: string, limit: int, window: int,
                                         skew: real, from: real, length: real)
    requires limit >= 1 && skew >= 0.0 && length > 0.0 && SharedRun(maxKeys, rs, key, limit, window, skew)
    requires length <= if limit == 1 then window as real - skew else window as real - 2.0 * skew
    ensures Holds(maxKeys, rs, key, limit, from, length)
  {
    hide Log, Run, CountIn, EvictsKey, EvictionsAged;
    var log := Log(maxKeys, rs, key);
    if limit == 1 {
      SingleEvictionsAreAged(maxKeys, rs, key, window, skew);
      SinglesSpaced(maxKeys, rs, key, window, skew);
      SpacedCount(log, window as real - skew, from, from + length);
    } else {
      SkewOfKey(rs, key, skew);
      EvictionsAreAged(maxKeys, rs, key, window, skew);
      WindowBound(maxKeys, rs, key, limit, window, 2.0 * skew, from);
      CountWider(log, from, from + length, from + window as real - 2.0 * skew);
    }
  }

  lemma SkewOfKey(rs: seq<Request>, key: string, skew: real)
    requires skew >= 0.0 && AllSkewWithin(rs, skew)
    ensures SkewWithin(rs, key, 2.0 * skew)
  {
  }

  // ---------------------------------------------------------------- exactly which intervals are bounded

  ghost predicate BoundWhileKept(maxKeys: int, key: string, limit: int, window: int, skew: real, length: real) {
    forall rs, from | KeptRun(maxKeys, rs, key, limit, window, skew) ::
      Holds(maxKeys, rs, key, limit, from, length)
  }

  ghost predicate BoundAcrossEviction(maxKeys: int, key: string, limit: int, window: int, skew: real, length: real) {
    forall rs, from | SharedRun(maxKeys, rs, key, limit, window, skew) ::
      Holds(maxKeys, rs, key, limit, from, length)
  }

  /**
    * While the key is kept, every interval of a length holds at most `limit` admissions in every run if and only
    * if the length is at most the window, less the skew from limit two on.
    */
  lemma {:induction false} BoundWhileKeptIff(maxKeys: int, key: string, limit: int, window: int, skew: real,
                                             length: real)
    requires maxKeys >= 1 && limit >= 1 && window >= 1 && skew >= 0.0 && length > 0.0
    ensures BoundWhileKept(maxKeys, key, limit, window, skew, length)
            <==> length <= if limit == 1 then window as real else window as real - skew
  {
    hide KeptRun, Holds;
    if length <= if limit == 1 then window as real else window as real - skew {
      forall rs, from | KeptRun(maxKeys, rs, key, limit, window, skew)
        ensures Holds(maxKeys, rs, key, limit, from, length)
      {
        SkewTolerantWindow(maxKeys, rs, key, limit, window, skew, from, length);
      }
    } else {
      LateReadingOverfills(maxKeys, key, limit, window, skew, length);
    }
  }

  /** When the key is only accommodated, evictions cost the bound the skew once more. */
  lemma {:induction false} BoundAcrossEvictionIff(maxKeys: int, key: string, limit: int, window: int, skew: real,
                                                  length: real)
    requires maxKeys >= 2 && limit >= 1 && window >= 1 && skew >= 0.0 && length > 0.0
    ensures BoundAcrossEviction(maxKeys, key, limit, window, skew, length)
            <==> length <= if limit == 1 then window as real - skew else window as real - 2.0 * skew
  {
    hide SharedRun, Holds;
    if length <= if limit == 1 then window as real - skew else window as real - 2.0 * skew {
      forall rs, from | SharedRun(maxKeys, rs, key, limit, window, skew)
        ensures Holds(maxKeys, rs, key, limit, from, length)
      {
        SkewTolerantWindowAcrossEviction(maxKeys, rs, key, limit, window, skew, from, length);
      }
    } else {
      EvictionOverfills(maxKeys, key, limit, window, skew, length);
    }
  }

  // ---------------------------------------------------------------- runs that overfill longer intervals

  /** Hits on one key at the given readings. */
  function Hits(key: string, limit: int, window: int, ts: seq<real>): seq<Request> {
    seq(|ts|, i requires 0 <= i < |ts| => Hit(key, limit, window, ts[i]))
  }

  /** A full burst, a hit that prunes it all, and, if there is room, a reading that is late. */
  function LateTimes(limit: nat, window: int, late: real): seq<real> {
    var ts := Repeat(0.0, limit) + [window as real];
    if limit == 1 then ts else ts + [window as real - late]
  }

  /** A late reading after a full deque was pruned: the interval from the burst to it holds one too many. */
  lemma {:induction false} LateReadingOverfills(maxKeys: int, key: string, limit: int, window: int, skew: real,
                                                length: real)
    requires maxKeys >= 1 && limit >= 1 && window >= 1 && skew >= 0.0 && length > 0.0
    requires length > if limit == 1 then window as real else window as real - skew
    ensures !BoundWhileKept(maxKeys, key, limit, window, skew, length)
  {
    hide Log, Run, LateTimes, KeptRun, EvictsKey;
    var late := if skew < window as real then skew else window as real;
    var ts := LateTimes(limit, window, late);
    var rs := Hits(key, limit, window, ts);
    LateRunLog(maxKeys, key, limit, window, late);
    LateCount(limit, window, late, length);
    LateRunKept(maxKeys, key, limit, window, late, skew);
    assert !Holds(maxKeys, rs, key, limit, 0.0, length);
  }

  lemma LateCount(limit: nat, window: int, late: real, length: real)
    requires limit >= 1 && window >= 1 && 0.0 <= late <= window as real && length > 0.0
    requires length > if limit == 1 then window as real else window as real - late
    ensures CountIn(LateTimes(limit, window, late), 0.0, 0.0 + length) > limit
  {
    var burst := Repeat(0.0, limit);
    CountRepeat(0.0, limit, 0.0, length);
    CountAppend(burst, window as real, 0.0, length);
    if limit > 1 {
      CountAppend(burst + [window as real], window as real - late, 0.0, length);
    }
  }

  lemma LateRunKept(maxKeys: int, key: string, limit: int, window: int, late: real, skew: real)
    requires limit >= 1 && window >= 1 && 0.0 <= late <= window as real && late <= skew
    ensures KeptRun(maxKeys, Hits(key, limit, window, LateTimes(limit, window, late)), key, limit, window, skew)
  {
    hide Run;
    var ts := LateTimes(limit, window, late);
    RepeatLength(0.0, limit);
    assert forall i, j | 0 <= i < j < |ts| :: ts[j] >= ts[i] - late;
    var rs := Hits(key, limit, window, ts);
    assert forall i | 0 <= i < |rs| :: rs[i] == Hit(key, limit, window, ts[i]);
  }

  /** The hit one window after the burst leaves its own reading only. */
  lemma LatePruned(maxKeys: int, key: string, limit: int, window: int)
    requires maxKeys >= 1 && limit >= 1 && window >= 1
    ensures var rs := Hits(key, limit, window, Repeat(0.0, limit) + [window as real]);
            && Run(maxKeys, rs) == map[key := [window as real]]
            && Log(maxKeys, rs, key) == Repeat(0.0, limit) + [window as real]
  {
    hide Run, Log, Hits, Repeat;
    BurstFromEmpty(maxKeys, key, limit, window);
    RepeatUpTo(0.0, limit);
    PruneNone(Repeat(0.0, limit), 0.0);
    HitsAppend(key, limit, window, Repeat(0.0, limit), window as real);
    assert [] + [window as real] == [window as real];
    hide Prune;
    NextHit(maxKeys, Hits(key, limit, window, Repeat(0.0, limit)), key, limit, window, Repeat(0.0, limit),
            window as real, []);
  }

  lemma LateRunLog(maxKeys: int, key: string, limit: int, window: int, late: real)
    requires maxKeys >= 1 && limit >= 1 && window >= 1 && 0.0 <= late <= window as real
    ensures var ts := LateTimes(limit, window, late);
            Log(maxKeys, Hits(key, limit, window, ts), key) == ts
  {
    hide Run, Log, Hits, Repeat;
    LatePruned(maxKeys, key, limit, window);
    if limit > 1 {
      var ts := Repeat(0.0, limit) + [window as real];
      HitsAppend(key, limit, window, ts, window as real - late);
      hide *;
      LateAppended(maxKeys, Hits(key, limit, window, ts), key, limit, window, late, ts);
      LateTimesIs(limit, window, late);
    }
  }

  lemma LateTimesIs(limit: nat, window: int, late: real)
    requires limit > 1
    ensures LateTimes(limit, window, late) == (Repeat(0.0, limit) + [window as real]) + [window as real - late]
  {
  }

  lemma LateAppended(maxKeys: int, rs: seq<Request>, key: string, limit: int, window: int, late: real, log: seq<real>)
    requires limit > 1 && window >= 1 && late >= 0.0
    requires Run(maxKeys, rs) == map[key := [window as real]] && Log(maxKeys, rs, key) == log
    ensures Log(maxKeys, rs + [Hit(key, limit, window, window as real - late)], key) == log + [window as real - late]
  {
    var t := window as real - late;
    assert Prune([window as real], Cutoff(t, window)) == [window as real];
    hide Run, Log, Prune;
    NextHit(maxKeys, rs, key, limit, window, log, t, [window as real]);
  }

  lemma HitsAppend(key: string, limit: int, window: int, ts: seq<real>, t: real)
    ensures Hits(key, limit, window, ts + [t]) == Hits(key, limit, window, ts) + [Hit(key, limit, window, t)]
  {
  }

  lemma BurstFromEmpty(maxKeys: int, key: string, limit: int, window: int)
    requires maxKeys >= 1 && limit >= 1 && window >= 1
    ensures var rs := Hits(key, limit, window, Repeat(0.0, limit));
            && Log(maxKeys, rs, key) == Repeat(0.0, limit)
            && Run(maxKeys, rs) == map[key := Repeat(0.0, limit)]
  {
    var r := Hit(key, limit, window, 0.0);
    assert [] + Repeat(r, limit) == Repeat(r, limit) == Hits(key, limit, window, Repeat(0.0, limit));
    assert [] + Repeat(0.0, limit) == Repeat(0.0, limit);
    assert Run(maxKeys, []) == map[] && Log(maxKeys, [], key) == [];
    hide Run, Log, Repeat, Smooth, Hits;
    Burst(maxKeys, [], r, limit);
  }

  lemma NextHit(maxKeys: int, rs: seq<Request>, key: string, limit: int, window: int, log: seq<real>, t: real,
                left: seq<real>)
    requires key in Run(maxKeys, rs) && Log(maxKeys, rs, key) == log && |left| < limit
    requires Prune(Run(maxKeys, rs)[key], Cutoff(t, window)) == left
    ensures Run(maxKeys, rs + [Hit(key, limit, window, t)]) == Run(maxKeys, rs)[key := left + [t]]
    ensures Log(maxKeys, rs + [Hit(key, limit, window, t)], key) == log + [t]
  {
    hide Run, Log, Smooth, Prune;
    Admits(maxKeys, rs, Hit(key, limit, window, t), left);
  }

  // ---------------------------------------------------------------- runs that lose a late entry to an eviction

  /** An entry and a late one after it, or a single one at limit one. */
  function EarlyTimes(limit: int, late: real): seq<real> {
    if limit == 1 then [0.0] else [late, 0.0]
  }

  function Neighbour(key: string): string {
    key + "'"
  }

  /** The early hits, an arrival on another key that sweeps the full table, then late hits up to the limit. */
  function Lapse(key: string, limit: nat, window: int, late: real, n: nat): seq<Request> {
    Sweep(Hits(key, limit, window, EarlyTimes(limit, late)), key, Neighbour(key), n, Constant(window))
    + Repeat(Hit(key, limit, window, window as real - late), limit)
  }

  /** The eviction drops an entry that is too young by twice the skew, and the late hits find an empty deque. */
  lemma {:induction false} EvictionOverfills(maxKeys: int, key: string, limit: int, window: int, skew: real,
                                             length: real)
    requires maxKeys >= 2 && limit >= 1 && window >= 1 && skew >= 0.0 && length > 0.0
    requires length > if limit == 1 then window as real - skew else window as real - 2.0 * skew
    ensures !BoundAcrossEviction(maxKeys, key, limit, window, skew, length)
  {
    hide Log, Run, Lapse, EarlyTimes, SharedRun;
    var most := if limit == 1 then window as real else window as real / 2.0;
    var late := if skew < most then skew else most;
    var from := if limit == 1 then 0.0 else late;
    var rs := Lapse(key, limit, window, late, maxKeys - 1);
    LapseLog(maxKeys, key, limit, window, late);
    LapseCount(limit, window, late, from, length);
    LapseShared(maxKeys, key, limit, window, late, maxKeys - 1, skew);
    assert !Holds(maxKeys, rs, key, limit, from, length);
  }

  lemma LapseCount(limit: nat, window: int, late: real, from: real, length: real)
    requires limit >= 1 && length > 0.0 && late >= 0.0
    requires from == if limit == 1 then 0.0 else late
    requires from <= window as real - late < from + length
    ensures CountIn(EarlyTimes(limit, late) + Repeat(window as real - late, limit), from, from + length) > limit
  {
    var early, to := EarlyTimes(limit, late), from + length;
    CountConcat(early, Repeat(window as real - late, limit), from, to);
    CountRepeat(window as real - late, limit, from, to);
    assert early == [] + [from] + (if limit == 1 then [] else [0.0]);
    CountAppend([], from, from, to);
    CountAppend([] + [from], 0.0, from, to);
  }

  lemma EarlyRun(maxKeys: int, key: string, limit: int, window: int, late: real)
    requires maxKeys >= 1 && limit >= 1 && window >= 1 && late >= 0.0
    ensures var rs := Hits(key, limit, window, EarlyTimes(limit, late));
            && Run(maxKeys, rs) == map[key := EarlyTimes(limit, late)]
            && Log(maxKeys, rs, key) == EarlyTimes(limit, late)
            && Smooth(maxKeys, rs)
  {
    var t := if limit == 1 then 0.0 else late;
    var first, second := Hit(key, limit, window, t), Hit(key, limit, window, 0.0);
    assert [] + [first] == [first] && [] + [t] == [t] && [t] + [0.0] == [t, 0.0];
    FreshAdmits(maxKeys, [], first);
    assert Prune([t], Cutoff(0.0, window)) == [t];
    assert Hits(key, limit, window, [t]) == [first];
    assert Hits(key, limit, window, [t, 0.0]) == [first] + [second];
    hide Run, Log, Smooth, Prune, Hits;
    if limit > 1 {
      Admits(maxKeys, [first], second, [t]);
    }
  }

  lemma LapseLog(maxKeys: int, key: string, limit: int, window: int, late: real)
    requires maxKeys >= 2 && limit >= 1 && window >= 1 && 0.0 <= late
    ensures Log(maxKeys, Lapse(key, limit, window, late, maxKeys - 1), key)
            == EarlyTimes(limit, late) + Repeat(window as real - late, limit)
  {
    hide Run, Log, Smooth, Hits, Sweep, Repeat;
    var early, b, w := Hits(key, limit, window, EarlyTimes(limit, late)), Neighbour(key), Constant(window);
    EarlyRun(maxKeys, key, limit, window, late);
    assert key != b;
    SweepForgets(maxKeys, early, key, b, w);
    var swept, r := Sweep(early, key, b, maxKeys - 1, w), Hit(key, limit, window, window as real - late);
    assert |map[b := [window as real]]| == 1;
    Burst(maxKeys, swept, r, limit);
  }

  lemma LapseShared(maxKeys: int, key: string, limit: nat, window: int, late: real, n: nat, skew: real)
    requires limit >= 1 && window >= 1 && 0.0 <= late <= skew
    requires late <= if limit == 1 then window as real else window as real / 2.0
    ensures SharedRun(maxKeys, Lapse(key, limit, window, late, n), key, limit, window, skew)
  {
    hide KeysOf;
    var rs, early := Lapse(key, limit, window, late, n), EarlyTimes(limit, late);
    var m := |early|;
    forall i | 0 <= i < m ensures rs[i] == Hit(key, limit, window, early[i]) && 0.0 <= early[i] <= late {
    }
    forall i | m <= i < m + n ensures rs[i].Hit? && |rs[i].key| > |key| && rs[i].window == window && rs[i].now == 0.0 {
      var pad := Pad(|key| + |Neighbour(key)|, i - m);
      assert rs[i] == Hit(pad, 1, Constant(window)(pad), 0.0);
    }
    assert rs[m + n] == Hit(Neighbour(key), 1, window, window as real);
    assert forall i | m + n < i < |rs| :: rs[i] == Hit(key, limit, window, window as real - late);
  }
}
