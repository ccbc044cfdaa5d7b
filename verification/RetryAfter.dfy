/** The retry time a refusal advertises. */
module RetryAfter {
  import opened Stamps
  import opened RateLimiter
  import opened LimiterRuns
  import opened LimiterMemory
  import opened LimiterSkew

  /** On a full record: waiting n whole seconds is enough exactly from the advertised time on. */
  lemma RetryOnLog(log: seq<real>, limit: int, window: int, now: real, n: nat)
    requires Ascending(log) && UpTo(log, now)
    requires limit >= 1 && |Live(log, Cutoff(now, window))| == limit
    ensures var verdict := NaiveVerdict(log, limit, window, now);
            && verdict.Refused?
            && verdict.retryAfter == Ceil(Live(log, Cutoff(now, window))[0] + window as real - now)
            && 1 <= verdict.retryAfter <= window
            && (NaiveVerdict(log, limit, window, now + n as real).Admitted? <==> n >= verdict.retryAfter)
            && (n < verdict.retryAfter ==> NaiveVerdict(log, limit, window, now + n as real).Refused?)
  {
    hide Live, Prune, Ceil;
    var c, c' := Cutoff(now, window), Cutoff(now + n as real, window);
    var live := Live(log, c);
    LiveAscending(log, c);
    LiveMembers(log, c);
    LiveUpTo(log, c, now);
    assert live[0] in live;
    CeilBounds(live[0] + window as real - now);
    LiveLater(log, c, c');
    var retry := Ceil(live[0] + window as real - now);
    if n >= retry {
      assert live[0] <= c';
      FewerLive(live, c');
    } else {
      assert live[0] > c';
      LiveAll(live, c');
    }
  }

  lemma CeilBounds(x: real)
    ensures (Ceil(x) - 1) as real < x <= Ceil(x) as real
  {
  }

  lemma FewerLive(s: seq<real>, cutoff: real)
    requires s != [] && s[0] <= cutoff
    ensures |Live(s, cutoff)| < |s|
  {
    assert s == [s[0]] + s[1..];
    LiveConcat([s[0]], s[1..], cutoff);
    LiveNone([s[0]], cutoff);
    LiveMembers(s[1..], cutoff);
  }

  /** Nothing was admitted for the key, and nothing forgotten, in the later part of the run. */
  predicate Quiet(maxKeys: int, rs: seq<Request>, from: nat, key: string) {
    |rs| > from ==>
      var rs0, r := rs[..|rs| - 1], rs[|rs| - 1];
      && Quiet(maxKeys, rs0, from, key)
      && !Forgets(maxKeys, rs0, r)
      && !(r.Hit? && r.key == key && Answer(maxKeys, rs0, r).Admitted?)
  }

  lemma {:induction false} QuietKeepsLog(maxKeys: int, rs: seq<Request>, from: nat, key: string)
    requires from <= |rs| && Quiet(maxKeys, rs, from, key)
    ensures Log(maxKeys, rs, key) == Log(maxKeys, rs[..from], key)
  {
    hide Forgets, Step, Run;
    if from < |rs| {
      QuietKeepsLog(maxKeys, rs[..|rs| - 1], from, key);
      assert rs[..|rs| - 1][..from] == rs[..from];
    } else {
      assert rs[..from] == rs;
    }
  }

  lemma RegularPrefix(maxKeys: int, rs: seq<Request>, key: string, window: int, n: nat)
    requires n <= |rs| && Regular(maxKeys, rs, key, window)
    ensures Regular(maxKeys, rs[..n], key, window)
  {
    hide Accommodated;
    AccommodatedPrefix(maxKeys, rs, window, n);
  }

  /** A refusal at a constant limit means the record holds exactly `limit` entries that still count. */
  lemma RefusedWhenFull(maxKeys: int, rs: seq<Request>, r: Request)
    requires r.Hit? && Regular(maxKeys, rs + [r], r.key, r.window)
    requires r.limit >= 1 && Limited(rs, r.key, r.limit) && Answer(maxKeys, rs, r).Refused?
    ensures !Forgets(maxKeys, rs, r)
    ensures var log := Log(maxKeys, rs, r.key);
            && Ascending(log) && UpTo(log, r.now)
            && |Live(log, Cutoff(r.now, r.window))| == r.limit
            && Answer(maxKeys, rs, r) == NaiveVerdict(log, r.limit, r.window, r.now)
  {
    DecisionIsNaive(maxKeys, rs, r);
    ArrivalTracks(maxKeys, rs, r);
    hide Run, Step, Log;
    BucketBounded(maxKeys, rs, r.key, r.limit);
    LiveMembers(BucketOf(Run(maxKeys, rs), r.key), Cutoff(r.now, r.window));
  }

  /**
    * Retry-After (section 10.2.3 of RFC 9110) is the least number of whole seconds that works: request i of the
    * run was refused, and whatever other keys did since, the same request n seconds later is admitted if and
    * only if n has reached the advertised time.
    */
  lemma {:induction false} RetryIsLeast(maxKeys: int, rs: seq<Request>, i: nat, n: nat)
    requires i < |rs| && rs[i].Hit? && rs[i].limit >= 1
    requires Answer(maxKeys, rs[..i], rs[i]).Refused?
    requires Quiet(maxKeys, rs, i, rs[i].key)
    requires Limited(rs, rs[i].key, rs[i].limit)
    requires var later := rs[i].(now := rs[i].now + n as real);
             !Forgets(maxKeys, rs, later) && Regular(maxKeys, rs + [later], later.key, later.window)
    ensures var wait := Answer(maxKeys, rs[..i], rs[i]).retryAfter;
            var answer := Answer(maxKeys, rs, rs[i].(now := rs[i].now + n as real));
            && 1 <= wait <= rs[i].window
            && (n >= wait ==> answer.Admitted?)
            && (n < wait ==> answer.Refused?)
  {
    hide Log, Run, Live, Step, Judge, Forgets, Quiet, Limited, Regular, Ascending, UpTo;
    var r := rs[i];
    var later := r.(now := r.now + n as real);
    RefusedWithin(maxKeys, rs, i, later);
    QuietKeepsLog(maxKeys, rs, i, r.key);
    DecisionIsNaive(maxKeys, rs, later);
    RetryOnLog(Log(maxKeys, rs[..i], r.key), r.limit, r.window, r.now, n);
  }

  lemma RefusedWithin(maxKeys: int, rs: seq<Request>, i: nat, later: Request)
    requires i < |rs| && rs[i].Hit? && rs[i].limit >= 1
    requires Answer(maxKeys, rs[..i], rs[i]).Refused? && Limited(rs, rs[i].key, rs[i].limit)
    requires Regular(maxKeys, rs + [later], rs[i].key, rs[i].window)
    ensures var log := Log(maxKeys, rs[..i], rs[i].key);
            && Ascending(log) && UpTo(log, rs[i].now)
            && |Live(log, Cutoff(rs[i].now, rs[i].window))| == rs[i].limit
            && Answer(maxKeys, rs[..i], rs[i]) == NaiveVerdict(log, rs[i].limit, rs[i].window, rs[i].now)
  {
    hide Log, Run, Live, Step, Judge, Ascending, UpTo, Regular;
    RegularPrefix(maxKeys, rs + [later], rs[i].key, rs[i].window, i + 1);
    assert (rs + [later])[..i + 1] == rs[..i] + [rs[i]];
    RefusedWhenFull(maxKeys, rs[..i], rs[i]);
  }

  // ---------------------------------------------------------------- whatever the clock does

  /** Since then nothing was admitted for the key, and its deque was neither evicted nor emptied. */
  predicate Untouched(maxKeys: int, rs: seq<Request>, from: nat, key: string) {
    |rs| > from ==>
      var rs0, r := rs[..|rs| - 1], rs[|rs| - 1];
      && Untouched(maxKeys, rs0, from, key)
      && !Forgets(maxKeys, rs0, r) && !EvictsKey(maxKeys, rs0, r, key)
      && !(r.Hit? && r.key == key && Answer(maxKeys, rs0, r).Admitted?)
  }

  lemma RunAppend(maxKeys: int, rs: seq<Request>)
    requires rs != []
    ensures Run(maxKeys, rs) == Step(Run(maxKeys, rs[..|rs| - 1]), maxKeys, rs[|rs| - 1]).0
  {
  }

  /** Refused requests find a full deque and leave it as it is. */
  lemma {:induction false} FullStaysFull(maxKeys: int, rs: seq<Request>, from: nat, key: string, limit: int,
                                         bucket: seq<real>)
    requires from <= |rs| && Untouched(maxKeys, rs, from, key) && Limited(rs, key, limit)
    requires BucketOf(Run(maxKeys, rs[..from]), key) == bucket && |bucket| == limit
    ensures BucketOf(Run(maxKeys, rs), key) == bucket
  {
    if from < |rs| {
      var rs0, r := rs[..|rs| - 1], rs[|rs| - 1];
      assert rs0[..from] == rs[..from];
      FullStaysFull(maxKeys, rs0, from, key, limit, bucket);
      RunAppend(maxKeys, rs);
      AnswerIsStep(maxKeys, rs0, r);
      hide Run, Step, Forgets, EvictsKey, Answer, Prune;
      if r.Hit? && r.key == key {
        OwnBucket(Run(maxKeys, rs0), maxKeys, r);
        PruneIsSuffix(bucket, Cutoff(r.now, r.window));
      } else {
        OtherBucket(maxKeys, rs0, r, key);
      }
    } else {
      assert rs[..from] == rs;
    }
  }

  /** The verdict on a full deque, in whatever order its entries are: the oldest in line decides. */
  lemma FullVerdict(bucket: seq<real>, limit: int, window: int, now: real, n: nat)
    requires limit >= 1 && |bucket| == limit && bucket[0] > Cutoff(now, window)
    ensures Judge(bucket, limit, window, now) == Refused(Ceil(bucket[0] + window as real - now))
    ensures var wait := Ceil(bucket[0] + window as real - now);
            var later := Judge(Prune(bucket, Cutoff(now + n as real, window)), limit, window, now + n as real);
            wait >= 1 && (n >= wait <==> later.Admitted?) && (n < wait <==> later.Refused?)
  {
    var x := bucket[0] + window as real - now;
    CeilBounds(x);
    PruneIsSuffix(bucket, Cutoff(now + n as real, window));
    PruneIsSuffix(bucket[1..], Cutoff(now + n as real, window));
    hide Ceil;
  }

  lemma AnswerJudges(maxKeys: int, rs: seq<Request>, r: Request)
    requires r.Hit?
    ensures Answer(maxKeys, rs, r)
            == Judge(Prune(BucketOf(Run(maxKeys, rs), r.key), Cutoff(r.now, r.window)), r.limit, r.window, r.now)
  {
    hide Run, Prune, Judge;
  }

  /** With no positive limit there is nothing to be admitted, and `bucket[0]` of the empty deque raises. */
  lemma NoBudgetRaises(maxKeys: int, rs: seq<Request>, r: Request)
    requires r.Hit? && r.limit <= 0
    requires forall i | 0 <= i < |rs| && rs[i].Hit? && rs[i].key == r.key :: rs[i].limit <= 0
    ensures Answer(maxKeys, rs, r) == IndexError
  {
    BucketBounded(maxKeys, rs, r.key, 0);
    AnswerJudges(maxKeys, rs, r);
    hide Run, Answer;
  }

  /** And it raises only then: the limit is not positive and the record has no live entry. */
  lemma RaisesIff(maxKeys: int, rs: seq<Request>, r: Request)
    requires r.Hit? && Regular(maxKeys, rs + [r], r.key, r.window)
    ensures Answer(maxKeys, rs, r) == IndexError
            <==> r.limit <= 0 && forall t | t in LogAt(maxKeys, rs, r, r.key) :: t <= r.now - r.window as real
  {
    DecisionIsNaive(maxKeys, rs, r);
    hide Answer, LogAt, Live;
    var log, cutoff := LogAt(maxKeys, rs, r, r.key), Cutoff(r.now, r.window);
    LiveMembers(log, cutoff);
    if Live(log, cutoff) != [] {
      assert Live(log, cutoff)[0] in Live(log, cutoff);
    }
  }

  /** A refusal at a constant limit, under any clock: the deque is full and stays as pruned. */
  lemma RefusedFull(maxKeys: int, rs: seq<Request>, r: Request)
    requires r.Hit? && r.limit >= 1 && Limited(rs, r.key, r.limit) && Answer(maxKeys, rs, r).Refused?
    ensures var bucket := BucketOf(Run(maxKeys, rs + [r]), r.key);
            && |bucket| == r.limit && bucket[0] > Cutoff(r.now, r.window)
            && Answer(maxKeys, rs, r) == Judge(bucket, r.limit, r.window, r.now)
  {
    assert (rs + [r])[..|rs|] == rs;
    RunAppend(maxKeys, rs + [r]);
    AnswerIsStep(maxKeys, rs, r);
    AnswerJudges(maxKeys, rs, r);
    hide Run, Step, Answer, Prune;
    OwnBucket(Run(maxKeys, rs), maxKeys, r);
    BucketBounded(maxKeys, rs, r.key, r.limit);
    PruneIsSuffix(BucketOf(Run(maxKeys, rs), r.key), Cutoff(r.now, r.window));
  }

  lemma FullSinceRefusal(maxKeys: int, rs: seq<Request>, i: nat)
    requires i < |rs| && rs[i].Hit? && rs[i].limit >= 1 && Limited(rs, rs[i].key, rs[i].limit)
    requires Answer(maxKeys, rs[..i], rs[i]).Refused? && Untouched(maxKeys, rs, i, rs[i].key)
    ensures var bucket := BucketOf(Run(maxKeys, rs), rs[i].key);
            && |bucket| == rs[i].limit && bucket[0] > Cutoff(rs[i].now, rs[i].window)
            && Answer(maxKeys, rs[..i], rs[i]) == Judge(bucket, rs[i].limit, rs[i].window, rs[i].now)
            && bucket == BucketOf(Run(maxKeys, rs[..i + 1]), rs[i].key)
  {
    var r := rs[i];
    assert rs[..i + 1] == rs[..i] + [r];
    UntouchedLater(maxKeys, rs, i, r.key);
    RefusedFull(maxKeys, rs[..i], r);
    hide Run, Answer, Judge, Untouched;
    FullStaysFull(maxKeys, rs, i + 1, r.key, r.limit, BucketOf(Run(maxKeys, rs[..i + 1]), r.key));
  }

  lemma LaterAnswer(maxKeys: int, rs: seq<Request>, r: Request, bucket: seq<real>, n: nat)
    requires r.Hit? && r.limit >= 1 && bucket == BucketOf(Run(maxKeys, rs), r.key)
    requires |bucket| == r.limit && bucket[0] > Cutoff(r.now, r.window)
    ensures var first := Judge(bucket, r.limit, r.window, r.now);
            var answer := Answer(maxKeys, rs, r.(now := r.now + n as real));
            && first.Refused? && first.retryAfter >= 1
            && (n >= first.retryAfter <==> answer.Admitted?)
            && (n < first.retryAfter <==> answer.Refused?)
  {
    var later := r.(now := r.now + n as real);
    FullVerdict(bucket, r.limit, r.window, r.now, n);
    hide *;
    AnswerJudges(maxKeys, rs, later);
  }

  /** The advertised time is the least one whatever the clock does, as long as the key's deque is left alone. */
  lemma {:induction false} RetryIsLeastAnyClock(maxKeys: int, rs: seq<Request>, i: nat, n: nat)
    requires i < |rs| && rs[i].Hit? && rs[i].limit >= 1 && Limited(rs, rs[i].key, rs[i].limit)
    requires Answer(maxKeys, rs[..i], rs[i]).Refused? && Untouched(maxKeys, rs, i, rs[i].key)
    ensures var wait := Answer(maxKeys, rs[..i], rs[i]).retryAfter;
            var answer := Answer(maxKeys, rs, rs[i].(now := rs[i].now + n as real));
            && wait >= 1
            && (n >= wait <==> answer.Admitted?)
            && (n < wait <==> answer.Refused?)
  {
    hide *;
    FullSinceRefusal(maxKeys, rs, i);
    LaterAnswer(maxKeys, rs, rs[i], BucketOf(Run(maxKeys, rs), rs[i].key), n);
  }

  /** With readings at most a skew behind, the wait is at most the window and the skew, rounded up. */
  lemma {:induction false} WaitBounded(maxKeys: int, rs: seq<Request>, r: Request, skew: real)
    requires r.Hit? && r.limit >= 1 && Limited(rs, r.key, r.limit) && Answer(maxKeys, rs, r).Refused?
    requires skew >= 0.0 && AllSkewWithin(rs + [r], skew)
    ensures 1 <= Answer(maxKeys, rs, r).retryAfter <= Ceil(r.window as real + skew)
  {
    var all := rs + [r];
    RefusedFull(maxKeys, rs, r);
    assert all[|rs|] == r;
    hide Run, Answer, Ceil, Limited;
    var bucket := BucketOf(Run(maxKeys, all), r.key);
    FullVerdict(bucket, r.limit, r.window, r.now, 0);
    BucketSkewed(maxKeys, all, r.key, skew, r.now + skew);
    hide AllSkewWithin;
    CeilMonotone(bucket[0] + r.window as real - r.now, r.window as real + skew);
  }

  lemma CeilMonotone(x: real, y: real)
    requires x <= y
    ensures Ceil(x) <= Ceil(y)
  {
  }

  lemma {:induction false} UntouchedLater(maxKeys: int, rs: seq<Request>, from: nat, key: string)
    requires from < |rs| && Untouched(maxKeys, rs, from, key)
    ensures Untouched(maxKeys, rs, from + 1, key)
  {
    hide Forgets, EvictsKey, Answer;
    if from + 1 < |rs| {
      UntouchedLater(maxKeys, rs[..|rs| - 1], from, key);
    }
  }

  /** That bound is met: a reading that is late by the skew makes the client wait the window and the skew. */
  lemma WaitBeyondWindow(maxKeys: int, key: string, window: int, skew: real)
    requires maxKeys >= 1 && window >= 1 && skew >= 0.0
    ensures var rs := [Hit(key, 1, window, skew)];
            && AllSkewWithin(rs + [Hit(key, 1, window, 0.0)], skew)
            && Answer(maxKeys, rs, Hit(key, 1, window, 0.0)) == Refused(Ceil(window as real + skew))
  {
    var r := Hit(key, 1, window, skew);
    assert [r][..0] == [];
    assert Run(maxKeys, []) == map[];
    OwnBucket(map[], maxKeys, r);
    RunAppend(maxKeys, [r]);
    AnswerJudges(maxKeys, [r], Hit(key, 1, window, 0.0));
    hide Run;
  }
}
