/** What the limiter promises over whole runs: sequences of lock-protected sections in lock order. */
module LimiterRuns {
  import opened Prelude
  import opened Stamps
  import opened RateLimiter

  /** The table after a run that starts empty. */
  function Run(maxKeys: int, rs: seq<Request>): Table {
    if rs == [] then map[]
    else Step(Run(maxKeys, rs[..|rs| - 1]), maxKeys, rs[|rs| - 1]).0
  }

  /** The answer to a request that arrives after a run. */
  function Answer(maxKeys: int, rs: seq<Request>, r: Request): Outcome {
    Step(Run(maxKeys, rs), maxKeys, r).1
  }

  /** The request empties the whole table: a reset, or an eviction that made no room. */
  predicate Forgets(maxKeys: int, rs: seq<Request>, r: Request) {
    r.Reset? || (
      var h := Run(maxKeys, rs);
      NeedsRoom(h, r.key, maxKeys) && |DropIdle(h, Cutoff(r.now, r.window))| >= maxKeys)
  }

  /** The naive record: every admission of the key since the table was last emptied. */
  function Log(maxKeys: int, rs: seq<Request>, key: string): seq<real>
    decreases |rs|, 0
  {
    if rs == [] then []
    else
      var before, r := rs[..|rs| - 1], rs[|rs| - 1];
      var kept := LogAt(maxKeys, before, r, key);
      if r.Hit? && r.key == key && Answer(maxKeys, before, r).Admitted? then kept + [r.now] else kept
  }

  /** The record the request is judged on. */
  function LogAt(maxKeys: int, rs: seq<Request>, r: Request, key: string): seq<real>
    decreases |rs|, 1
  {
    if Forgets(maxKeys, rs, r) then [] else Log(maxKeys, rs, key)
  }

  /** The decision a limiter with no deques, no pruning and no eviction would take on the record. */
  function NaiveVerdict(log: seq<real>, limit: int, window: int, now: real): Outcome {
    Judge(Live(log, Cutoff(now, window)), limit, window, now)
  }

  // ---------------------------------------------------------------- assumptions on runs

  predicate NonDecreasing(rs: seq<Request>) {
    forall i, j | 0 <= i < j < |rs| && rs[i].Hit? && rs[j].Hit? :: rs[i].now <= rs[j].now
  }

  /** Readings, in lock order, fall at most `skew` below an earlier one. */
  predicate AllSkewWithin(rs: seq<Request>, skew: real) {
    forall i, j | 0 <= i < j < |rs| && rs[i].Hit? && rs[j].Hit? :: rs[j].now >= rs[i].now - skew
  }

  predicate KeyWindow(rs: seq<Request>, key: string, window: int) {
    forall i | 0 <= i < |rs| && rs[i].Hit? && rs[i].key == key :: rs[i].window == window
  }

  /** No request, for whatever key, uses a window shorter than this one. */
  predicate NoShorterWindow(rs: seq<Request>, window: int) {
    forall i | 0 <= i < |rs| && rs[i].Hit? :: rs[i].window >= window
  }

  function KeysOf(rs: seq<Request>): set<string> {
    set r | r in rs && r.Hit? :: r.key
  }

  /** What a caller can see to: no window is shorter than the key's, or there are never more keys than the cap. */
  predicate Accommodated(maxKeys: int, rs: seq<Request>, window: int) {
    NoShorterWindow(rs, window) || |KeysOf(rs)| <= maxKeys
  }

  predicate OneWindow(rs: seq<Request>, window: int) {
    forall i | 0 <= i < |rs| && rs[i].Hit? :: rs[i].window == window
  }

  predicate Limited(rs: seq<Request>, key: string, limit: int) {
    forall i | 0 <= i < |rs| && rs[i].Hit? && rs[i].key == key :: rs[i].limit == limit
  }

  /** The idle key is deleted to make room. */
  predicate EvictsKey(maxKeys: int, rs: seq<Request>, r: Request, key: string) {
    var h := Run(maxKeys, rs);
    && r.Hit? && key in h && NeedsRoom(h, r.key, maxKeys)
    && !Forgets(maxKeys, rs, r) && Idle(h[key], Cutoff(r.now, r.window))
  }

  /** The key was only ever deleted when its newest entry was too old for the key's own window. */
  predicate Undisturbed(maxKeys: int, rs: seq<Request>, key: string, window: int) {
    rs != [] ==>
      var rs0, r := rs[..|rs| - 1], rs[|rs| - 1];
      && Undisturbed(maxKeys, rs0, key, window)
      && (EvictsKey(maxKeys, rs0, r, key) ==> Idle(Run(maxKeys, rs0)[key], Cutoff(r.now, window)))
  }

  predicate NoForgets(maxKeys: int, rs: seq<Request>) {
    rs != [] ==> NoForgets(maxKeys, rs[..|rs| - 1]) && !Forgets(maxKeys, rs[..|rs| - 1], rs[|rs| - 1])
  }

  /** No hit empties the table; resets may. */
  predicate NeverClears(maxKeys: int, rs: seq<Request>) {
    rs != [] ==>
      && NeverClears(maxKeys, rs[..|rs| - 1])
      && (rs[|rs| - 1].Hit? ==> !Forgets(maxKeys, rs[..|rs| - 1], rs[|rs| - 1]))
  }

  predicate TimesUpTo(rs: seq<Request>, t: real) {
    forall i | 0 <= i < |rs| && rs[i].Hit? :: rs[i].now <= t
  }

  lemma SubsetOfKeys(rs: seq<Request>, n: nat)
    requires n <= |rs|
    ensures KeysOf(rs[..n]) <= KeysOf(rs) && |KeysOf(rs[..n])| <= |KeysOf(rs)|
  {
    SubsetBound(KeysOf(rs[..n]), KeysOf(rs));
  }

  lemma AccommodatedPrefix(maxKeys: int, rs: seq<Request>, window: int, n: nat)
    requires n <= |rs| && Accommodated(maxKeys, rs, window)
    ensures Accommodated(maxKeys, rs[..n], window)
  {
    SubsetOfKeys(rs, n);
  }

  lemma {:induction false} TableKeys(maxKeys: int, rs: seq<Request>)
    ensures Run(maxKeys, rs).Keys <= KeysOf(rs)
  {
    if rs != [] {
      var rs0, r := rs[..|rs| - 1], rs[|rs| - 1];
      TableKeys(maxKeys, rs0);
      SubsetOfKeys(rs, |rs| - 1);
      assert r in rs;
    }
  }

  lemma FewKeysNeedNoRoom(maxKeys: int, rs: seq<Request>, r: Request)
    requires r.Hit? && |KeysOf(rs + [r])| <= maxKeys
    ensures !NeedsRoom(Run(maxKeys, rs), r.key, maxKeys)
  {
    var h := Run(maxKeys, rs);
    TableKeys(maxKeys, rs);
    if r.key !in h {
      assert r in rs + [r];
      assert forall x | x in rs :: x in rs + [r];
      SubsetBound(h.Keys + {r.key}, KeysOf(rs + [r]));
    }
  }

  /** Either condition keeps evictions from deleting the key too early. */
  lemma {:induction false} AccommodatedIsUndisturbed(maxKeys: int, rs: seq<Request>, key: string, window: int)
    requires Accommodated(maxKeys, rs, window)
    ensures Undisturbed(maxKeys, rs, key, window)
  {
    if rs != [] {
      var rs0, r := rs[..|rs| - 1], rs[|rs| - 1];
      AccommodatedPrefix(maxKeys, rs, window, |rs| - 1);
      AccommodatedIsUndisturbed(maxKeys, rs0, key, window);
      assert rs0 + [r] == rs;
      hide Run;
      if r.Hit? && |KeysOf(rs)| <= maxKeys {
        FewKeysNeedNoRoom(maxKeys, rs0, r);
      }
    }
  }

  // ---------------------------------------------------------------- the deque refines the naive log

  /** Deque and record are in order, not in the future, and agree on everything after the cutoff. */
  predicate Tracks(bucket: seq<real>, log: seq<real>, t: real, cutoff: real) {
    && Ascending(bucket) && Ascending(log)
    && UpTo(bucket, t) && UpTo(log, t)
    && Live(bucket, cutoff) == Live(log, cutoff)
  }

  lemma TracksLater(bucket: seq<real>, log: seq<real>, t0: real, t: real, window: int)
    requires t0 <= t && Tracks(bucket, log, t0, Cutoff(t0, window))
    ensures Tracks(bucket, log, t, Cutoff(t, window))
  {
    LiveLater(bucket, Cutoff(t0, window), Cutoff(t, window));
    LiveLater(log, Cutoff(t0, window), Cutoff(t, window));
  }

  lemma TracksEmptied(bucket: seq<real>, log: seq<real>, t: real, cutoff: real)
    requires Tracks(bucket, log, t, cutoff) && Idle(bucket, cutoff)
    ensures Tracks([], log, t, cutoff)
  {
    LiveNone(bucket, cutoff);
  }

  /** Making room for the request keeps the deque in step with its record. */
  lemma {:induction false} OpenTracks(maxKeys: int, rs: seq<Request>, r: Request, key: string, window: int)
    requires r.Hit? && Undisturbed(maxKeys, rs + [r], key, window)
    requires Tracks(BucketOf(Run(maxKeys, rs), key), Log(maxKeys, rs, key), r.now, Cutoff(r.now, window))
    ensures var bucket := BucketOf(Opened(Run(maxKeys, rs), r.key, Cutoff(r.now, r.window), maxKeys), key);
            Tracks(bucket, LogAt(maxKeys, rs, r, key), r.now, Cutoff(r.now, window))
  {
    assert (rs + [r])[..|rs|] == rs;
    if EvictsKey(maxKeys, rs, r, key) {
      TracksEmptied(Run(maxKeys, rs)[key], Log(maxKeys, rs, key), r.now, Cutoff(r.now, window));
    }
  }

  /** After popping, the deque is exactly the live part of the record, so admission extends both alike. */
  lemma {:induction false} HitTracks(bucket: seq<real>, log: seq<real>, now: real, cutoff: real)
    requires Tracks(bucket, log, now, cutoff)
    ensures Prune(bucket, cutoff) == Live(log, cutoff)
    ensures Tracks(Prune(bucket, cutoff), log, now, cutoff)
    ensures Tracks(Prune(bucket, cutoff) + [now], log + [now], now, cutoff)
  {
    PruneIsLive(bucket, cutoff);
    LiveLater(bucket, cutoff, cutoff);
    LiveAscending(bucket, cutoff);
    LiveUpTo(bucket, cutoff, now);
    AppendLatest(Prune(bucket, cutoff), now);
    AppendLatest(log, now);
    LiveAppend(Prune(bucket, cutoff), now, cutoff);
    LiveAppend(log, now, cutoff);
  }

  /** The hit itself keeps them in step too. */
  lemma StepTracks(maxKeys: int, rs: seq<Request>, r: Request, key: string, window: int)
    requires r.Hit? && (r.key == key ==> r.window == window)
    requires var bucket := BucketOf(Opened(Run(maxKeys, rs), r.key, Cutoff(r.now, r.window), maxKeys), key);
             Tracks(bucket, LogAt(maxKeys, rs, r, key), r.now, Cutoff(r.now, window))
    ensures Tracks(BucketOf(Run(maxKeys, rs + [r]), key), Log(maxKeys, rs + [r], key), r.now, Cutoff(r.now, window))
  {
    assert (rs + [r])[..|rs|] == rs;
    hide Tracks, Opened, LogAt, Prune;
    if r.key == key {
      var table := Opened(Run(maxKeys, rs), r.key, Cutoff(r.now, r.window), maxKeys);
      HitTracks(table[key], LogAt(maxKeys, rs, r, key), r.now, Cutoff(r.now, window));
    }
  }

  lemma ResetTracks(maxKeys: int, rs: seq<Request>, r: Request, key: string, window: int, t: real)
    requires r.Reset?
    ensures Tracks(BucketOf(Run(maxKeys, rs + [r]), key), Log(maxKeys, rs + [r], key), t, Cutoff(t, window))
  {
  }

  /** In every run deque and record of an undisturbed key stay in step, through pruning, evictions and clears. */
  lemma {:induction false} DequeTracksLog(maxKeys: int, rs: seq<Request>, key: string, window: int, t: real)
    requires NonDecreasing(rs) && KeyWindow(rs, key, window) && Undisturbed(maxKeys, rs, key, window)
    requires TimesUpTo(rs, t)
    ensures Tracks(BucketOf(Run(maxKeys, rs), key), Log(maxKeys, rs, key), t, Cutoff(t, window))
  {
    if rs == [] {
    } else {
      hide Tracks, Run, Log, LogAt, Opened, EvictsKey;
      var rs0, r := rs[..|rs| - 1], rs[|rs| - 1];
      assert rs0 + [r] == rs;
      if r.Hit? {
        DequeTracksLog(maxKeys, rs0, key, window, r.now);
        OpenTracks(maxKeys, rs0, r, key, window);
        StepTracks(maxKeys, rs0, r, key, window);
        TracksLater(BucketOf(Run(maxKeys, rs), key), Log(maxKeys, rs, key), r.now, t, window);
      } else {
        ResetTracks(maxKeys, rs0, r, key, window, t);
      }
    }
  }

  /** The clock does not run backwards and the arriving key, used with one window, is accommodated. */
  predicate Regular(maxKeys: int, rs: seq<Request>, key: string, window: int) {
    NonDecreasing(rs) && KeyWindow(rs, key, window) && Accommodated(maxKeys, rs, window)
  }

  /** What the request finds in step: the opened deque and the record it is judged on. */
  lemma ArrivalTracks(maxKeys: int, rs: seq<Request>, r: Request)
    requires r.Hit? && Regular(maxKeys, rs + [r], r.key, r.window)
    ensures Tracks(BucketOf(Run(maxKeys, rs), r.key), Log(maxKeys, rs, r.key), r.now, Cutoff(r.now, r.window))
    ensures Tracks(BucketOf(Opened(Run(maxKeys, rs), r.key, Cutoff(r.now, r.window), maxKeys), r.key),
                   LogAt(maxKeys, rs, r, r.key), r.now, Cutoff(r.now, r.window))
  {
    hide Tracks, Run, Log, Opened, LogAt;
    var all := rs + [r];
    assert all[..|rs|] == rs && all[|rs|] == r;
    assert forall i | 0 <= i < |rs| :: all[i] == rs[i];
    AccommodatedPrefix(maxKeys, all, r.window, |rs|);
    AccommodatedIsUndisturbed(maxKeys, rs, r.key, r.window);
    AccommodatedIsUndisturbed(maxKeys, all, r.key, r.window);
    DequeTracksLog(maxKeys, rs, r.key, r.window, r.now);
    OpenTracks(maxKeys, rs, r, r.key, r.window);
  }

  /** Every decision and every retry time is the naive limiter's, in every run. */
  lemma {:induction false} DecisionIsNaive(maxKeys: int, rs: seq<Request>, r: Request)
    requires r.Hit? && Regular(maxKeys, rs + [r], r.key, r.window)
    ensures Answer(maxKeys, rs, r) == NaiveVerdict(LogAt(maxKeys, rs, r, r.key), r.limit, r.window, r.now)
  {
    hide Tracks, Run;
    ArrivalTracks(maxKeys, rs, r);
    var table := Opened(Run(maxKeys, rs), r.key, Cutoff(r.now, r.window), maxKeys);
    HitTracks(table[r.key], LogAt(maxKeys, rs, r, r.key), r.now, Cutoff(r.now, r.window));
  }

  /** Afterwards the deque is exactly the part of the record that still counts, plus the new admission. */
  lemma {:induction false} DequeIsLiveRecord(maxKeys: int, rs: seq<Request>, r: Request)
    requires r.Hit? && Regular(maxKeys, rs + [r], r.key, r.window)
    ensures BucketOf(Step(Run(maxKeys, rs), maxKeys, r).0, r.key)
            == Live(LogAt(maxKeys, rs, r, r.key), Cutoff(r.now, r.window))
               + (if Answer(maxKeys, rs, r).Admitted? then [r.now] else [])
  {
    hide Tracks, Run;
    ArrivalTracks(maxKeys, rs, r);
    var table := Opened(Run(maxKeys, rs), r.key, Cutoff(r.now, r.window), maxKeys);
    HitTracks(table[r.key], LogAt(maxKeys, rs, r, r.key), r.now, Cutoff(r.now, r.window));
  }
}
