/** How much the limiter stores, and where every admission goes. */
module LimiterMemory {
  import opened Prelude
  import opened Stamps
  import opened RateLimiter
  import opened LimiterRuns

  /** The table never exceeds its cap (a cap below one still leaves room for the arriving key). */
  lemma {:induction false} TableBounded(maxKeys: int, rs: seq<Request>)
    ensures |Run(maxKeys, rs)| <= Max(1, maxKeys)
  {
    if rs != [] {
      var rs0, r := rs[..|rs| - 1], rs[|rs| - 1];
      TableBounded(maxKeys, rs0);
      if r.Hit? {
        var h := Run(maxKeys, rs0);
        var cutoff := Cutoff(r.now, r.window);
        var room := if NeedsRoom(h, r.key, maxKeys) then Evicted(h, cutoff, maxKeys) else h;
        var table := Opened(h, r.key, cutoff, maxKeys);
        assert table.Keys == if r.key in h then h.Keys else room.Keys + {r.key};
        assert Run(maxKeys, rs).Keys == table.Keys;
      }
    }
  }

  /** No deque outgrows the largest limit its key was used with. */
  lemma {:induction false} BucketBounded(maxKeys: int, rs: seq<Request>, key: string, limit: nat)
    requires forall i | 0 <= i < |rs| && rs[i].Hit? && rs[i].key == key :: rs[i].limit <= limit
    ensures |BucketOf(Run(maxKeys, rs), key)| <= limit
  {
    if rs != [] {
      var rs0, r := rs[..|rs| - 1], rs[|rs| - 1];
      BucketBounded(maxKeys, rs0, key, limit);
      if r.Hit? {
        var cutoff := Cutoff(r.now, r.window);
        PruneIsSuffix(Opened(Run(maxKeys, rs0), r.key, cutoff, maxKeys)[r.key], cutoff);
      }
    }
  }

  // ---------------------------------------------------------------- the record counts admissions

  predicate AdmittedAt(maxKeys: int, rs: seq<Request>, key: string, i: nat)
    requires i < |rs|
  {
    rs[i].Hit? && rs[i].key == key && Answer(maxKeys, rs[..i], rs[i]).Admitted?
  }

  /** The admitted requests for the key with a reading in the half-open interval [from, to). */
  function AdmittedIn(maxKeys: int, rs: seq<Request>, key: string, from: real, to: real): set<nat> {
    set i: nat | i < |rs| && AdmittedAt(maxKeys, rs, key, i) && from <= rs[i].now < to
  }

  lemma AdmittedInNext(maxKeys: int, rs: seq<Request>, key: string, from: real, to: real)
    requires rs != []
    ensures var n := |rs| - 1;
            AdmittedIn(maxKeys, rs, key, from, to)
            == AdmittedIn(maxKeys, rs[..n], key, from, to)
               + (if AdmittedAt(maxKeys, rs, key, n) && from <= rs[n].now < to then {n} else {})
    ensures |rs| - 1 !in AdmittedIn(maxKeys, rs[..|rs| - 1], key, from, to)
  {
    hide Answer;
    var rs0 := rs[..|rs| - 1];
    assert forall i | 0 <= i < |rs0| :: rs0[..i] == rs[..i] && rs0[i] == rs[i];
  }

  lemma LogNext(maxKeys: int, rs: seq<Request>, key: string)
    requires rs != [] && NoForgets(maxKeys, rs)
    ensures var n := |rs| - 1;
            && NoForgets(maxKeys, rs[..n])
            && Log(maxKeys, rs, key)
               == Log(maxKeys, rs[..n], key) + (if AdmittedAt(maxKeys, rs, key, n) then [rs[n].now] else [])
  {
    hide Forgets, Answer;
    assert Log(maxKeys, rs[..|rs| - 1], key) + [] == Log(maxKeys, rs[..|rs| - 1], key);
  }

  /** On a run that forgets nothing the record holds exactly the readings of the admitted requests. */
  lemma {:induction false} RecordCounts(maxKeys: int, rs: seq<Request>, key: string, from: real, to: real)
    requires NoForgets(maxKeys, rs)
    ensures |AdmittedIn(maxKeys, rs, key, from, to)| == CountIn(Log(maxKeys, rs, key), from, to)
  {
    if rs != [] {
      hide AdmittedIn, AdmittedAt, Log, NoForgets, CountIn;
      var n := |rs| - 1;
      LogNext(maxKeys, rs, key);
      RecordCounts(maxKeys, rs[..n], key, from, to);
      AdmittedInNext(maxKeys, rs, key, from, to);
      var log0, admitted0 := Log(maxKeys, rs[..n], key), AdmittedIn(maxKeys, rs[..n], key, from, to);
      if AdmittedAt(maxKeys, rs, key, n) {
        CountAppend(log0, rs[n].now, from, to);
      } else {
        assert log0 + [] == log0;
      }
    }
  }

  // ---------------------------------------------------------------- conservation

  datatype Cause = Expired | EvictedIdle | Emptied

  datatype Departure = Departure(at: real, cause: Cause)

  function Tag(ts: seq<real>, cause: Cause): seq<Departure> {
    seq(|ts|, i requires 0 <= i < |ts| => Departure(ts[i], cause))
  }

  function Times(ds: seq<Departure>): seq<real> {
    seq(|ds|, i requires 0 <= i < |ds| => ds[i].at)
  }

  /** What one request removes from the key's deque, front first. */
  function Leaving(maxKeys: int, rs: seq<Request>, r: Request, key: string): seq<Departure> {
    var bucket := BucketOf(Run(maxKeys, rs), key);
    if Forgets(maxKeys, rs, r) then Tag(bucket, Emptied)
    else if EvictsKey(maxKeys, rs, r, key) then Tag(bucket, EvictedIdle)
    else if r.key == key then
      PruneIsSuffix(bucket, Cutoff(r.now, r.window));
      Tag(bucket[..|bucket| - |Prune(bucket, Cutoff(r.now, r.window))|], Expired)
    else Tag([], Expired)
  }

  function Departures(maxKeys: int, rs: seq<Request>, key: string): seq<Departure> {
    if rs == [] then []
    else Departures(maxKeys, rs[..|rs| - 1], key) + Leaving(maxKeys, rs[..|rs| - 1], rs[|rs| - 1], key)
  }

  /** Every admission of the key, whatever was forgotten since. */
  function Admissions(maxKeys: int, rs: seq<Request>, key: string): seq<real> {
    if rs == [] then []
    else
      var rs0, r := rs[..|rs| - 1], rs[|rs| - 1];
      Admissions(maxKeys, rs0, key)
      + (if r.Hit? && r.key == key && Answer(maxKeys, rs0, r).Admitted? then [r.now] else [])
  }

  lemma TimesConcat(a: seq<Departure>, b: seq<Departure>)
    ensures Times(a + b) == Times(a) + Times(b)
  {
  }

  lemma TimesOfTag(ts: seq<real>, cause: Cause)
    ensures Times(Tag(ts, cause)) == ts
  {
  }

  /** What a request for another key, or a reset, leaves of the key's deque. */
  lemma OtherBucket(maxKeys: int, rs: seq<Request>, r: Request, key: string)
    requires r.Hit? ==> r.key != key
    ensures BucketOf(Step(Run(maxKeys, rs), maxKeys, r).0, key)
            == if Forgets(maxKeys, rs, r) || EvictsKey(maxKeys, rs, r, key) then []
               else BucketOf(Run(maxKeys, rs), key)
  {
    hide Run, Prune, Judge;
  }

  lemma AllLeaves(bucket: seq<real>, cause: Cause)
    ensures bucket + [] == Times(Tag(bucket, cause)) + []
  {
    TimesOfTag(bucket, cause);
  }

  lemma NoneLeaves(bucket: seq<real>)
    ensures bucket + [] == Times(Tag([], Expired)) + bucket
  {
    TimesOfTag([], Expired);
  }

  /** One request: the deque and what leaves it make up the old deque and what was admitted. */
  lemma StepConserves(maxKeys: int, rs: seq<Request>, r: Request, key: string)
    ensures BucketOf(Run(maxKeys, rs), key)
            + (if r.Hit? && r.key == key && Answer(maxKeys, rs, r).Admitted? then [r.now] else [])
            == Times(Leaving(maxKeys, rs, r, key)) + BucketOf(Step(Run(maxKeys, rs), maxKeys, r).0, key)
  {
    hide Run, Step, Leaving;
    if r.Hit? && r.key == key {
      OwnConserves(maxKeys, rs, r);
    } else {
      OtherConserves(maxKeys, rs, r, key);
    }
  }

  lemma OtherConserves(maxKeys: int, rs: seq<Request>, r: Request, key: string)
    requires r.Hit? ==> r.key != key
    ensures BucketOf(Run(maxKeys, rs), key) + []
            == Times(Leaving(maxKeys, rs, r, key)) + BucketOf(Step(Run(maxKeys, rs), maxKeys, r).0, key)
  {
    OtherBucket(maxKeys, rs, r, key);
    hide Run, Step, Tag, Times, Forgets, EvictsKey, Prune;
    var bucket := BucketOf(Run(maxKeys, rs), key);
    AllLeaves(bucket, Emptied);
    AllLeaves(bucket, EvictedIdle);
    NoneLeaves(bucket);
  }

  lemma OwnConserves(maxKeys: int, rs: seq<Request>, r: Request)
    requires r.Hit?
    ensures BucketOf(Run(maxKeys, rs), r.key) + (if Answer(maxKeys, rs, r).Admitted? then [r.now] else [])
            == Times(Leaving(maxKeys, rs, r, r.key)) + BucketOf(Step(Run(maxKeys, rs), maxKeys, r).0, r.key)
  {
    hide *;
    OwnKeyLeaving(maxKeys, rs, r);
    PopConserves(Run(maxKeys, rs), maxKeys, r);
    AnswerIsStep(maxKeys, rs, r);
  }

  lemma AnswerIsStep(maxKeys: int, rs: seq<Request>, r: Request)
    ensures Answer(maxKeys, rs, r) == Step(Run(maxKeys, rs), maxKeys, r).1
  {
  }

  lemma OwnKeyLeaving(maxKeys: int, rs: seq<Request>, r: Request)
    requires r.Hit?
    ensures var bucket := BucketOf(Run(maxKeys, rs), r.key);
            var left := Prune(bucket, Cutoff(r.now, r.window));
            && |left| <= |bucket|
            && Times(Leaving(maxKeys, rs, r, r.key)) == Times(Tag(bucket[..|bucket| - |left|], Expired))
  {
    hide Run;
    PruneIsSuffix(BucketOf(Run(maxKeys, rs), r.key), Cutoff(r.now, r.window));
    if Forgets(maxKeys, rs, r) {
      TimesOfTag([], Emptied);
      TimesOfTag([], Expired);
    }
  }

  lemma PopConserves(h: Table, maxKeys: int, r: Request)
    requires r.Hit?
    ensures var bucket, left := BucketOf(h, r.key), Prune(BucketOf(h, r.key), Cutoff(r.now, r.window));
            && |left| <= |bucket|
            && bucket + (if Step(h, maxKeys, r).1.Admitted? then [r.now] else [])
               == Times(Tag(bucket[..|bucket| - |left|], Expired)) + BucketOf(Step(h, maxKeys, r).0, r.key)
  {
    var bucket, cutoff := BucketOf(h, r.key), Cutoff(r.now, r.window);
    var left := Prune(bucket, cutoff);
    PruneIsSuffix(bucket, cutoff);
    var gone := bucket[..|bucket| - |left|];
    TimesOfTag(gone, Expired);
    OwnBucket(h, maxKeys, r);
    hide Step, Prune, Tag, Times;
    assert bucket == gone + left;
    assert (gone + left) + [r.now] == gone + (left + [r.now]);
    assert bucket + [] == bucket;
  }

  lemma OwnBucket(h: Table, maxKeys: int, r: Request)
    requires r.Hit?
    ensures BucketOf(Step(h, maxKeys, r).0, r.key)
            == (if Step(h, maxKeys, r).1.Admitted?
                then Prune(BucketOf(h, r.key), Cutoff(r.now, r.window)) + [r.now]
                else Prune(BucketOf(h, r.key), Cutoff(r.now, r.window)))
    ensures Step(h, maxKeys, r).1.Admitted? <==> |Prune(BucketOf(h, r.key), Cutoff(r.now, r.window))| < r.limit
  {
    hide Prune;
  }

  /** The deque is always the newest part of the record, in every run. */
  lemma {:induction false} DequeIsSuffix(maxKeys: int, rs: seq<Request>, key: string)
    ensures Suffix(BucketOf(Run(maxKeys, rs), key), Log(maxKeys, rs, key))
  {
    if rs != [] {
      var rs0, r := rs[..|rs| - 1], rs[|rs| - 1];
      DequeIsSuffix(maxKeys, rs0, key);
      hide Suffix, Step, Forgets, EvictsKey, LogAt;
      if r.Hit? && r.key == key {
        OwnSuffix(maxKeys, rs0, r);
        assert LogAt(maxKeys, rs0, r, key) + [] == LogAt(maxKeys, rs0, r, key);
      } else {
        OtherSuffix(maxKeys, rs0, r, key);
      }
    }
  }

  predicate Suffix(a: seq<real>, b: seq<real>) {
    |a| <= |b| && a == b[|b| - |a|..]
  }

  lemma OtherSuffix(maxKeys: int, rs: seq<Request>, r: Request, key: string)
    requires r.Hit? ==> r.key != key
    requires Suffix(BucketOf(Run(maxKeys, rs), key), Log(maxKeys, rs, key))
    ensures Suffix(BucketOf(Step(Run(maxKeys, rs), maxKeys, r).0, key), LogAt(maxKeys, rs, r, key))
  {
    hide Run, Step, Forgets, EvictsKey, Log;
    OtherBucket(maxKeys, rs, r, key);
  }

  lemma OwnSuffix(maxKeys: int, rs: seq<Request>, r: Request)
    requires r.Hit? && Suffix(BucketOf(Run(maxKeys, rs), r.key), Log(maxKeys, rs, r.key))
    ensures Suffix(BucketOf(Step(Run(maxKeys, rs), maxKeys, r).0, r.key),
                   LogAt(maxKeys, rs, r, r.key) + (if Answer(maxKeys, rs, r).Admitted? then [r.now] else []))
  {
    var bucket, log := BucketOf(Run(maxKeys, rs), r.key), LogAt(maxKeys, rs, r, r.key);
    assert Forgets(maxKeys, rs, r) ==> bucket == [];
    assert Suffix(bucket, log);
    AnswerIsStep(maxKeys, rs, r);
    OwnBucket(Run(maxKeys, rs), maxKeys, r);
    hide Run, Step, Forgets, Prune, Log, LogAt, Answer;
    PruneIsSuffix(bucket, Cutoff(r.now, r.window));
    SuffixGrows(Prune(bucket, Cutoff(r.now, r.window)), bucket, log, r.now);
  }

  lemma SuffixGrows(left: seq<real>, bucket: seq<real>, log: seq<real>, now: real)
    requires Suffix(bucket, log) && |left| <= |bucket| && left == bucket[|bucket| - |left|..]
    ensures Suffix(left, log + []) && Suffix(left + [now], log + [now])
  {
    assert log + [] == log;
  }

  lemma Regroup(past: seq<real>, gone: seq<real>, bucket: seq<real>, added: seq<real>,
                left: seq<real>, bucket': seq<real>)
    requires past == gone + bucket && bucket + added == left + bucket'
    ensures past + added == (gone + left) + bucket'
  {
    assert past + added == gone + (bucket + added);
  }

  /** First in, first out: all admissions, in order, are those that left followed by those still stored. */
  lemma {:induction false} Conservation(maxKeys: int, rs: seq<Request>, key: string)
    ensures Admissions(maxKeys, rs, key)
            == Times(Departures(maxKeys, rs, key)) + BucketOf(Run(maxKeys, rs), key)
  {
    if rs != [] {
      var rs0, r := rs[..|rs| - 1], rs[|rs| - 1];
      Conservation(maxKeys, rs0, key);
      StepConserves(maxKeys, rs0, r, key);
      TimesConcat(Departures(maxKeys, rs0, key), Leaving(maxKeys, rs0, r, key));
      Regroup(Admissions(maxKeys, rs0, key), Times(Departures(maxKeys, rs0, key)),
              BucketOf(Run(maxKeys, rs0), key),
              if r.Hit? && r.key == key && Answer(maxKeys, rs0, r).Admitted? then [r.now] else [],
              Times(Leaving(maxKeys, rs0, r, key)), BucketOf(Run(maxKeys, rs), key));
    }
  }

  /** Entries leave when the whole table is emptied, when an arriving key finds it full and theirs idle, or when their
      own key pops them. */
  lemma DepartureExplained(maxKeys: int, rs: seq<Request>, r: Request, key: string, d: Departure)
    requires d in Leaving(maxKeys, rs, r, key)
    ensures d.cause == Emptied ==> Step(Run(maxKeys, rs), maxKeys, r).0.Keys <= (if r.Hit? then {r.key} else {})
    ensures d.cause == EvictedIdle ==>
              && r.Hit? && r.key !in Run(maxKeys, rs) && |Run(maxKeys, rs)| >= maxKeys
              && Run(maxKeys, rs)[key][|Run(maxKeys, rs)[key]| - 1] <= r.now - r.window as real
              && key !in Step(Run(maxKeys, rs), maxKeys, r).0
    ensures d.cause == Expired ==> r.Hit? && r.key == key && d.at <= r.now - r.window as real
  {
    hide Run, Judge;
    var bucket := BucketOf(Run(maxKeys, rs), key);
    if !Forgets(maxKeys, rs, r) {
      PruneIsSuffix(bucket, Cutoff(r.now, r.window));
    }
    hide Prune;
  }

  /** An entry that expires has left the window of the request that popped it. */
  lemma ExpiredIsOld(maxKeys: int, rs: seq<Request>, r: Request, key: string, i: nat)
    requires i < |Leaving(maxKeys, rs, r, key)| && Leaving(maxKeys, rs, r, key)[i].cause.Expired?
    ensures r.Hit? && r.key == key && Leaving(maxKeys, rs, r, key)[i].at <= Cutoff(r.now, r.window)
  {
    if r.Hit? {
      PruneIsSuffix(BucketOf(Run(maxKeys, rs), key), Cutoff(r.now, r.window));
    }
  }

  // ---------------------------------------------------------------- runs that never clear the table

  /** The keys with an earlier hit inside the window of the request. */
  function KeysWithin(rs: seq<Request>, r: Request): set<string>
    requires r.Hit?
  {
    set x | x in rs && x.Hit? && x.now > Cutoff(r.now, r.window) :: x.key
  }

  /** What a caller can see to: no request finds more than `crowd` keys in its window. */
  predicate Uncrowded(rs: seq<Request>, crowd: int) {
    rs != [] ==>
      var rs0, r := rs[..|rs| - 1], rs[|rs| - 1];
      Uncrowded(rs0, crowd) && (r.Hit? ==> |KeysWithin(rs0, r)| <= crowd)
  }

  lemma {:induction false} RecordIsOfHits(maxKeys: int, rs: seq<Request>, key: string, t: real)
    requires t in Log(maxKeys, rs, key)
    ensures exists r | r in rs :: r.Hit? && r.key == key && r.now == t
  {
    hide Answer, Forgets;
    var rs0, r := rs[..|rs| - 1], rs[|rs| - 1];
    if t in Log(maxKeys, rs0, key) {
      RecordIsOfHits(maxKeys, rs0, key, t);
      var x :| x in rs0 && x.Hit? && x.key == key && x.now == t;
      assert x in rs;
    } else {
      assert r in rs && r.now == t;
    }
  }

  /** A key that is not idle was hit inside the window. */
  lemma NotIdleWasHit(maxKeys: int, rs: seq<Request>, r: Request, key: string)
    requires r.Hit? && key in DropIdle(Run(maxKeys, rs), Cutoff(r.now, r.window))
    ensures key in KeysWithin(rs, r)
  {
    var bucket := BucketOf(Run(maxKeys, rs), key);
    DequeIsSuffix(maxKeys, rs, key);
    hide Run, Log;
    assert bucket[|bucket| - 1] in Log(maxKeys, rs, key);
    RecordIsOfHits(maxKeys, rs, key, bucket[|bucket| - 1]);
  }

  /** A full clear needs as many keys in one window as the table may hold. */
  lemma {:induction false} UncrowdedNeverClears(maxKeys: int, rs: seq<Request>, crowd: int)
    requires Uncrowded(rs, crowd) && crowd < maxKeys
    ensures NeverClears(maxKeys, rs)
  {
    if rs != [] {
      var rs0, r := rs[..|rs| - 1], rs[|rs| - 1];
      UncrowdedNeverClears(maxKeys, rs0, crowd);
      if r.Hit? {
        hide Run, KeysWithin, DropIdle;
        var left := DropIdle(Run(maxKeys, rs0), Cutoff(r.now, r.window));
        forall k | k in left.Keys ensures k in KeysWithin(rs0, r) {
          NotIdleWasHit(maxKeys, rs0, r, k);
        }
        SubsetBound(left.Keys, KeysWithin(rs0, r));
        assert |left| == |left.Keys|;
      }
    }
  }

  /** Such a run without resets forgets nothing. */
  lemma {:induction false} UncrowdedForgetsNothing(maxKeys: int, rs: seq<Request>, crowd: int)
    requires Uncrowded(rs, crowd) && crowd < maxKeys && forall r | r in rs :: r.Hit?
    ensures NoForgets(maxKeys, rs)
  {
    UncrowdedNeverClears(maxKeys, rs, crowd);
    HitsForgetNothing(maxKeys, rs);
  }

  lemma {:induction false} HitsForgetNothing(maxKeys: int, rs: seq<Request>)
    requires NeverClears(maxKeys, rs) && forall r | r in rs :: r.Hit?
    ensures NoForgets(maxKeys, rs)
  {
    if rs != [] {
      assert rs[|rs| - 1] in rs;
      HitsForgetNothing(maxKeys, rs[..|rs| - 1]);
    }
  }
}
