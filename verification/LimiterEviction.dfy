/** When deleting idle keys (`_evict` of app/ratelimit.py) is invisible to callers, and when it is not. */
module LimiterEviction {
  import opened Prelude
  import opened Stamps
  import opened RateLimiter
  import opened LimiterRuns
  import opened LimiterScenarios

  /** A limiter with more room than there are requests never runs out of it. */
  lemma {:induction false} RoomyNeverFull(maxKeys: int, rs: seq<Request>)
    ensures |Run(maxKeys, rs)| <= |rs|
  {
    if rs != [] {
      var rs0, r := rs[..|rs| - 1], rs[|rs| - 1];
      assert Run(maxKeys, rs) == Step(Run(maxKeys, rs0), maxKeys, r).0;
      RoomyNeverFull(maxKeys, rs0);
      if r.Hit? {
        hide Run, Judge, Prune;
        var h := Run(maxKeys, rs0);
        var table := Opened(h, r.key, Cutoff(r.now, r.window), maxKeys);
        assert DropIdle(h, Cutoff(r.now, r.window)).Keys <= h.Keys;
        assert table.Keys <= h.Keys + {r.key};
        assert Step(h, maxKeys, r).0.Keys == table.Keys;
        SubsetBound(table.Keys, h.Keys + {r.key});
      }
    }
  }

  lemma {:induction false} RoomyNeverClears(maxKeys: int, rs: seq<Request>)
    requires maxKeys > |rs|
    ensures NeverClears(maxKeys, rs)
  {
    if rs != [] {
      RoomyNeverClears(maxKeys, rs[..|rs| - 1]);
      RoomyNeverFull(maxKeys, rs[..|rs| - 1]);
    }
  }

  /** Two caps that are never exceeded to the point of clearing leave the same record. */
  lemma {:induction false} SameLog(m1: int, m2: int, rs: seq<Request>, window: int, key: string)
    requires NonDecreasing(rs) && OneWindow(rs, window) && NeverClears(m1, rs) && NeverClears(m2, rs)
    ensures Log(m1, rs, key) == Log(m2, rs, key)
  {
    hide Run, Step, Live, Judge;
    if rs != [] {
      var rs0, r := rs[..|rs| - 1], rs[|rs| - 1];
      SameLog(m1, m2, rs0, window, key);
      if r.Hit? && r.key == key {
        assert rs0 + [r] == rs;
        SameAnswer(m1, m2, rs0, r, window);
      }
    }
  }

  lemma SameAnswer(m1: int, m2: int, rs: seq<Request>, r: Request, window: int)
    requires r.Hit? && NonDecreasing(rs + [r]) && OneWindow(rs + [r], window)
    requires !Forgets(m1, rs, r) && !Forgets(m2, rs, r) && Log(m1, rs, r.key) == Log(m2, rs, r.key)
    ensures Answer(m1, rs, r) == Answer(m2, rs, r)
  {
    hide Run, Step, Live, Judge, Log, Forgets;
    assert (rs + [r])[|rs|] == r;
    DecisionIsNaive(m1, rs, r);
    DecisionIsNaive(m2, rs, r);
  }

  /** Deleting idle keys is invisible: same decision, same retry time, as with no cap at all, forever. */
  lemma {:induction false} EvictionIsTransparent(maxKeys: int, uncapped: int, rs: seq<Request>, r: Request, window: int)
    requires NonDecreasing(rs + [r]) && OneWindow(rs + [r], window)
    requires NeverClears(maxKeys, rs + [r]) && uncapped > |rs| + 1
    ensures Answer(maxKeys, rs, r) == Answer(uncapped, rs, r)
  {
    var all := rs + [r];
    assert all[..|rs|] == rs && all[|rs|] == r;
    RoomyNeverClears(uncapped, all);
    if r.Hit? {
      SameLog(maxKeys, uncapped, rs, window, r.key);
      SameAnswer(maxKeys, uncapped, rs, r, window);
    }
  }

  // ---------------------------------------------------------------- exactly when the cap is invisible

  /** Every key is always used with its own window, and limits are positive. */
  predicate Configured(rs: seq<Request>, w: string -> int) {
    forall i | 0 <= i < |rs| && rs[i].Hit? :: rs[i].window == w(rs[i].key) && rs[i].limit >= 1
  }

  /** In no run that stays clear of the full clear does the cap change an answer. */
  ghost predicate CapInvisible(maxKeys: int, w: string -> int, skew: real) {
    forall rs, r: Request |
      Configured(rs + [r], w) && AllSkewWithin(rs + [r], skew) && NeverClears(maxKeys, rs + [r]) ::
      Answer(maxKeys, rs, r) == Answer(|rs| + 2, rs, r)
  }

  /** The cap is invisible if and only if all windows are equal and the clock never runs backwards. */
  lemma {:induction false} CapInvisibleIff(maxKeys: int, w: string -> int, skew: real)
    requires maxKeys >= 2 && skew >= 0.0 && forall k :: w(k) >= 1
    ensures CapInvisible(maxKeys, w, skew) <==> skew == 0.0 && forall a, b :: w(a) == w(b)
  {
    if a, b :| w(a) > w(b) {
      MixedWindowsForget(maxKeys, w, skew, a, b);
    } else if skew > 0.0 {
      SkewForgets(maxKeys, w, skew, "a", "b");
    } else {
      forall rs, r: Request |
        Configured(rs + [r], w) && AllSkewWithin(rs + [r], skew) && NeverClears(maxKeys, rs + [r])
        ensures Answer(maxKeys, rs, r) == Answer(|rs| + 2, rs, r)
      {
        assert forall a, b :: w(a) <= w(b);
        assert OneWindow(rs + [r], w("")) by {
          forall k ensures w(k) == w("") {
            assert w(k) <= w("") && w("") <= w(k);
          }
        }
        EvictionIsTransparent(maxKeys, |rs| + 2, rs, r, w(""));
      }
    }
  }

  /** The table with key a filled up at time zero. */
  function Filling(rs: seq<Request>, a: string, b: string, n: nat, w: string -> int): seq<Request> {
    rs + Fill(|a| + |b|, n, w, 0.0)
  }

  /** And then a sweep by key b. */
  function Sweep(rs: seq<Request>, a: string, b: string, n: nat, w: string -> int): seq<Request> {
    Filling(rs, a, b, n, w) + [Hit(b, 1, w(b), w(b) as real)]
  }

  lemma SweepForgets(maxKeys: int, rs: seq<Request>, a: string, b: string, w: string -> int)
    requires maxKeys >= 2 && a != b && Smooth(maxKeys, rs)
    requires Run(maxKeys, rs).Keys == {a} && Idle(Run(maxKeys, rs)[a], 0.0)
    ensures var swept := Sweep(rs, a, b, maxKeys - 1, w);
            && Smooth(maxKeys, swept)
            && Run(maxKeys, swept) == map[b := [w(b) as real]]
            && Log(maxKeys, swept, a) == Log(maxKeys, rs, a)
  {
    var full, r := Filling(rs, a, b, maxKeys - 1, w), Hit(b, 1, w(b), w(b) as real);
    assert Sweep(rs, a, b, maxKeys - 1, w) == full + [r];
    hide *;
    FillingFills(maxKeys, rs, a, b, maxKeys - 1, w);
    FullIsIdle(Run(maxKeys, rs), Run(maxKeys, full), a, b, |a| + |b|, maxKeys - 1);
    SweepsFull(maxKeys, full, r);
  }

  lemma FillingFills(maxKeys: int, rs: seq<Request>, a: string, b: string, n: nat, w: string -> int)
    requires Run(maxKeys, rs).Keys == {a} && n < maxKeys
    ensures |Run(maxKeys, rs)| == 1
    ensures Padded(Run(maxKeys, rs), Run(maxKeys, Filling(rs, a, b, n, w)), |a| + |b|, n, 0.0)
    ensures Smooth(maxKeys, rs) ==> Smooth(maxKeys, Filling(rs, a, b, n, w))
    ensures Log(maxKeys, Filling(rs, a, b, n, w), a) == Log(maxKeys, rs, a)
  {
    hide Run, Smooth, Log, Padded, Fill;
    OneKeyTable(Run(maxKeys, rs), a);
    Filled(maxKeys, rs, |a| + |b|, n, w, 0.0);
  }

  lemma OneKeyTable(h: Table, a: string)
    requires h.Keys == {a}
    ensures |h| == 1 && forall k | k in h :: k == a
  {
    assert |h| == |h.Keys|;
  }

  /** The sweep happens w(b) seconds after the entries it drops. */
  lemma SweepsFull(maxKeys: int, rs: seq<Request>, r: Request)
    requires r.Hit? && maxKeys >= 1 && r.limit >= 1 && r.now == r.window as real
    requires r.key !in Run(maxKeys, rs) && |Run(maxKeys, rs)| >= maxKeys && AllIdle(Run(maxKeys, rs), 0.0)
    ensures Run(maxKeys, rs + [r]) == map[r.key := [r.now]]
    ensures Smooth(maxKeys, rs) ==> Smooth(maxKeys, rs + [r])
    ensures forall k | k != r.key :: Log(maxKeys, rs + [r], k) == Log(maxKeys, rs, k)
  {
    hide Run, Smooth, Log, AllIdle;
    Sweeps(maxKeys, rs, r);
  }

  lemma FullIsIdle(h: Table, h': Table, a: string, b: string, base: nat, n: nat)
    requires h.Keys == {a} && |h| == 1 && Idle(h[a], 0.0) && Padded(h, h', base, n, 0.0)
    requires a != b && base == |a| + |b|
    ensures b !in h' && |h'| == n + 1 && AllIdle(h', 0.0)
  {
  }

  /** With no cap the same run leaves the key's deque alone. */
  lemma SweepKeeps(cap: int, rs: seq<Request>, a: string, b: string, n: nat, w: string -> int)
    requires cap > n + 1 && a != b && Run(cap, rs).Keys == {a}
    ensures BucketOf(Run(cap, Sweep(rs, a, b, n, w)), a) == Run(cap, rs)[a]
    ensures a in Run(cap, Sweep(rs, a, b, n, w))
  {
    var full, r := Filling(rs, a, b, n, w), Hit(b, 1, w(b), w(b) as real);
    assert Sweep(rs, a, b, n, w) == full + [r];
    hide *;
    FillingFills(cap, rs, a, b, n, w);
    PaddedKeeps(Run(cap, rs), Run(cap, full), a, b, |a| + |b|, n);
    FreshAdmits(cap, full, r);
    BucketAfter(Run(cap, full), a, b, [r.now]);
  }

  lemma PaddedKeeps(h: Table, h': Table, a: string, b: string, base: nat, n: nat)
    requires h.Keys == {a} && |h| == 1 && Padded(h, h', base, n, 0.0) && a != b && base == |a| + |b|
    ensures a in h' && h'[a] == h[a] && b !in h' && |h'| == n + 1
  {
  }

  lemma BucketAfter(h: Table, a: string, b: string, bucket: seq<real>)
    requires a in h && a != b
    ensures a in h[b := bucket] && BucketOf(h[b := bucket], a) == h[a]
  {
  }

  lemma SweepConfigured(rs: seq<Request>, r: Request, a: string, b: string, n: nat, w: string -> int, skew: real)
    requires Configured(rs + [r], w) && r.Hit? && r.now == w(b) as real && w(b) >= 0
    requires AllSkewWithin(rs, skew) && skew >= 0.0
    requires forall i | 0 <= i < |rs| && rs[i].Hit? :: rs[i].now <= skew
    ensures Configured(Sweep(rs, a, b, n, w) + [r], w) && AllSkewWithin(Sweep(rs, a, b, n, w) + [r], skew)
  {
    var all := Sweep(rs, a, b, n, w) + [r];
    assert forall i | 0 <= i < |rs| :: all[i] == rs[i] == (rs + [r])[i];
    assert forall i | |rs| <= i < |rs| + n ::
             all[i].Hit? && all[i].now == 0.0 && all[i].window == w(all[i].key) && all[i].limit == 1;
    assert all[|rs| + n] == Hit(b, 1, w(b), w(b) as real);
    assert all[|rs| + n + 1] == r == (rs + [r])[|rs|];
  }

  /** A key whose newest entry looks idle to the sweep but whose deque is still full makes the cap visible. */
  lemma SweepVisible(maxKeys: int, rs: seq<Request>, r: Request, a: string, b: string, w: string -> int,
                     skew: real, bucket: seq<real>)
    requires maxKeys >= 2 && a != b && w(b) >= 0 && r.Hit? && r.key == a && r.now == w(b) as real
    requires Run(maxKeys, rs) == map[a := bucket] == Run(|rs| + maxKeys + 2, rs) && Smooth(maxKeys, rs)
    requires Configured(rs + [r], w) && AllSkewWithin(rs, skew) && skew >= 0.0
    requires forall i | 0 <= i < |rs| && rs[i].Hit? :: rs[i].now <= skew
    requires 1 <= r.limit <= |bucket| && bucket[0] > Cutoff(r.now, r.window) && Idle(bucket, 0.0)
    ensures !CapInvisible(maxKeys, w, skew)
  {
    hide *;
    SweepConfigured(rs, r, a, b, maxKeys - 1, w, skew);
    var swept := Sweep(rs, a, b, maxKeys - 1, w);
    SweepLength(rs, a, b, maxKeys - 1, w);
    SweptTables(maxKeys, rs, a, b, w, bucket, swept, |swept| + 2);
    AnswersDiffer(maxKeys, swept, r, bucket);
    Seen(maxKeys, swept, r, w, skew);
  }

  lemma SweptTables(maxKeys: int, rs: seq<Request>, a: string, b: string, w: string -> int, bucket: seq<real>,
                    swept: seq<Request>, uncapped: int)
    requires maxKeys >= 2 && a != b && Idle(bucket, 0.0) && Smooth(maxKeys, rs)
    requires swept == Sweep(rs, a, b, maxKeys - 1, w) && uncapped > maxKeys
    requires Run(maxKeys, rs) == map[a := bucket] && Run(uncapped, rs) == map[a := bucket]
    ensures Smooth(maxKeys, swept) && Run(maxKeys, swept) == map[b := [w(b) as real]]
    ensures a in Run(uncapped, swept) && Run(uncapped, swept)[a] == bucket
  {
    hide Run, Smooth, Sweep, Log;
    assert Run(maxKeys, rs).Keys == {a} && Run(uncapped, rs).Keys == {a};
    SweepForgets(maxKeys, rs, a, b, w);
    SweepKeeps(uncapped, rs, a, b, maxKeys - 1, w);
  }

  lemma SweepLength(rs: seq<Request>, a: string, b: string, n: nat, w: string -> int)
    ensures |Sweep(rs, a, b, n, w)| == |rs| + n + 1
  {
  }

  lemma Seen(maxKeys: int, rs: seq<Request>, r: Request, w: string -> int, skew: real)
    requires Configured(rs + [r], w) && AllSkewWithin(rs + [r], skew) && NeverClears(maxKeys, rs + [r])
    requires Answer(maxKeys, rs, r) != Answer(|rs| + 2, rs, r)
    ensures !CapInvisible(maxKeys, w, skew)
  {
  }

  /** Two windows at work: a short-window arrival evicts a long-window key, whose budget starts afresh. */
  lemma {:induction false} MixedWindowsForget(maxKeys: int, w: string -> int, skew: real, a: string, b: string)
    requires maxKeys >= 2 && skew >= 0.0 && w(a) > w(b) >= 1
    ensures !CapInvisible(maxKeys, w, skew)
  {
    var first := Hit(a, 1, w(a), 0.0);
    OneHit(maxKeys, first);
    OneHit(maxKeys + 3, first);
    hide Run, Smooth, CapInvisible;
    SweepVisible(maxKeys, [first], Hit(a, 1, w(a), w(b) as real), a, b, w, skew, [0.0]);
  }

  lemma OneHit(maxKeys: int, r: Request)
    requires r.Hit? && r.limit >= 1 && maxKeys >= 1
    ensures Run(maxKeys, [r]) == map[r.key := [r.now]] && Smooth(maxKeys, [r])
  {
    assert [] + [r] == [r];
    FreshAdmits(maxKeys, [], r);
  }

  /** Without the cap the deque is still full; with it, the key is new to a table with room. */
  lemma AnswersDiffer(maxKeys: int, rs: seq<Request>, r: Request, bucket: seq<real>)
    requires r.Hit? && r.key !in Run(maxKeys, rs) && |Run(maxKeys, rs)| < maxKeys && Smooth(maxKeys, rs)
    requires r.key in Run(|rs| + 2, rs) && Run(|rs| + 2, rs)[r.key] == bucket
    requires 1 <= r.limit <= |bucket| && bucket[0] > Cutoff(r.now, r.window)
    ensures NeverClears(maxKeys, rs + [r]) && Answer(maxKeys, rs, r) != Answer(|rs| + 2, rs, r)
  {
    SmoothNeverClears(maxKeys, rs);
    assert (rs + [r])[..|rs|] == rs;
    hide Run;
    assert Prune([], Cutoff(r.now, r.window)) == [];
  }

  lemma {:induction false} SmoothNeverClears(maxKeys: int, rs: seq<Request>)
    requires Smooth(maxKeys, rs)
    ensures NeverClears(maxKeys, rs)
  {
    if rs != [] {
      SmoothNeverClears(maxKeys, rs[..|rs| - 1]);
    }
  }

  /** A late reading at work: the eviction looks only at the newest entry and drops an older one still counted. */
  lemma {:induction false} SkewForgets(maxKeys: int, w: string -> int, skew: real, a: string, b: string)
    requires maxKeys >= 2 && skew > 0.0 && a != b && w(a) >= w(b) >= 1
    ensures !CapInvisible(maxKeys, w, skew)
  {
    var first, second := Hit(a, 2, w(a), skew), Hit(a, 2, w(a), 0.0);
    TwoHits(maxKeys, first, second);
    TwoHits(maxKeys + 4, first, second);
    hide Run, Smooth, CapInvisible;
    SweepVisible(maxKeys, [first, second], Hit(a, 2, w(a), w(b) as real), a, b, w, skew, [skew, 0.0]);
  }

  lemma TwoHits(maxKeys: int, r: Request, r': Request)
    requires r.Hit? && r'.Hit? && r.key == r'.key && r.limit >= 1 && r'.limit >= 2 && maxKeys >= 1
    requires r.now > Cutoff(r'.now, r'.window)
    ensures Run(maxKeys, [r, r']) == map[r.key := [r.now, r'.now]] && Smooth(maxKeys, [r, r'])
  {
    OneHit(maxKeys, r);
    hide Run, Smooth, Log;
    assert [r] + [r'] == [r, r'] && [r.now] + [r'.now] == [r.now, r'.now];
    assert Prune([r.now], Cutoff(r'.now, r'.window)) == [r.now];
    Admits(maxKeys, [r], r', [r.now]);
  }
}
