/** Runs built step by step, for showing what can happen: bursts on one key, a full table, a sweeping eviction. */
module LimiterScenarios {
  import opened Prelude
  import opened Stamps
  import opened RateLimiter
  import opened LimiterRuns

  /** Every request so far was a hit that was admitted, and none emptied the table. */
  predicate Smooth(maxKeys: int, rs: seq<Request>) {
    rs != [] ==>
      var rs0, r := rs[..|rs| - 1], rs[|rs| - 1];
      Smooth(maxKeys, rs0) && !Forgets(maxKeys, rs0, r) && Answer(maxKeys, rs0, r).Admitted?
  }

  lemma {:induction false} SmoothForgetsNothing(maxKeys: int, rs: seq<Request>)
    requires Smooth(maxKeys, rs)
    ensures NoForgets(maxKeys, rs)
  {
    if rs != [] {
      SmoothForgetsNothing(maxKeys, rs[..|rs| - 1]);
    }
  }

  lemma {:induction false} SmoothAdmits(maxKeys: int, rs: seq<Request>, i: nat)
    requires Smooth(maxKeys, rs) && i < |rs|
    ensures Answer(maxKeys, rs[..i], rs[i]).Admitted?
  {
    if i < |rs| - 1 {
      SmoothAdmits(maxKeys, rs[..|rs| - 1], i);
      assert rs[..|rs| - 1][..i] == rs[..i];
    }
  }

  /** The request finds its key present or a table with room for it; the first request of a run always does. */
  predicate HasRoom(maxKeys: int, rs: seq<Request>, key: string) {
    key in Run(maxKeys, rs) || |Run(maxKeys, rs)| < maxKeys
  }

  /** The run continues with an admission. */
  predicate Extends(maxKeys: int, rs: seq<Request>, rs': seq<Request>, key: string, admitted: seq<real>) {
    && Log(maxKeys, rs', key) == Log(maxKeys, rs, key) + admitted
    && (Smooth(maxKeys, rs) ==> Smooth(maxKeys, rs'))
  }

  lemma Appended(maxKeys: int, rs: seq<Request>, r: Request)
    requires !Forgets(maxKeys, rs, r)
    ensures Run(maxKeys, rs + [r]) == Step(Run(maxKeys, rs), maxKeys, r).0
    ensures forall k :: Log(maxKeys, rs + [r], k)
              == Log(maxKeys, rs, k)
                 + (if r.Hit? && r.key == k && Answer(maxKeys, rs, r).Admitted? then [r.now] else [])
    ensures Smooth(maxKeys, rs) && Answer(maxKeys, rs, r).Admitted? ==> Smooth(maxKeys, rs + [r])
  {
    hide Forgets, Step;
    assert (rs + [r])[..|rs|] == rs;
    assert forall k :: Log(maxKeys, rs, k) + [] == Log(maxKeys, rs, k);
  }

  lemma StepAdmits(h: Table, maxKeys: int, r: Request, left: seq<real>)
    requires r.Hit? && (r.key in h || |h| < maxKeys)
    requires Prune(BucketOf(h, r.key), Cutoff(r.now, r.window)) == left && |left| < r.limit
    ensures Step(h, maxKeys, r) == (h[r.key := left + [r.now]], Admitted)
  {
    hide Prune;
    var table := Opened(h, r.key, Cutoff(r.now, r.window), maxKeys);
    assert table[r.key := left + [r.now]] == h[r.key := left + [r.now]];
  }

  lemma Admits(maxKeys: int, rs: seq<Request>, r: Request, left: seq<real>)
    requires r.Hit? && HasRoom(maxKeys, rs, r.key)
    requires Prune(BucketOf(Run(maxKeys, rs), r.key), Cutoff(r.now, r.window)) == left && |left| < r.limit
    ensures Answer(maxKeys, rs, r).Admitted? && !Forgets(maxKeys, rs, r)
    ensures Run(maxKeys, rs + [r]) == Run(maxKeys, rs)[r.key := left + [r.now]]
    ensures Extends(maxKeys, rs, rs + [r], r.key, [r.now])
    ensures forall k | k != r.key :: Log(maxKeys, rs + [r], k) == Log(maxKeys, rs, k)
  {
    assert !Forgets(maxKeys, rs, r);
    hide Run, Step, Prune, Forgets;
    StepAdmits(Run(maxKeys, rs), maxKeys, r, left);
    Appended(maxKeys, rs, r);
    assert forall k :: Log(maxKeys, rs, k) + [] == Log(maxKeys, rs, k);
  }

  /** The same request n times at one reading, with room in deque and table for all of them. */
  lemma {:induction false} Burst(maxKeys: int, rs: seq<Request>, r: Request, n: nat)
    requires r.Hit? && HasRoom(maxKeys, rs, r.key) && n >= 1 && r.window >= 1
    requires var bucket := BucketOf(Run(maxKeys, rs), r.key);
             |bucket| + n <= r.limit && (bucket == [] || bucket[0] > Cutoff(r.now, r.window))
    ensures Run(maxKeys, rs + Repeat(r, n))
            == Run(maxKeys, rs)[r.key := BucketOf(Run(maxKeys, rs), r.key) + Repeat(r.now, n)]
    ensures Extends(maxKeys, rs, rs + Repeat(r, n), r.key, Repeat(r.now, n))
    ensures forall k | k != r.key :: Log(maxKeys, rs + Repeat(r, n), k) == Log(maxKeys, rs, k)
  {
    hide Run, Log, Smooth;
    var bucket := BucketOf(Run(maxKeys, rs), r.key);
    if n == 1 {
      assert Repeat(r, 1) == [r] && Repeat(r.now, 1) == [r.now];
      assert Prune(bucket, Cutoff(r.now, r.window)) == bucket;
      hide *;
      Admits(maxKeys, rs, r, bucket);
    } else {
      var mid, ts := rs + Repeat(r, n - 1), Repeat(r.now, n - 1);
      Burst(maxKeys, rs, r, n - 1);
      RepeatNext(r, n - 1);
      RepeatNext(r.now, n - 1);
      RepeatLength(r.now, n - 1);
      assert (bucket + ts)[0] > Cutoff(r.now, r.window);
      hide *;
      assert rs + Repeat(r, n) == mid + [r];
      assert (bucket + ts) + [r.now] == bucket + Repeat(r.now, n);
      BurstNext(maxKeys, rs, mid, r, bucket + ts, ts);
    }
  }

  lemma BurstNext(maxKeys: int, rs: seq<Request>, mid: seq<Request>, r: Request, left: seq<real>, ts: seq<real>)
    requires r.Hit? && Run(maxKeys, mid) == Run(maxKeys, rs)[r.key := left]
    requires |left| < r.limit && left != [] && left[0] > Cutoff(r.now, r.window)
    requires Extends(maxKeys, rs, mid, r.key, ts)
    requires forall k | k != r.key :: Log(maxKeys, mid, k) == Log(maxKeys, rs, k)
    ensures Run(maxKeys, mid + [r]) == Run(maxKeys, rs)[r.key := left + [r.now]]
    ensures Extends(maxKeys, rs, mid + [r], r.key, ts + [r.now])
    ensures forall k | k != r.key :: Log(maxKeys, mid + [r], k) == Log(maxKeys, rs, k)
  {
    hide Run, Log, Smooth;
    Admits(maxKeys, mid, r, left);
    assert (Log(maxKeys, rs, r.key) + ts) + [r.now] == Log(maxKeys, rs, r.key) + (ts + [r.now]);
  }

  /** The same on a key whose deque is absent or pruned away: it then holds the burst. */
  lemma Refill(maxKeys: int, rs: seq<Request>, r: Request, n: nat)
    requires r.Hit? && HasRoom(maxKeys, rs, r.key) && 1 <= n <= r.limit && r.window >= 1
    requires Prune(BucketOf(Run(maxKeys, rs), r.key), Cutoff(r.now, r.window)) == []
    ensures Run(maxKeys, rs + Repeat(r, n)) == Run(maxKeys, rs)[r.key := Repeat(r.now, n)]
    ensures Extends(maxKeys, rs, rs + Repeat(r, n), r.key, Repeat(r.now, n))
    ensures forall k | k != r.key :: Log(maxKeys, rs + Repeat(r, n), k) == Log(maxKeys, rs, k)
  {
    hide *;
    RefillStart(maxKeys, rs, r);
    RepeatOne(r, n);
    RepeatOne(r.now, n);
    if n > 1 {
      Associative(rs, [r], Repeat(r, n - 1));
      RefillRest(maxKeys, rs, rs + [r], r, n - 1);
    }
  }

  /** The first of the burst leaves its own reading only. */
  lemma RefillStart(maxKeys: int, rs: seq<Request>, r: Request)
    requires r.Hit? && HasRoom(maxKeys, rs, r.key) && r.limit >= 1
    requires Prune(BucketOf(Run(maxKeys, rs), r.key), Cutoff(r.now, r.window)) == []
    ensures Run(maxKeys, rs + [r]) == Run(maxKeys, rs)[r.key := [r.now]]
    ensures Extends(maxKeys, rs, rs + [r], r.key, [r.now])
    ensures forall k | k != r.key :: Log(maxKeys, rs + [r], k) == Log(maxKeys, rs, k)
  {
    hide Run, Log, Smooth, Prune;
    assert [] + [r.now] == [r.now];
    Admits(maxKeys, rs, r, []);
  }

  lemma RefillRest(maxKeys: int, rs: seq<Request>, first: seq<Request>, r: Request, n: nat)
    requires r.Hit? && 1 <= n < r.limit && r.window >= 1
    requires Run(maxKeys, first) == Run(maxKeys, rs)[r.key := [r.now]]
    requires Extends(maxKeys, rs, first, r.key, [r.now])
    requires forall k | k != r.key :: Log(maxKeys, first, k) == Log(maxKeys, rs, k)
    ensures Run(maxKeys, first + Repeat(r, n)) == Run(maxKeys, rs)[r.key := [r.now] + Repeat(r.now, n)]
    ensures Extends(maxKeys, rs, first + Repeat(r, n), r.key, [r.now] + Repeat(r.now, n))
    ensures forall k | k != r.key :: Log(maxKeys, first + Repeat(r, n), k) == Log(maxKeys, rs, k)
  {
    hide Run, Log, Smooth, Repeat;
    Burst(maxKeys, first, r, n);
    Associative(Log(maxKeys, rs, r.key), [r.now], Repeat(r.now, n));
  }

  lemma RepeatOne<T>(x: T, n: nat)
    requires n >= 1
    ensures Repeat(x, n) == if n == 1 then [x] else [x] + Repeat(x, n - 1)
  {
  }

  lemma RepeatLength<T>(x: T, n: nat)
    ensures |Repeat(x, n)| == n && forall i | 0 <= i < n :: Repeat(x, n)[i] == x
  {
  }

  // ---------------------------------------------------------------- filling the table

  /** The global key of a client named by i more characters than `base`: longer than any key of interest. */
  function Pad(base: nat, i: nat): string {
    "global" + ":" + Repeat('x', base + i)
  }

  function Constant(window: int): string -> int {
    _ => window
  }

  /** One hit on each of n padding keys. */
  function Fill(base: nat, n: nat, w: string -> int, t: real): seq<Request> {
    seq(n, i requires 0 <= i < n => Hit(Pad(base, i), 1, w(Pad(base, i)), t))
  }

  /** The table h' is h with n padding keys, each holding the one entry t. */
  predicate Padded(h: Table, h': Table, base: nat, n: nat, t: real) {
    && |h'| == |h| + n
    && (forall k | k in h :: k in h' && h'[k] == h[k])
    && (forall k | k in h' && k !in h :: base + 6 < |k| <= base + 6 + n && h'[k] == [t])
  }

  ghost predicate SameShortLogs(maxKeys: int, rs: seq<Request>, rs': seq<Request>, base: nat) {
    forall k | |k| <= base :: Log(maxKeys, rs', k) == Log(maxKeys, rs, k)
  }

  lemma PaddedNext(h: Table, h': Table, base: nat, n: nat, t: real, key: string)
    requires Padded(h, h', base, n, t) && |key| == base + 7 + n && forall k | k in h :: |k| <= base
    ensures key !in h' && Padded(h, h'[key := [t]], base, n + 1, t)
  {
    assert h'[key := [t]].Keys == h'.Keys + {key};
  }

  lemma {:induction false} Filled(maxKeys: int, rs: seq<Request>, base: nat, n: nat, w: string -> int, t: real)
    requires |Run(maxKeys, rs)| + n <= maxKeys && forall k | k in Run(maxKeys, rs) :: |k| <= base
    ensures Padded(Run(maxKeys, rs), Run(maxKeys, rs + Fill(base, n, w, t)), base, n, t)
    ensures Smooth(maxKeys, rs) ==> Smooth(maxKeys, rs + Fill(base, n, w, t))
    ensures SameShortLogs(maxKeys, rs, rs + Fill(base, n, w, t), base)
  {
    hide Run, Log, Smooth, Fill, Pad, Padded, SameShortLogs;
    if n == 0 {
      FilledNone(maxKeys, rs, base, w, t);
    } else {
      var mid, r := rs + Fill(base, n - 1, w, t), Hit(Pad(base, n - 1), 1, w(Pad(base, n - 1)), t);
      FillGrows(rs, base, n - 1, w, t);
      Filled(maxKeys, rs, base, n - 1, w, t);
      PadLength(base, n - 1);
      PaddedNext(Run(maxKeys, rs), Run(maxKeys, mid), base, n - 1, t, r.key);
      FillNext(maxKeys, rs, mid, r, base, n - 1);
    }
  }

  lemma FilledNone(maxKeys: int, rs: seq<Request>, base: nat, w: string -> int, t: real)
    ensures rs + Fill(base, 0, w, t) == rs
    ensures Padded(Run(maxKeys, rs), Run(maxKeys, rs), base, 0, t) && SameShortLogs(maxKeys, rs, rs, base)
  {
    hide Run, Log;
  }

  lemma FillGrows(rs: seq<Request>, base: nat, n: nat, w: string -> int, t: real)
    ensures rs + Fill(base, n + 1, w, t) == rs + Fill(base, n, w, t) + [Hit(Pad(base, n), 1, w(Pad(base, n)), t)]
  {
  }

  lemma FillNext(maxKeys: int, rs: seq<Request>, mid: seq<Request>, r: Request, base: nat, n: nat)
    requires r.Hit? && r.limit >= 1 && r.key !in Run(maxKeys, mid) && |r.key| > base
    requires Padded(Run(maxKeys, rs), Run(maxKeys, mid), base, n, r.now) && |Run(maxKeys, rs)| + n < maxKeys
    requires SameShortLogs(maxKeys, rs, mid, base)
    ensures Run(maxKeys, mid + [r]) == Run(maxKeys, mid)[r.key := [r.now]]
    ensures Smooth(maxKeys, mid) ==> Smooth(maxKeys, mid + [r])
    ensures SameShortLogs(maxKeys, rs, mid + [r], base)
  {
    hide Run, Log, Smooth;
    FreshAdmits(maxKeys, mid, r);
  }

  lemma PadLength(base: nat, i: nat)
    ensures |Pad(base, i)| == base + 7 + i
  {
  }

  lemma FreshAdmits(maxKeys: int, rs: seq<Request>, r: Request)
    requires r.Hit? && r.limit >= 1 && r.key !in Run(maxKeys, rs) && |Run(maxKeys, rs)| < maxKeys
    ensures Run(maxKeys, rs + [r]) == Run(maxKeys, rs)[r.key := [r.now]]
    ensures Log(maxKeys, rs + [r], r.key) == Log(maxKeys, rs, r.key) + [r.now]
    ensures Smooth(maxKeys, rs) ==> Smooth(maxKeys, rs + [r])
    ensures forall k | k != r.key :: Log(maxKeys, rs + [r], k) == Log(maxKeys, rs, k)
  {
    assert Prune([], Cutoff(r.now, r.window)) == [] && [] + [r.now] == [r.now];
    hide Run, Log, Smooth, Prune;
    Admits(maxKeys, rs, r, []);
  }

  // ---------------------------------------------------------------- a sweeping eviction

  predicate AllIdle(h: Table, cutoff: real) {
    forall k | k in h :: Idle(h[k], cutoff)
  }

  /** An arrival at a full table that leaves some keys. */
  lemma SweepsTo(maxKeys: int, rs: seq<Request>, r: Request, kept: Table)
    requires r.Hit? && r.limit >= 1 && NeedsRoom(Run(maxKeys, rs), r.key, maxKeys)
    requires DropIdle(Run(maxKeys, rs), Cutoff(r.now, r.window)) == kept && |kept| < maxKeys
    ensures Run(maxKeys, rs + [r]) == kept[r.key := [r.now]]
    ensures Smooth(maxKeys, rs) ==> Smooth(maxKeys, rs + [r])
    ensures forall k | k != r.key :: Log(maxKeys, rs + [r], k) == Log(maxKeys, rs, k)
  {
    var h, cutoff := Run(maxKeys, rs), Cutoff(r.now, r.window);
    assert r.key !in kept;
    hide Run, DropIdle;
    assert Opened(h, r.key, cutoff, maxKeys) == kept[r.key := []];
    assert [] + [r.now] == [r.now] && Prune([], cutoff) == [];
    assert kept[r.key := []][r.key := [r.now]] == kept[r.key := [r.now]];
    assert Step(h, maxKeys, r) == (kept[r.key := [r.now]], Admitted);
    Appended(maxKeys, rs, r);
    assert forall k :: Log(maxKeys, rs, k) + [] == Log(maxKeys, rs, k);
  }

  /** An arrival at a full table of idle keys drops them all. */
  lemma Sweeps(maxKeys: int, rs: seq<Request>, r: Request)
    requires r.Hit? && maxKeys >= 1 && r.limit >= 1 && NeedsRoom(Run(maxKeys, rs), r.key, maxKeys)
    requires AllIdle(Run(maxKeys, rs), Cutoff(r.now, r.window))
    ensures Run(maxKeys, rs + [r]) == map[r.key := [r.now]]
    ensures Smooth(maxKeys, rs) ==> Smooth(maxKeys, rs + [r])
    ensures forall k | k != r.key :: Log(maxKeys, rs + [r], k) == Log(maxKeys, rs, k)
  {
    assert DropIdle(Run(maxKeys, rs), Cutoff(r.now, r.window)) == map[];
    hide Run, DropIdle, AllIdle;
    SweepsTo(maxKeys, rs, r, map[]);
  }
}
