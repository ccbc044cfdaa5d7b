/** The sliding-window limiter of app/ratelimit.py: a table of deques of admitted timestamps. */
module RateLimiter {
  import opened Stamps

  type Table = map<string, seq<real>>

  /** One section executed under the lock, with the clock reading taken before it. */
  datatype Request =
    | Hit(key: string, limit: int, window: int, now: real)
    | Reset

  /** The decision; IndexError is what `bucket[0]` raises when the limit is not positive and the bucket is empty. */
  datatype Outcome = Admitted | Refused(retryAfter: int) | IndexError | Done

  function Cutoff(now: real, window: int): real {
    now - window as real
  }

  function Ceil(x: real): int {
    -((-x).Floor)
  }

  function Max(a: int, b: int): int {
    if a > b then a else b
  }

  function BucketOf(h: Table, key: string): seq<real> {
    if key in h then h[key] else []
  }

  /** A key whose newest entry is at or before the cutoff. */
  predicate Idle(bucket: seq<real>, cutoff: real) {
    bucket == [] || bucket[|bucket| - 1] <= cutoff
  }

  function DropIdle(h: Table, cutoff: real): Table {
    map k | k in h && !Idle(h[k], cutoff) :: h[k]
  }

  function Evicted(h: Table, cutoff: real, maxKeys: int): Table {
    if |DropIdle(h, cutoff)| >= maxKeys then map[] else DropIdle(h, cutoff)
  }

  predicate NeedsRoom(h: Table, key: string, maxKeys: int) {
    key !in h && |h| >= maxKeys
  }

  function Opened(h: Table, key: string, cutoff: real, maxKeys: int): Table {
    if key in h then h
    else (if NeedsRoom(h, key, maxKeys) then Evicted(h, cutoff, maxKeys) else h)[key := []]
  }

  /** The verdict on a pruned bucket. */
  function Judge(bucket: seq<real>, limit: int, window: int, now: real): Outcome {
    if |bucket| < limit then Admitted
    else if bucket == [] then IndexError
    else Refused(Max(1, Ceil(bucket[0] + window as real - now)))
  }

  function Step(h: Table, maxKeys: int, r: Request): (Table, Outcome) {
    match r
    case Reset => (map[], Done)
    case Hit(key, limit, window, now) =>
      var cutoff := Cutoff(now, window);
      var table := Opened(h, key, cutoff, maxKeys);
      var bucket := Prune(table[key], cutoff);
      var outcome := Judge(bucket, limit, window, now);
      (table[key := if outcome.Admitted? then bucket + [now] else bucket], outcome)
  }

  class RateLimiter {
    var hits: map<string, seq<real>>
    const maxKeys: int

    constructor (maxKeys: int)
      ensures hits == map[] && this.maxKeys == maxKeys
    {
      hits := map[];
      this.maxKeys := maxKeys;
    }

    /** `hit`, with the clock reading as an argument. */
    method HitKey(key: string, limit: int, window: int, now: real) returns (outcome: Outcome)
      modifies this
      ensures (hits, outcome) == Step(old(hits), maxKeys, Hit(key, limit, window, now))
    {
      var cutoff := now - window as real;
      if key !in hits {
        if |hits| >= maxKeys {
          Evict(cutoff);
        }
        hits := hits[key := []];
      }
      ghost var table := hits;
      while hits[key] != [] && hits[key][0] <= cutoff
        invariant key in hits && hits == table[key := hits[key]]
        invariant Prune(hits[key], cutoff) == Prune(table[key], cutoff)
        decreases |hits[key]|
      {
        hits := hits[key := hits[key][1..]];
      }
      var bucket := hits[key];
      if |bucket| >= limit {
        if bucket == [] {
          return IndexError;
        }
        var wait := Ceil(bucket[0] + window as real - now);
        return Refused(if wait > 1 then wait else 1);
      }
      hits := hits[key := bucket + [now]];
      assert hits == table[key := bucket + [now]];
      return Admitted;
    }

    /** `_evict`: delete the idle keys, and everything if that did not make room. */
    method Evict(cutoff: real)
      modifies this
      ensures hits == Evicted(old(hits), cutoff, maxKeys)
    {
      var idle := set k | k in hits && Idle(hits[k], cutoff);
      ghost var before := hits;
      var todo := idle;
      while todo != {}
        invariant todo <= idle
        invariant forall k :: k in hits <==> k in before && (k in idle ==> k in todo)
        invariant forall k | k in hits :: hits[k] == before[k]
        decreases todo
      {
        hide Idle;
        var k :| k in todo;
        hits := hits - {k};
        todo := todo - {k};
      }
      assert hits == DropIdle(before, cutoff) by { hide Idle; }
      if |hits| >= maxKeys {
        hits := map[];
      }
    }

    method ResetAll()
      modifies this
      ensures (hits, Done) == Step(old(hits), maxKeys, Reset)
    {
      hits := map[];
    }
  }
}
