/** Sequences of timestamps: what is still live after a cutoff, and how much of it an interval holds. */
module Stamps {
  import opened Prelude

  /** The entries later than the cutoff, in order. */
  function Live(s: seq<real>, cutoff: real): seq<real> {
    if s == [] then []
    else
      var rest := Live(s[..|s| - 1], cutoff);
      if s[|s| - 1] > cutoff then rest + [s[|s| - 1]] else rest
  }

  /** What is left of a deque after popping from the front while the front is at or before the cutoff. */
  function Prune(s: seq<real>, cutoff: real): seq<real> {
    if s == [] || s[0] > cutoff then s else Prune(s[1..], cutoff)
  }

  /** How many entries lie in the half-open interval [from, to). */
  function CountIn(s: seq<real>, from: real, to: real): nat {
    if s == [] then 0
    else CountIn(s[..|s| - 1], from, to) + (if from <= s[|s| - 1] < to then 1 else 0)
  }

  predicate Ascending(s: seq<real>) {
    forall i, j | 0 <= i < j < |s| :: s[i] <= s[j]
  }

  predicate UpTo(s: seq<real>, t: real) {
    forall i | 0 <= i < |s| :: s[i] <= t
  }

  predicate After(s: seq<real>, t: real) {
    forall i | 0 <= i < |s| :: s[i] > t
  }

  lemma LiveAppend(s: seq<real>, t: real, cutoff: real)
    ensures Live(s + [t], cutoff) == Live(s, cutoff) + (if t > cutoff then [t] else [])
  {
    assert (s + [t])[..|s|] == s;
  }

  lemma {:induction false} LiveConcat(a: seq<real>, b: seq<real>, cutoff: real)
    ensures Live(a + b, cutoff) == Live(a, cutoff) + Live(b, cutoff)
  {
    if b == [] {
      assert a + b == a;
    } else {
      var b0, t := b[..|b| - 1], b[|b| - 1];
      assert a + b == (a + b0) + [t];
      LiveAppend(a + b0, t, cutoff);
      LiveConcat(a, b0, cutoff);
    }
  }

  lemma {:induction false} LiveMembers(s: seq<real>, cutoff: real)
    ensures |Live(s, cutoff)| <= |s|
    ensures forall x :: x in Live(s, cutoff) <==> x in s && x > cutoff
  {
    if s != [] {
      LiveMembers(s[..|s| - 1], cutoff);
      assert s == s[..|s| - 1] + [s[|s| - 1]];
    }
  }

  lemma {:induction false} LiveAll(s: seq<real>, cutoff: real)
    requires After(s, cutoff)
    ensures Live(s, cutoff) == s
  {
    if s != [] {
      LiveAll(s[..|s| - 1], cutoff);
    }
  }

  lemma {:induction false} LiveNone(s: seq<real>, cutoff: real)
    requires UpTo(s, cutoff)
    ensures Live(s, cutoff) == []
  {
    if s != [] {
      LiveNone(s[..|s| - 1], cutoff);
    }
  }

  lemma {:induction false} LiveLater(s: seq<real>, c0: real, c: real)
    requires c0 <= c
    ensures Live(Live(s, c0), c) == Live(s, c)
  {
    if s != [] {
      var s0, t := s[..|s| - 1], s[|s| - 1];
      LiveLater(s0, c0, c);
      LiveAppend(Live(s0, c0), t, c);
    }
  }

  lemma {:induction false} LiveAscending(s: seq<real>, cutoff: real)
    requires Ascending(s)
    ensures Ascending(Live(s, cutoff))
  {
    if s != [] {
      var s0 := s[..|s| - 1];
      LiveAscending(s0, cutoff);
      LiveMembers(s0, cutoff);
      forall i | 0 <= i < |Live(s0, cutoff)| ensures Live(s0, cutoff)[i] <= s[|s| - 1] {
        var x := Live(s0, cutoff)[i];
        assert x in Live(s0, cutoff);
        assert x in s0;
      }
    }
  }

  lemma LiveUpTo(s: seq<real>, cutoff: real, t: real)
    requires UpTo(s, t)
    ensures UpTo(Live(s, cutoff), t)
  {
    LiveMembers(s, cutoff);
    forall i | 0 <= i < |Live(s, cutoff)| ensures Live(s, cutoff)[i] <= t {
      var x := Live(s, cutoff)[i];
      assert x in Live(s, cutoff);
      assert x in s;
    }
  }

  lemma AppendLatest(s: seq<real>, t: real)
    requires Ascending(s) && UpTo(s, t)
    ensures Ascending(s + [t]) && UpTo(s + [t], t)
  {
  }

  /** Popping loses nothing that is still live, whatever the order of the entries. */
  lemma {:induction false} PruneKeepsLive(s: seq<real>, c0: real, c: real)
    requires c0 <= c
    ensures Live(Prune(s, c0), c) == Live(s, c)
  {
    if s != [] && s[0] <= c0 {
      PruneKeepsLive(s[1..], c0, c);
      assert s == [s[0]] + s[1..];
      LiveConcat([s[0]], s[1..], c);
      LiveNone([s[0]], c);
    }
  }

  /** On an ascending deque popping from the front leaves exactly the live entries. */
  lemma {:induction false} PruneIsLive(s: seq<real>, cutoff: real)
    requires Ascending(s)
    ensures Prune(s, cutoff) == Live(s, cutoff)
  {
    if s != [] && s[0] <= cutoff {
      PruneIsLive(s[1..], cutoff);
      PruneKeepsLive(s, cutoff, cutoff);
      LiveLater(s[1..], cutoff, cutoff);
    } else if s != [] {
      LiveAll(s, cutoff);
    }
  }

  lemma {:induction false} PruneIsSuffix(s: seq<real>, cutoff: real)
    ensures |Prune(s, cutoff)| <= |s|
    ensures Prune(s, cutoff) == s[|s| - |Prune(s, cutoff)|..]
    ensures UpTo(s[..|s| - |Prune(s, cutoff)|], cutoff)
    ensures Prune(s, cutoff) != [] ==> Prune(s, cutoff)[0] > cutoff
  {
    if s != [] && s[0] <= cutoff {
      var rest, left := s[1..], Prune(s[1..], cutoff);
      PruneIsSuffix(rest, cutoff);
      assert Prune(s, cutoff) == left;
      hide Prune;
      assert s[|s| - |left|..] == rest[|rest| - |left|..];
      assert s[..|s| - |left|] == [s[0]] + rest[..|rest| - |left|];
    }
  }

  lemma CountAppend(s: seq<real>, t: real, from: real, to: real)
    ensures CountIn(s + [t], from, to) == CountIn(s, from, to) + (if from <= t < to then 1 else 0)
  {
    assert (s + [t])[..|s|] == s;
  }

  /** An interval that starts after the cutoff holds no more than what is live. */
  lemma {:induction false} CountWithinLive(s: seq<real>, cutoff: real, from: real, to: real)
    requires cutoff < from
    ensures CountIn(s, from, to) <= |Live(s, cutoff)|
  {
    if s != [] {
      CountWithinLive(s[..|s| - 1], cutoff, from, to);
    }
  }

  lemma {:induction false} CountConcat(a: seq<real>, b: seq<real>, from: real, to: real)
    ensures CountIn(a + b, from, to) == CountIn(a, from, to) + CountIn(b, from, to)
  {
    if b == [] {
      assert a + b == a;
    } else {
      assert a + b == (a + b[..|b| - 1]) + [b[|b| - 1]];
      CountAppend(a + b[..|b| - 1], b[|b| - 1], from, to);
      CountConcat(a, b[..|b| - 1], from, to);
    }
  }

  lemma {:induction false} CountRepeat(t: real, n: nat, from: real, to: real)
    ensures CountIn(Repeat(t, n), from, to) == if from <= t < to then n else 0
  {
    if n > 0 {
      RepeatNext(t, n - 1);
      CountAppend(Repeat(t, n - 1), t, from, to);
      CountRepeat(t, n - 1, from, to);
    }
  }

  lemma {:induction false} CountWider(s: seq<real>, from: real, to: real, to': real)
    requires to <= to'
    ensures CountIn(s, from, to) <= CountIn(s, from, to')
  {
    if s != [] {
      CountWider(s[..|s| - 1], from, to, to');
    }
  }

  lemma {:induction false} CountNone(s: seq<real>, from: real, to: real)
    requires forall i | 0 <= i < |s| :: !(from <= s[i] < to)
    ensures CountIn(s, from, to) == 0
  {
    if s != [] {
      CountNone(s[..|s| - 1], from, to);
    }
  }

  /** Every entry is at least `gap` after every earlier one. */
  predicate Spaced(s: seq<real>, gap: real) {
    forall i, j | 0 <= i < j < |s| :: s[j] >= s[i] + gap
  }

  /** An interval no longer than the gap holds at most one entry. */
  lemma {:induction false} SpacedCount(s: seq<real>, gap: real, from: real, to: real)
    requires Spaced(s, gap) && to <= from + gap
    ensures CountIn(s, from, to) <= 1
  {
    if s != [] {
      var s0, t := s[..|s| - 1], s[|s| - 1];
      if from <= t < to {
        CountNone(s0, from, to);
      } else {
        SpacedCount(s0, gap, from, to);
      }
    }
  }

  lemma {:induction false} PruneNone(s: seq<real>, cutoff: real)
    requires UpTo(s, cutoff)
    ensures Prune(s, cutoff) == []
  {
    if s != [] {
      PruneNone(s[1..], cutoff);
    }
  }

  lemma {:induction false} CountSplit(s: seq<real>, from: real, mid: real, to: real)
    requires from <= mid <= to
    ensures CountIn(s, from, to) == CountIn(s, from, mid) + CountIn(s, mid, to)
  {
    if s != [] {
      CountSplit(s[..|s| - 1], from, mid, to);
    }
  }

  lemma {:induction false} CountEvery(s: seq<real>, from: real, to: real)
    requires forall i | 0 <= i < |s| :: from <= s[i] < to
    ensures CountIn(s, from, to) == |s|
  {
    if s != [] {
      CountEvery(s[..|s| - 1], from, to);
    }
  }

  lemma RepeatUpTo(t: real, n: nat)
    ensures UpTo(Repeat(t, n), t)
  {
  }
}
