/** The table keys that `enforce` builds (app/ratelimit.py) and that `login` passes to it. */
module BucketKeys {

  /** The table key built by `enforce`. */
  function BucketKey(scope: string, key: string): string {
    scope + ":" + key
  }

  function PairSubject(ip: string, email: string): string {
    ip + "|" + email
  }

  function PairKey(ip: string, email: string): string {
    BucketKey("login", PairSubject(ip, email))
  }

  function AccountKey(email: string): string {
    BucketKey("login_account", email)
  }

  lemma {:induction false} SplitAtFirst(a: string, b: string, x: string, y: string, sep: char)
    requires sep !in a && sep !in b
    ensures a + [sep] + x == b + [sep] + y <==> a == b && x == y
  {
    if a + [sep] + x == b + [sep] + y {
      var s := a + [sep] + x;
      assert s[|a|] == sep && s[|b|] == sep;
      assert forall i | 0 <= i < |a| :: s[i] == a[i] && a[i] in a;
      assert forall i | 0 <= i < |b| :: s[i] == b[i] && b[i] in b;
      assert |a| == |b|;
      assert a == s[..|a|] && b == s[..|b|];
      assert x == s[|a| + 1..] && y == s[|b| + 1..];
    }
  }

  /** Two (scope, subject) pairs share a bucket only if they are the same pair: scopes contain no colon. */
  lemma BucketKeyInjective(s1: string, k1: string, s2: string, k2: string)
    requires ':' !in s1 && ':' !in s2
    ensures BucketKey(s1, k1) == BucketKey(s2, k2) <==> s1 == s2 && k1 == k2
  {
    SplitAtFirst(s1, s2, k1, k2, ':');
  }

  /** Client addresses contain no bar, so (address, account) pairs never share a bucket, whatever the account is. */
  lemma PairKeyInjective(ip1: string, e1: string, ip2: string, e2: string)
    requires '|' !in ip1 && '|' !in ip2
    ensures PairKey(ip1, e1) == PairKey(ip2, e2) <==> ip1 == ip2 && e1 == e2
  {
    BucketKeyInjective("login", PairSubject(ip1, e1), "login", PairSubject(ip2, e2));
    SplitAtFirst(ip1, ip2, e1, e2, '|');
  }

  lemma TiersDistinct(ip: string, e1: string, e2: string)
    ensures PairKey(ip, e1) != AccountKey(e2)
  {
    BucketKeyInjective("login", PairSubject(ip, e1), "login_account", e2);
  }
}
