/** What one tenant observes of the invoice store: isolation over whole runs. */
module TenantIsolation {
  import opened Prelude
  import opened LikeSearch
  import opened Invoices

  /** The rows of one tenant. */
  function Owned(rows: seq<Invoice>, user: string): seq<Invoice> {
    Where(rows, user, HasStatus(None))
  }

  predicate UniqueIds(rows: seq<Invoice>) {
    forall i, j | 0 <= i < j < |rows| :: rows[i].id != rows[j].id
  }

  // ---------------------------------------------------------------- queries

  lemma {:induction false} WhereMembers(rows: seq<Invoice>, user: string, c: Condition)
    ensures forall r :: r in Where(rows, user, c) <==> r in rows && r.owner == user && Holds(r, c)
  {
    if rows != [] {
      WhereMembers(rows[1..], user, c);
    }
  }

  lemma WhereCons(rows: seq<Invoice>, user: string, c: Condition)
    requires rows != []
    ensures Where(rows, user, c)
            == (if rows[0].owner == user && Holds(rows[0], c) then [rows[0]] else []) + Where(rows[1..], user, c)
  {
  }

  lemma {:induction false} WhereConcat(a: seq<Invoice>, b: seq<Invoice>, user: string, c: Condition)
    ensures Where(a + b, user, c) == Where(a, user, c) + Where(b, user, c)
  {
    if a == [] {
      assert a + b == b;
    } else {
      hide Where, Holds;
      WhereConcat(a[1..], b, user, c);
      assert (a + b)[1..] == a[1..] + b && (a + b)[0] == a[0];
      WhereCons(a, user, c);
      WhereCons(a + b, user, c);
      var head := if a[0].owner == user && Holds(a[0], c) then [a[0]] else [];
      Associative(head, Where(a[1..], user, c), Where(b, user, c));
    }
  }

  /** A query sees nothing but the tenant's own rows. */
  lemma {:induction false} WhereOfOwned(rows: seq<Invoice>, user: string, c: Condition)
    ensures Where(Owned(rows, user), user, c) == Where(rows, user, c)
  {
    if rows != [] {
      WhereOfOwned(rows[1..], user, c);
      var head := if rows[0].owner == user then [rows[0]] else [];
      WhereConcat(head, Owned(rows[1..], user), user, c);
      assert Owned(rows, user) == head + Owned(rows[1..], user);
      if rows[0].owner == user {
        assert head[1..] == [];
        assert Where(head, user, c) == if Holds(rows[0], c) then [rows[0]] else [];
      }
    }
  }

  /** Identifiers are unique, so a row found for its owner is the only row with that identifier. */
  lemma FoundIsOnly(rows: seq<Invoice>, user: string, id: string)
    requires UniqueIds(rows)
    ensures var found := Where(rows, user, HasId(id));
            found != [] ==> found[0] in rows && found[0].owner == user && found[0].id == id
                            && forall r | r in rows && r.id == id :: r == found[0]
  {
    var found := Where(rows, user, HasId(id));
    WhereMembers(rows, user, HasId(id));
    if found != [] {
      assert found[0] in found;
    }
  }

  // ---------------------------------------------------------------- changes

  lemma {:induction false} OwnedAfterWrite(rows: seq<Invoice>, r: Invoice, user: string)
    requires forall x | x in rows && x.id == r.id :: x.owner == r.owner
    ensures Owned(WriteById(rows, r), user)
            == if r.owner == user then WriteById(Owned(rows, user), r) else Owned(rows, user)
  {
    if rows != [] {
      var rest := rows[1..];
      assert forall x | x in rest :: x in rows;
      OwnedAfterWrite(rest, r, user);
      WriteCons(rows, r);
      assert rows[0] in rows;
      if rows[0].owner == user {
        assert Owned(rows, user) == [rows[0]] + Owned(rest, user);
        WriteCons([rows[0]] + Owned(rest, user), r);
        assert ([rows[0]] + Owned(rest, user))[1..] == Owned(rest, user);
      }
    }
  }

  lemma WriteCons(rows: seq<Invoice>, r: Invoice)
    requires rows != []
    ensures WriteById(rows, r) == [if rows[0].id == r.id then r else rows[0]] + WriteById(rows[1..], r)
    ensures WriteById(rows, r)[1..] == WriteById(rows[1..], r)
  {
  }

  lemma {:induction false} OwnedAfterRemove(rows: seq<Invoice>, id: string, owner: string, user: string)
    requires forall x | x in rows && x.id == id :: x.owner == owner
    ensures Owned(RemoveById(rows, id), user)
            == if owner == user then RemoveById(Owned(rows, user), id) else Owned(rows, user)
  {
    if rows != [] {
      var rest := rows[1..];
      assert forall x | x in rest :: x in rows;
      OwnedAfterRemove(rest, id, owner, user);
      assert rows[0] in rows;
      if rows[0].id != id {
        assert ([rows[0]] + RemoveById(rest, id))[1..] == RemoveById(rest, id);
      } else {
        assert [] + RemoveById(rest, id) == RemoveById(rest, id);
      }
      if rows[0].owner == user {
        assert ([rows[0]] + Owned(rest, user))[1..] == Owned(rest, user);
      } else {
        assert [] + Owned(rest, user) == Owned(rest, user);
      }
    }
  }

  lemma {:induction false} RemoveMembers(rows: seq<Invoice>, id: string)
    requires UniqueIds(rows)
    ensures UniqueIds(RemoveById(rows, id))
    ensures forall r :: r in RemoveById(rows, id) <==> r in rows && r.id != id
  {
    if rows != [] {
      assert forall i | 0 <= i < |rows[1..]| :: rows[1..][i] == rows[i + 1];
      RemoveMembers(rows[1..], id);
    }
  }

  /** Identifiers stay unique: a create that would repeat one fails, an update never changes one. */
  lemma StepKeepsUnique(rows: seq<Invoice>, user: string, req: Request, lower: char -> char)
    requires UniqueIds(rows)
    ensures UniqueIds(Step(rows, user, req, lower).0)
  {
    match req
    case List(_, _, _) =>
    case Search(_, _) =>
    case Create(_, _, _) =>
    case Get(_) =>
    case Update(id, _) => FoundIsOnly(rows, user, id);
    case Delete(id) => RemoveMembers(rows, id);
  }

  // ---------------------------------------------------------------- unwinding

  /** Local respect: a request of one tenant leaves every other tenant's rows as they were. */
  lemma OthersUntouched(rows: seq<Invoice>, user: string, req: Request, lower: char -> char, other: string)
    requires UniqueIds(rows) && user != other
    ensures Owned(Step(rows, user, req, lower).0, other) == Owned(rows, other)
  {
    match req
    case List(_, _, _) =>
    case Search(_, _) =>
    case Create(body, id, at) =>
      WhereConcat(rows, [NewRow(user, body, id, at)], other, HasStatus(None));
    case Get(_) =>
    case Update(id, p) =>
      FoundIsOnly(rows, user, id);
      var found := Where(rows, user, HasId(id));
      if found != [] {
        OwnedAfterWrite(rows, Patched(found[0], p), other);
      }
    case Delete(id) =>
      FoundIsOnly(rows, user, id);
      if Where(rows, user, HasId(id)) != [] {
        OwnedAfterRemove(rows, id, user, other);
      }
  }

  /** The identifier is held by a row of another tenant. */
  predicate ForeignId(rows: seq<Invoice>, user: string, id: string) {
    exists i | 0 <= i < |rows| :: rows[i].id == id && rows[i].owner != user
  }

  predicate OwnId(rows: seq<Invoice>, user: string, id: string) {
    exists i | 0 <= i < |rows| :: rows[i].id == id && rows[i].owner == user
  }

  lemma OwnIdOfOwned(rows: seq<Invoice>, user: string, id: string)
    ensures OwnId(rows, user, id) <==> Where(Owned(rows, user), user, HasId(id)) != []
  {
    WhereOfOwned(rows, user, HasId(id));
    WhereMembers(rows, user, HasId(id));
    var found := Where(rows, user, HasId(id));
    if found != [] {
      assert found[0] in found && found[0] in rows;
    }
    if OwnId(rows, user, id) {
      var i :| 0 <= i < |rows| && rows[i].id == id && rows[i].owner == user;
      assert rows[i] in rows;
      assert rows[i] in found;
    }
  }

  /** The only thing a tenant's request can depend on besides its own rows: a create meeting a foreign identifier. */
  predicate Collides(rows: seq<Invoice>, user: string, req: Request) {
    req.Create? && ForeignId(rows, user, req.newId)
  }

  lemma SameCreate(rows1: seq<Invoice>, rows2: seq<Invoice>, user: string, id: string)
    requires Owned(rows1, user) == Owned(rows2, user)
    requires ForeignId(rows1, user, id) == ForeignId(rows2, user, id)
    ensures HasRow(rows1, id) == HasRow(rows2, id)
  {
    OwnIdOfOwned(rows1, user, id);
    OwnIdOfOwned(rows2, user, id);
    assert HasRow(rows1, id) <==> OwnId(rows1, user, id) || ForeignId(rows1, user, id);
    assert HasRow(rows2, id) <==> OwnId(rows2, user, id) || ForeignId(rows2, user, id);
  }

  /** Step consistency: tenants with the same own rows get the same answer and end with the same own rows. */
  lemma SameView(rows1: seq<Invoice>, rows2: seq<Invoice>, user: string, req: Request, lower: char -> char)
    requires UniqueIds(rows1) && UniqueIds(rows2)
    requires Owned(rows1, user) == Owned(rows2, user)
    requires Collides(rows1, user, req) == Collides(rows2, user, req)
    ensures Step(rows1, user, req, lower).1 == Step(rows2, user, req, lower).1
    ensures Owned(Step(rows1, user, req, lower).0, user) == Owned(Step(rows2, user, req, lower).0, user)
  {
    match req
    case List(_, _, status) =>
      WhereOfOwned(rows1, user, HasStatus(status));
      WhereOfOwned(rows2, user, HasStatus(status));
    case Search(q, _) =>
      WhereOfOwned(rows1, user, NameLike(SearchPattern(q), lower));
      WhereOfOwned(rows2, user, NameLike(SearchPattern(q), lower));
    case Create(body, id, at) =>
      SameCreate(rows1, rows2, user, id);
      WhereConcat(rows1, [NewRow(user, body, id, at)], user, HasStatus(None));
      WhereConcat(rows2, [NewRow(user, body, id, at)], user, HasStatus(None));
    case Get(id) =>
      WhereOfOwned(rows1, user, HasId(id));
      WhereOfOwned(rows2, user, HasId(id));
    case Update(id, p) =>
      WhereOfOwned(rows1, user, HasId(id));
      WhereOfOwned(rows2, user, HasId(id));
      FoundIsOnly(rows1, user, id);
      FoundIsOnly(rows2, user, id);
      var found := Where(rows1, user, HasId(id));
      if found != [] {
        OwnedAfterWrite(rows1, Patched(found[0], p), user);
        OwnedAfterWrite(rows2, Patched(found[0], p), user);
      }
    case Delete(id) =>
      WhereOfOwned(rows1, user, HasId(id));
      WhereOfOwned(rows2, user, HasId(id));
      FoundIsOnly(rows1, user, id);
      FoundIsOnly(rows2, user, id);
      if Where(rows1, user, HasId(id)) != [] {
        OwnedAfterRemove(rows1, id, user, user);
        OwnedAfterRemove(rows2, id, user, user);
      }
  }

  /** Foreign and missing identifiers are the same 404, and change nothing. */
  lemma ForeignLooksMissing(rows: seq<Invoice>, user: string, id: string, p: UpdateBody, lower: char -> char)
    ensures forall req | req in [Get(id), Update(id, p), Delete(id)] ::
              && (Step(rows, user, req, lower).1 == NotFound <==> !OwnId(rows, user, id))
              && (!OwnId(rows, user, id) ==> Step(rows, user, req, lower) == (rows, NotFound))
  {
    OwnIdOfOwned(rows, user, id);
    WhereOfOwned(rows, user, HasId(id));
  }

  // ---------------------------------------------------------------- noninterference over runs

  type Trace = seq<(string, Request)>

  /** The responses one tenant receives during a run. */
  function Observed(rows: seq<Invoice>, run: Trace, user: string, lower: char -> char): seq<Response>
    decreases |run|
  {
    if run == [] then []
    else
      var (who, req) := run[0];
      var (rows', response) := Step(rows, who, req, lower);
      (if who == user then [response] else []) + Observed(rows', run[1..], user, lower)
  }

  /** The run with every other tenant's requests deleted. */
  function Purge(run: Trace, user: string): Trace {
    if run == [] then []
    else (if run[0].0 == user then [run[0]] else []) + Purge(run[1..], user)
  }

  /** The table after a run. */
  function After(rows: seq<Invoice>, run: Trace, lower: char -> char): seq<Invoice>
    decreases |run|
  {
    if run == [] then rows else After(Step(rows, run[0].0, run[0].1, lower).0, run[1..], lower)
  }

  /** The k-th response a tenant receives is the answer to its k-th request, in the table as the run left it. */
  lemma {:induction false} ObservedIs(rows: seq<Invoice>, run: Trace, user: string, i: nat, lower: char -> char)
    requires i < |run| && run[i].0 == user
    ensures var k := |Purge(run[..i], user)|;
            && k < |Observed(rows, run, user, lower)|
            && Observed(rows, run, user, lower)[k] == Step(After(rows, run[..i], lower), user, run[i].1, lower).1
            && k < |Purge(run, user)| && Purge(run, user)[k] == run[i]
    decreases i
  {
    hide Step;
    if i > 0 {
      var rows' := Step(rows, run[0].0, run[0].1, lower).0;
      ObservedIs(rows', run[1..], user, i - 1, lower);
      assert run[..i][0] == run[0] && run[..i][1..] == run[1..][..i - 1];
    }
  }

  /** The purged run holds the tenant's own requests, each as often as the run does, and no others. */
  lemma {:induction false} PurgeIs(run: Trace, user: string, x: (string, Request))
    ensures multiset(Purge(run, user))[x] == if x.0 == user then multiset(run)[x] else 0
  {
    if run != [] {
      PurgeIs(run[1..], user, x);
      assert run == [run[0]] + run[1..];
    }
  }

  function IdsOfOthers(rows: seq<Invoice>, user: string): set<string> {
    set r | r in rows && r.owner != user :: r.id
  }

  /** Fresh identifiers: the tenant's creates never draw one that others hold or have drawn earlier in the run. */
  predicate Fresh(taken: set<string>, run: Trace, user: string)
    decreases |run|
  {
    run == [] ||
    (var (who, req) := run[0];
     && (who == user && req.Create? ==> req.newId !in taken)
     && Fresh(if who != user && req.Create? then taken + {req.newId} else taken, run[1..], user))
  }

  lemma StepForeignIds(rows: seq<Invoice>, who: string, req: Request, lower: char -> char, user: string)
    requires UniqueIds(rows)
    ensures IdsOfOthers(Step(rows, who, req, lower).0, user)
            <= IdsOfOthers(rows, user) + (if who != user && req.Create? then {req.newId} else {})
  {
    var rows' := Step(rows, who, req, lower).0;
    forall r | r in rows' && r.owner != user
      ensures r.id in IdsOfOthers(rows, user) + (if who != user && req.Create? then {req.newId} else {})
    {
      match req
      case List(_, _, _) =>
      case Search(_, _) =>
      case Create(_, _, _) =>
      case Get(_) =>
      case Update(id, _) =>
        FoundIsOnly(rows, who, id);
        if r !in rows {
          assert Where(rows, who, HasId(id))[0] in rows;
        }
      case Delete(id) => RemoveMembers(rows, id);
    }
  }

  lemma NotTakenNoCollision(rows: seq<Invoice>, taken: set<string>, user: string, req: Request)
    requires IdsOfOthers(rows, user) <= taken && (req.Create? ==> req.newId !in taken)
    ensures !Collides(rows, user, req)
  {
    forall i | 0 <= i < |rows| && rows[i].owner != user ensures rows[i].id in IdsOfOthers(rows, user) {
      assert rows[i] in rows;
    }
  }

  lemma {:induction false} Unwinding(rows1: seq<Invoice>, rows2: seq<Invoice>, taken: set<string>, run: Trace,
                                     user: string, lower: char -> char)
    requires UniqueIds(rows1) && UniqueIds(rows2) && Owned(rows1, user) == Owned(rows2, user)
    requires IdsOfOthers(rows1, user) <= taken && IdsOfOthers(rows2, user) <= taken
    requires Fresh(taken, run, user)
    ensures Observed(rows1, run, user, lower) == Observed(rows2, Purge(run, user), user, lower)
    decreases |run|
  {
    if run != [] {
      var (who, req) := run[0];
      var rows1' := Step(rows1, who, req, lower).0;
      StepKeepsUnique(rows1, who, req, lower);
      StepForeignIds(rows1, who, req, lower, user);
      if who == user {
        var rows2' := Step(rows2, who, req, lower).0;
        NotTakenNoCollision(rows1, taken, user, req);
        NotTakenNoCollision(rows2, taken, user, req);
        SameView(rows1, rows2, user, req, lower);
        StepKeepsUnique(rows2, who, req, lower);
        StepForeignIds(rows2, who, req, lower, user);
        Unwinding(rows1', rows2', taken, run[1..], user, lower);
        assert Purge(run, user)[1..] == Purge(run[1..], user);
      } else {
        OthersUntouched(rows1, who, req, lower, user);
        var taken' := if req.Create? then taken + {req.newId} else taken;
        Unwinding(rows1', rows2, taken', run[1..], user, lower);
        assert [] + Purge(run[1..], user) == Purge(run[1..], user);
      }
    }
  }

  /**
    * Noninterference: whatever the other tenants do, and in whatever interleaving, every response a tenant
    * receives is the one it would receive if they had done nothing.
    */
  lemma Noninterference(rows: seq<Invoice>, run: Trace, user: string, lower: char -> char)
    requires UniqueIds(rows) && Fresh(IdsOfOthers(rows, user), run, user)
    ensures Observed(rows, run, user, lower) == Observed(rows, Purge(run, user), user, lower)
  {
    Unwinding(rows, rows, IdsOfOthers(rows, user), run, user, lower);
  }

  /** Freshness cannot be dropped: two stores that look alike to the tenant are told apart exactly by a collision. */
  lemma OnlyCollisionsLeak(rows1: seq<Invoice>, rows2: seq<Invoice>, user: string, req: Request, lower: char -> char)
    requires UniqueIds(rows1) && UniqueIds(rows2) && Owned(rows1, user) == Owned(rows2, user)
    requires req.Create? ==> !OwnId(rows1, user, req.newId)
    ensures Step(rows1, user, req, lower).1 == Step(rows2, user, req, lower).1
            <==> (Collides(rows1, user, req) <==> Collides(rows2, user, req))
  {
    if Collides(rows1, user, req) == Collides(rows2, user, req) {
      SameView(rows1, rows2, user, req, lower);
    } else {
      OwnIdOfOwned(rows1, user, req.newId);
      OwnIdOfOwned(rows2, user, req.newId);
      assert HasRow(rows1, req.newId) <==> ForeignId(rows1, user, req.newId);
      assert HasRow(rows2, req.newId) <==> ForeignId(rows2, user, req.newId);
    }
  }

  // ---------------------------------------------------------------- search

  /** Search selects exactly the tenant's own invoices whose customer name contains the term. */
  lemma SearchSelects(rows: seq<Invoice>, user: string, q: string, lower: char -> char, r: Invoice)
    requires KeepsSpecials(lower)
    ensures r in Where(rows, user, NameLike(SearchPattern(q), lower))
            <==> r in rows && r.owner == user && Occurs(r.customer, q, lower)
  {
    WhereMembers(rows, user, NameLike(SearchPattern(q), lower));
    ISearchIsExact(r.customer, q, lower);
  }

  // ---------------------------------------------------------------- what a tenant's own requests do

  /** The row a tenant sees under an identifier of its own. */
  lemma GetShows(rows: seq<Invoice>, r: Invoice, lower: char -> char)
    requires UniqueIds(rows) && r in rows
    ensures Step(rows, r.owner, Get(r.id), lower) == (rows, One(Out(r)))
  {
    WhereMembers(rows, r.owner, HasId(r.id));
    FoundIsOnly(rows, r.owner, r.id);
    assert r in Where(rows, r.owner, HasId(r.id));
  }

  /** What each request does to the whole table, and that nothing else ever changes it. */
  lemma RequestEffect(rows: seq<Invoice>, user: string, req: Request, lower: char -> char)
    requires UniqueIds(rows)
    ensures var (rows', answer) := Step(rows, user, req, lower);
            && (req.List? || req.Search? || req.Get? || answer == NotFound || answer == ServerError ==> rows' == rows)
            && (answer == ServerError <==> req.Create? && exists i | 0 <= i < |rows| :: rows[i].id == req.newId)
            && (req.Create? && answer != ServerError ==>
                  rows' == rows + [Invoice(req.newId, user, req.body.customer, req.body.amount, req.body.currency,
                                           Draft, req.body.description, req.at)])
            && (req.Update? && answer != NotFound ==>
                  |rows'| == |rows| && forall i | 0 <= i < |rows| && rows[i].id != req.id :: rows'[i] == rows[i])
            && (req.Delete? && answer != NotFound ==>
                  answer == NoContent && forall r :: r in rows' <==> r in rows && r.id != req.id)
  {
    match req
    case List(_, _, _) =>
    case Search(_, _) =>
    case Create(_, _, _) =>
    case Get(_) =>
    case Update(id, _) => FoundIsOnly(rows, user, id);
    case Delete(id) => RemoveMembers(rows, id);
  }

  /** What was created is what is read back: a draft with the given fields, under the drawn identifier. */
  lemma CreateThenGet(rows: seq<Invoice>, user: string, body: CreateBody, id: string, at: real, lower: char -> char)
    requires UniqueIds(rows) && !HasRow(rows, id)
    ensures var rows' := Step(rows, user, Create(body, id, at), lower).0;
            Step(rows', user, Get(id), lower).1
            == One(InvoiceOut(id, body.customer, body.amount, body.currency, Draft, body.description, at))
  {
    var rows' := Step(rows, user, Create(body, id, at), lower).0;
    StepKeepsUnique(rows, user, Create(body, id, at), lower);
    var r := NewRow(user, body, id, at);
    assert rows'[|rows|] == r;
    GetShows(rows', r, lower);
  }

  /** An update is read back field by field: what was sent is new, everything else is as before. */
  lemma UpdateThenGet(rows: seq<Invoice>, r: Invoice, p: UpdateBody, lower: char -> char)
    requires UniqueIds(rows) && r in rows
    ensures var answer := Step(Step(rows, r.owner, Update(r.id, p), lower).0, r.owner, Get(r.id), lower).1;
            && answer == Step(rows, r.owner, Update(r.id, p), lower).1 && answer.One?
            && var v := answer.invoice;
               && v.customer == (if p.customer.Some? then p.customer.value else r.customer)
               && v.amount == (if p.amount.Some? then p.amount.value else r.amount)
               && v.description == (if p.description.Some? then p.description.value else r.description)
               && v.status == (if p.status.Some? then p.status.value else r.status)
               && v.id == r.id && v.currency == r.currency && v.createdAt == r.createdAt
  {
    var req := Update(r.id, p);
    var rows' := Step(rows, r.owner, req, lower).0;
    FoundIsOnly(rows, r.owner, r.id);
    GetShows(rows, r, lower);
    StepKeepsUnique(rows, r.owner, req, lower);
    var k :| 0 <= k < |rows| && rows[k] == r;
    assert rows'[k] == Patched(r, p);
    GetShows(rows', Patched(r, p), lower);
  }

  /** A deleted invoice is gone and no other invoice is affected. */
  lemma DeleteThenGet(rows: seq<Invoice>, r: Invoice, other: Invoice, lower: char -> char)
    requires UniqueIds(rows) && r in rows && other in rows && other != r
    ensures var (rows', answer) := Step(rows, r.owner, Delete(r.id), lower);
            && answer == NoContent
            && Step(rows', r.owner, Get(r.id), lower).1 == NotFound
            && Step(rows', other.owner, Get(other.id), lower).1 == One(Out(other))
  {
    var rows' := RemoveById(rows, r.id);
    GetShows(rows, r, lower);
    FoundIsOnly(rows, r.owner, r.id);
    var gone := Where(rows', r.owner, HasId(r.id));
    assert gone == [] || gone[0] in gone;
    WhereMembers(rows', r.owner, HasId(r.id));
    RemoveMembers(rows, r.id);
    assert other.id != r.id;
    GetShows(rows', other, lower);
  }
}
