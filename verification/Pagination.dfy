/** Paging through `list_invoices` (app/routers/invoices.py). */
module Pagination {
  import opened Prelude
  import opened LikeSearch
  import opened Invoices
  import opened TenantIsolation

  predicate NewestFirst(s: seq<Invoice>) {
    forall i, j | 0 <= i < j < |s| :: s[i].createdAt >= s[j].createdAt
  }

  lemma {:induction false} InsertKeepsOrder(r: Invoice, s: seq<Invoice>)
    requires NewestFirst(s)
    ensures NewestFirst(InsertNewest(r, s)) && multiset(InsertNewest(r, s)) == multiset(s) + multiset{r}
  {
    if s != [] && r.createdAt < s[0].createdAt {
      var rest := InsertNewest(r, s[1..]);
      InsertKeepsOrder(r, s[1..]);
      assert s == [s[0]] + s[1..];
      forall i | 0 <= i < |rest| ensures rest[i].createdAt <= s[0].createdAt {
        FromMultiset(rest, s[1..], r, i);
      }
      hide InsertNewest;
      PutFirst(s[0], rest);
    }
  }

  lemma FromMultiset(rest: seq<Invoice>, s: seq<Invoice>, r: Invoice, i: nat)
    requires i < |rest| && multiset(rest) == multiset(s) + multiset{r}
    ensures rest[i] == r || exists j | 0 <= j < |s| :: s[j] == rest[i]
  {
    assert rest[i] in multiset(rest);
    if rest[i] != r {
      assert rest[i] in multiset(s);
      assert rest[i] in s;
    }
  }

  lemma PutFirst(r: Invoice, s: seq<Invoice>)
    requires NewestFirst(s) && forall i | 0 <= i < |s| :: s[i].createdAt <= r.createdAt
    ensures NewestFirst([r] + s)
  {
  }

  /** The listing order: newest first, nothing lost, nothing repeated. */
  lemma {:induction false} NewestIsSorted(s: seq<Invoice>)
    ensures NewestFirst(Newest(s)) && multiset(Newest(s)) == multiset(s)
  {
    if s != [] {
      NewestIsSorted(s[1..]);
      InsertKeepsOrder(s[0], Newest(s[1..]));
      assert s == [s[0]] + s[1..];
    }
  }

  /** A client that asks for pages of n from an offset on until a page is short; None if a request is rejected. */
  function Walk(rows: seq<Invoice>, user: string, status: Option<Status>, lower: char -> char,
                n: nat, offset: nat): Option<seq<InvoiceOut>>
    requires n >= 1
    decreases MAX_OFFSET + 1 - offset
  {
    match Step(rows, user, List(n, offset, status), lower).1
    case Page(page) =>
      if |page| < n then Some(page)
      else
        (match Walk(rows, user, status, lower, n, offset + n)
         case Some(rest) => Some(page + rest)
         case None => None)
    case _ => None
  }

  /** The offset at which the one short page of a list of m rows starts, counting in steps of n. */
  function LastStart(m: nat, n: nat): (k: nat)
    requires n >= 1
    ensures k <= m < k + n
  {
    if m < n then 0 else n + LastStart(m - n, n)
  }

  lemma {:induction false} WalkFrom(rows: seq<Invoice>, user: string, status: Option<Status>, lower: char -> char,
                                    n: nat, offset: nat)
    requires 1 <= n <= MAX_PAGE_SIZE
    requires offset <= |Newest(Where(rows, user, HasStatus(status)))|
    ensures var all := Newest(Where(rows, user, HasStatus(status)));
            Walk(rows, user, status, lower, n, offset)
            == if offset + LastStart(|all| - offset, n) <= MAX_OFFSET then Some(Outs(all)[offset..]) else None
    decreases MAX_OFFSET + 1 - offset
  {
    hide Newest, Where, Slice, Out;
    var all := Newest(Where(rows, user, HasStatus(status)));
    if offset <= MAX_OFFSET {
      PageIsSlice(all, n, offset);
      if |all| - offset >= n {
        WalkFrom(rows, user, status, lower, n, offset + n);
        assert Outs(all)[offset..] == Outs(all)[offset..offset + n] + Outs(all)[offset + n..];
      } else {
        assert Outs(all)[offset..|all|] == Outs(all)[offset..];
      }
    }
  }

  lemma PageIsSlice(all: seq<Invoice>, n: nat, offset: nat)
    requires offset <= |all|
    ensures Outs(Slice(all, n, offset)) == Outs(all)[offset..if |all| - offset >= n then offset + n else |all|]
  {
  }

  lemma CountOfHead(head: Invoice, rest: seq<Invoice>, r: Invoice)
    ensures multiset([head] + rest)[r] == multiset(rest)[r] + (if r == head then 1 else 0)
  {
  }

  /** A query finds each of the caller's rows that meet its condition as often as the table holds it. */
  lemma {:induction false} WhereCounts(rows: seq<Invoice>, user: string, c: Condition, r: Invoice)
    ensures multiset(Where(rows, user, c))[r] == if r.owner == user && Holds(r, c) then multiset(rows)[r] else 0
  {
    if rows != [] {
      hide Holds, Where;
      WhereCons(rows, user, c);
      WhereCounts(rows[1..], user, c, r);
      CountOfHead(rows[0], rows[1..], r);
      CountOfHead(rows[0], Where(rows[1..], user, c), r);
      assert rows == [rows[0]] + rows[1..];
      assert [] + Where(rows[1..], user, c) == Where(rows[1..], user, c);
    }
  }

  /** The status filter selects exactly the caller's rows of that status, or all of them without a filter. */
  lemma StatusSelects(rows: seq<Invoice>, user: string, status: Option<Status>, r: Invoice)
    ensures r in Where(rows, user, HasStatus(status))
            <==> r in rows && r.owner == user && (status.None? || r.status == status.value)
    ensures multiset(Where(rows, user, HasStatus(status)))[r]
            == if r.owner == user && (status.None? || r.status == status.value) then multiset(rows)[r] else 0
  {
    WhereCounts(rows, user, HasStatus(status), r);
    WhereMembers(rows, user, HasStatus(status));
  }

  /** The sequence holds the caller's rows of the status, each as often as the table does, newest first. */
  ghost predicate ListsAll(all: seq<Invoice>, rows: seq<Invoice>, user: string, status: Option<Status>) {
    && NewestFirst(all)
    && forall r: Invoice :: multiset(all)[r]
                   == if r.owner == user && (status.None? || r.status == status.value) then multiset(rows)[r] else 0
  }

  lemma ListsAllNewest(rows: seq<Invoice>, user: string, status: Option<Status>)
    ensures ListsAll(Newest(Where(rows, user, HasStatus(status))), rows, user, status)
  {
    var matching := Where(rows, user, HasStatus(status));
    NewestIsSorted(matching);
    hide Where, Newest, NewestFirst;
    forall r: Invoice
      ensures multiset(matching)[r]
              == if r.owner == user && (status.None? || r.status == status.value) then multiset(rows)[r] else 0
    {
      StatusSelects(rows, user, status, r);
    }
  }

  /**
    * Paging from the start yields each of the caller's invoices of the status exactly once, newest first, if and
    * only if the offset of the last page is within the accepted range; 100,000 of them are never too many.
    */
  lemma {:induction false} PagesPartition(rows: seq<Invoice>, user: string, status: Option<Status>,
                                          lower: char -> char, n: nat)
    requires 1 <= n <= MAX_PAGE_SIZE
    ensures exists all: seq<Invoice> ::
                          && ListsAll(all, rows, user, status)
                          && (LastStart(|all|, n) <= MAX_OFFSET ==>
                                Walk(rows, user, status, lower, n, 0) == Some(Outs(all)))
                          && (LastStart(|all|, n) > MAX_OFFSET ==> Walk(rows, user, status, lower, n, 0) == None)
                          && (|all| <= MAX_OFFSET ==> Walk(rows, user, status, lower, n, 0).Some?)
  {
    ListsAllNewest(rows, user, status);
    hide Where, Newest, Outs, ListsAll, LastStart, Walk;
    var all := Newest(Where(rows, user, HasStatus(status)));
    WalkFrom(rows, user, status, lower, n, 0);
    assert Outs(all)[0..] == Outs(all);
    assert ListsAll(all, rows, user, status);
  }

  /** The accepted ranges: a page holds 1 to 100 invoices, and the offset goes up to 100,000. */
  lemma ListRejects(rows: seq<Invoice>, user: string, limit: int, offset: int, status: Option<Status>,
                    lower: char -> char)
    ensures Step(rows, user, List(limit, offset, status), lower).1 == Unprocessable
            <==> limit < 1 || limit > 100 || offset < 0 || offset > 100_000
  {
  }

  /** A search term has 1 to 100 characters. */
  lemma SearchRejects(rows: seq<Invoice>, user: string, q: string, limit: int, lower: char -> char)
    ensures Step(rows, user, Search(q, limit), lower).1 == Unprocessable
            <==> limit < 1 || limit > 100 || |q| < 1 || |q| > 100
  {
  }

  /** The sequence holds the caller's rows that contain the term, each as often as the table does, newest first. */
  ghost predicate FindsAll(hits: seq<Invoice>, rows: seq<Invoice>, user: string, q: string, lower: char -> char) {
    && NewestFirst(hits)
    && forall r: Invoice :: multiset(hits)[r]
                            == if r.owner == user && Occurs(r.customer, q, lower) then multiset(rows)[r] else 0
  }

  lemma FindsAllNewest(rows: seq<Invoice>, user: string, q: string, lower: char -> char)
    requires KeepsSpecials(lower)
    ensures FindsAll(Newest(Where(rows, user, NameLike(SearchPattern(q), lower))), rows, user, q, lower)
  {
    var matching := Where(rows, user, NameLike(SearchPattern(q), lower));
    NewestIsSorted(matching);
    hide Where, Newest, NewestFirst, Occurs, ILike, SearchPattern;
    forall r: Invoice
      ensures multiset(matching)[r]
              == if r.owner == user && Occurs(r.customer, q, lower) then multiset(rows)[r] else 0
    {
      WhereCounts(rows, user, NameLike(SearchPattern(q), lower), r);
      ISearchIsExact(r.customer, q, lower);
    }
  }

  /** A search answers with the newest of the tenant's invoices that contain the term, up to the limit. */
  lemma SearchAnswer(rows: seq<Invoice>, user: string, q: string, limit: int, lower: char -> char)
    requires KeepsSpecials(lower) && 1 <= limit <= MAX_PAGE_SIZE && 1 <= |q| <= MAX_QUERY
    ensures exists hits: seq<Invoice> ::
              && FindsAll(hits, rows, user, q, lower)
              && Step(rows, user, Search(q, limit), lower).1
                 == Page(Outs(if |hits| <= limit then hits else hits[..limit]))
  {
    FindsAllNewest(rows, user, q, lower);
    hide Where, Newest, FindsAll, Outs, SearchPattern;
    FirstSlice(Newest(Where(rows, user, NameLike(SearchPattern(q), lower))), limit);
  }

  lemma FirstSlice(s: seq<Invoice>, limit: nat)
    ensures Slice(s, limit, 0) == if |s| <= limit then s else s[..limit]
  {
  }
}
