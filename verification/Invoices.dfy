/** The owner-scoped invoice handlers of app/routers/invoices.py as a multi-tenant state machine. */
module Invoices {
  import opened Prelude
  import opened LikeSearch

  datatype Status = Draft | Sent | Paid | Void

  datatype Invoice = Invoice(id: string, owner: string, customer: string, amount: int, currency: string,
                             status: Status, description: string, createdAt: real)

  /** What a response shows of an invoice: everything but the owner. */
  datatype InvoiceOut = InvoiceOut(id: string, customer: string, amount: int, currency: string,
                                   status: Status, description: string, createdAt: real)

  datatype CreateBody = CreateBody(customer: string, amount: int, currency: string, description: string)

  /** An absent field is None; an explicit null is dropped by `exclude_none` and so is None too. */
  datatype UpdateBody = UpdateBody(customer: Option<string>, amount: Option<int>, description: Option<string>,
                                   status: Option<Status>)

  /** Fresh identifiers and creation times are carried by the create request. */
  datatype Request =
    | List(limit: int, offset: int, status: Option<Status>)
    | Search(q: string, limit: int)
    | Create(body: CreateBody, newId: string, at: real)
    | Get(id: string)
    | Update(id: string, patch: UpdateBody)
    | Delete(id: string)

  datatype Response =
    | Page(invoices: seq<InvoiceOut>)
    | One(invoice: InvoiceOut)
    | NoContent
    | NotFound
    | Unprocessable
    | ServerError

  const MAX_PAGE_SIZE := 100
  const MAX_OFFSET := 100_000
  const MAX_QUERY := 100

  // ---------------------------------------------------------------- queries

  datatype Condition =
    | HasStatus(status: Option<Status>)
    | NameLike(pattern: string, lower: char -> char)
    | HasId(id: string)

  predicate Holds(r: Invoice, c: Condition) {
    match c
    case HasStatus(None) => true
    case HasStatus(Some(st)) => r.status == st
    case NameLike(pattern, lower) => ILike(r.customer, pattern, lower)
    case HasId(id) => r.id == id
  }

  /** `select(Invoice).where(owner_id == user, condition)` in insertion order. */
  function Where(rows: seq<Invoice>, user: string, c: Condition): seq<Invoice> {
    if rows == [] then []
    else (if rows[0].owner == user && Holds(rows[0], c) then [rows[0]] else []) + Where(rows[1..], user, c)
  }

  function InsertNewest(r: Invoice, s: seq<Invoice>): seq<Invoice> {
    if s == [] || r.createdAt >= s[0].createdAt then [r] + s else [s[0]] + InsertNewest(r, s[1..])
  }

  /** `order_by(created_at.desc())`; rows created at the same time keep their insertion order. */
  function Newest(s: seq<Invoice>): seq<Invoice> {
    if s == [] then [] else InsertNewest(s[0], Newest(s[1..]))
  }

  /** `.limit(limit).offset(offset)`. */
  function Slice(s: seq<Invoice>, limit: nat, offset: nat): seq<Invoice> {
    var from := if offset < |s| then offset else |s|;
    var to := if from + limit < |s| then from + limit else |s|;
    s[from..to]
  }

  function Out(r: Invoice): InvoiceOut {
    InvoiceOut(r.id, r.customer, r.amount, r.currency, r.status, r.description, r.createdAt)
  }

  function Outs(s: seq<Invoice>): seq<InvoiceOut> {
    seq(|s|, i requires 0 <= i < |s| => Out(s[i]))
  }

  predicate HasRow(rows: seq<Invoice>, id: string) {
    exists i | 0 <= i < |rows| :: rows[i].id == id
  }

  // ---------------------------------------------------------------- changes

  function NewRow(user: string, body: CreateBody, id: string, at: real): Invoice {
    Invoice(id, user, body.customer, body.amount, body.currency, Draft, body.description, at)
  }

  function Patched(r: Invoice, p: UpdateBody): Invoice {
    r.(customer := if p.customer.Some? then p.customer.value else r.customer,
       amount := if p.amount.Some? then p.amount.value else r.amount,
       description := if p.description.Some? then p.description.value else r.description,
       status := if p.status.Some? then p.status.value else r.status)
  }

  /** The flush of a changed object: an update addressed by primary key alone. */
  function WriteById(rows: seq<Invoice>, r: Invoice): seq<Invoice> {
    seq(|rows|, i requires 0 <= i < |rows| => if rows[i].id == r.id then r else rows[i])
  }

  function RemoveById(rows: seq<Invoice>, id: string): seq<Invoice> {
    if rows == [] then []
    else (if rows[0].id == id then [] else [rows[0]]) + RemoveById(rows[1..], id)
  }

  /** One authenticated request, as one transaction. */
  function Step(rows: seq<Invoice>, user: string, req: Request, lower: char -> char): (seq<Invoice>, Response) {
    match req
    case List(limit, offset, status) =>
      if 1 <= limit <= MAX_PAGE_SIZE && 0 <= offset <= MAX_OFFSET then
        (rows, Page(Outs(Slice(Newest(Where(rows, user, HasStatus(status))), limit, offset))))
      else (rows, Unprocessable)
    case Search(q, limit) =>
      if 1 <= limit <= MAX_PAGE_SIZE && 1 <= |q| <= MAX_QUERY then
        (rows, Page(Outs(Slice(Newest(Where(rows, user, NameLike(SearchPattern(q), lower))), limit, 0))))
      else (rows, Unprocessable)
    case Create(body, id, at) =>
      if HasRow(rows, id) then (rows, ServerError)
      else (rows + [NewRow(user, body, id, at)], One(Out(NewRow(user, body, id, at))))
    case Get(id) =>
      var found := Where(rows, user, HasId(id));
      (rows, if found == [] then NotFound else One(Out(found[0])))
    case Update(id, p) =>
      var found := Where(rows, user, HasId(id));
      if found == [] then (rows, NotFound)
      else (WriteById(rows, Patched(found[0], p)), One(Out(Patched(found[0], p))))
    case Delete(id) =>
      var found := Where(rows, user, HasId(id));
      if found == [] then (rows, NotFound) else (RemoveById(rows, id), NoContent)
  }

  // ---------------------------------------------------------------- the handlers

  datatype Assignment = SetCustomer(s: string) | SetAmount(n: int) | SetDescription(s: string) | SetStatus(st: Status)

  /** `model_dump(exclude_unset=True, exclude_none=True).items()`, in field order. */
  function Dump(p: UpdateBody): seq<Assignment> {
    (if p.customer.Some? then [SetCustomer(p.customer.value)] else [])
    + (if p.amount.Some? then [SetAmount(p.amount.value)] else [])
    + (if p.description.Some? then [SetDescription(p.description.value)] else [])
    + (if p.status.Some? then [SetStatus(p.status.value)] else [])
  }

  function SetAttr(r: Invoice, a: Assignment): Invoice {
    match a
    case SetCustomer(s) => r.(customer := s)
    case SetAmount(n) => r.(amount := n)
    case SetDescription(s) => r.(description := s)
    case SetStatus(st) => r.(status := st)
  }

  function SetAll(r: Invoice, fields: seq<Assignment>): Invoice {
    if fields == [] then r else SetAttr(SetAll(r, fields[..|fields| - 1]), fields[|fields| - 1])
  }

  lemma SetAllAppend(r: Invoice, fields: seq<Assignment>, more: seq<Assignment>)
    requires |more| <= 1
    ensures SetAll(r, fields + more) == if more == [] then SetAll(r, fields) else SetAttr(SetAll(r, fields), more[0])
  {
    if more == [] {
      assert fields + more == fields;
    } else {
      assert (fields + more)[..|fields|] == fields;
    }
  }

  /** Assigning the dumped fields one by one is the patch. */
  lemma DumpIsPatch(r: Invoice, p: UpdateBody)
    ensures SetAll(r, Dump(p)) == Patched(r, p)
  {
    hide SetAll;
    var a := if p.customer.Some? then [SetCustomer(p.customer.value)] else [];
    var b := if p.amount.Some? then [SetAmount(p.amount.value)] else [];
    var c := if p.description.Some? then [SetDescription(p.description.value)] else [];
    var d := if p.status.Some? then [SetStatus(p.status.value)] else [];
    assert SetAll(r, []) == r by { SetNothing(r); }
    assert [] + a == a;
    SetAllAppend(r, [], a);
    SetAllAppend(r, a, b);
    SetAllAppend(r, a + b, c);
    SetAllAppend(r, a + b + c, d);
  }

  lemma SetNothing(r: Invoice)
    ensures SetAll(r, []) == r
  {
  }

  class InvoiceStore {
    var rows: seq<Invoice>
    var denied: nat
    const lower: char -> char

    constructor (lower: char -> char)
      ensures rows == [] && denied == 0 && this.lower == lower
    {
      rows, denied := [], 0;
      this.lower := lower;
    }

    /** `_get_owned_invoice`: counts lookups of a row that exists but belongs to someone else. */
    method GetOwned(user: string, id: string) returns (found: Option<Invoice>)
      modifies this`denied
      ensures found == if Where(rows, user, HasId(id)) == [] then None else Some(Where(rows, user, HasId(id))[0])
      ensures denied == old(denied) + (if found.None? && HasRow(rows, id) then 1 else 0)
    {
      var matches := Where(rows, user, HasId(id));
      if matches == [] {
        if HasRow(rows, id) {
          denied := denied + 1;
        }
        return None;
      }
      return Some(matches[0]);
    }

    method CreateInvoice(user: string, body: CreateBody, id: string, at: real) returns (response: Response)
      modifies this`rows
      ensures (rows, response) == Step(old(rows), user, Create(body, id, at), lower)
    {
      if HasRow(rows, id) {
        return ServerError;
      }
      var invoice := NewRow(user, body, id, at);
      rows := rows + [invoice];
      return One(Out(invoice));
    }

    method GetInvoice(user: string, id: string) returns (response: Response)
      modifies this`denied
      ensures (rows, response) == Step(old(rows), user, Get(id), lower)
      ensures denied == old(denied) + (if response == NotFound && HasRow(old(rows), id) then 1 else 0)
    {
      var found := GetOwned(user, id);
      return if found.None? then NotFound else One(Out(found.value));
    }

    method UpdateInvoice(user: string, id: string, p: UpdateBody) returns (response: Response)
      modifies this
      ensures (rows, response) == Step(old(rows), user, Update(id, p), lower)
      ensures denied == old(denied) + (if response == NotFound && HasRow(old(rows), id) then 1 else 0)
    {
      var found := GetOwned(user, id);
      if found.None? {
        return NotFound;
      }
      var invoice, fields, i := found.value, Dump(p), 0;
      while i < |fields|
        invariant 0 <= i <= |fields|
        invariant invoice == SetAll(found.value, fields[..i])
      {
        invoice := SetAttr(invoice, fields[i]);
        assert fields[..i + 1][..i] == fields[..i];
        i := i + 1;
      }
      assert fields[..i] == fields;
      DumpIsPatch(found.value, p);
      rows := WriteById(rows, invoice);
      return One(Out(invoice));
    }

    method DeleteInvoice(user: string, id: string) returns (response: Response)
      modifies this
      ensures (rows, response) == Step(old(rows), user, Delete(id), lower)
      ensures denied == old(denied) + (if response == NotFound && HasRow(old(rows), id) then 1 else 0)
    {
      var found := GetOwned(user, id);
      if found.None? {
        return NotFound;
      }
      rows := RemoveById(rows, id);
      return NoContent;
    }
  }
}
