/** Who can be an administrator: `register`, `create-admin` and `set_role` executed serially. */
module Roles {

  datatype Role = User | Admin

  datatype Account = Account(email: string, role: Role, active: bool)

  type Directory = map<string, Account>

  /** New identifiers are carried by the step that draws them. */
  datatype Event =
    | Register(email: string, newId: string)
    | CreateAdmin(email: string, newId: string, passwordLength: nat)
    | SetRole(actor: string, target: string, role: Role)

  datatype Result = Success | Unauthorized | Forbidden | Missing | SelfDemotion | Conflict | WeakPassword

  predicate HasEmail(d: Directory, email: string) {
    exists id | id in d :: d[id].email == email
  }

  /** `user.role = "admin"` on the row with this address; addresses are unique. */
  function Promote(d: Directory, email: string): Directory {
    map id | id in d :: if d[id].email == email then d[id].(role := Admin) else d[id]
  }

  predicate IsAdmin(d: Directory, id: string) {
    id in d && d[id].role.Admin?
  }

  function Step(d: Directory, e: Event, lower: string -> string): (Directory, Result) {
    match e
    case Register(email, newId) =>
      if newId in d || HasEmail(d, lower(email)) then (d, Conflict)
      else (d[newId := Account(lower(email), User, true)], Success)
    case CreateAdmin(email, newId, passwordLength) =>
      if passwordLength < 12 then (d, WeakPassword)
      else if HasEmail(d, lower(email)) then (Promote(d, lower(email)), Success)
      else if newId in d then (d, Conflict)
      else (d[newId := Account(lower(email), Admin, true)], Success)
    case SetRole(actor, target, role) =>
      if actor !in d || !d[actor].active then (d, Unauthorized)
      else if !d[actor].role.Admin? then (d, Forbidden)
      else if target !in d then (d, Missing)
      else if target == actor && role != Admin then (d, SelfDemotion)
      else (d[target := d[target].(role := role)], Success)
  }

  // ---------------------------------------------------------------- what each request does

  /** Only an active administrator sets roles, on an existing account and never down on itself; exactly the target
      changes, and of it exactly the role. */
  lemma SetRoleExact(d: Directory, actor: string, target: string, role: Role, lower: string -> string)
    ensures var (after, result) := Step(d, SetRole(actor, target, role), lower);
            && (result == Success <==> actor in d && d[actor].active && d[actor].role == Admin && target in d
                                       && (target != actor || role == Admin))
            && (result == Unauthorized <==> actor !in d || !d[actor].active)
            && (result == Forbidden <==> actor in d && d[actor].active && d[actor].role == User)
            && (result == Missing <==> actor in d && d[actor].active && d[actor].role == Admin && target !in d)
            && (result == SelfDemotion <==> actor in d && d[actor].active && d[actor].role == Admin
                                            && target == actor && role == User)
            && after.Keys == d.Keys
            && (forall id | id in d :: after[id].email == d[id].email && after[id].active == d[id].active)
            && (forall id | id in d :: after[id].role == if result == Success && id == target then role else d[id].role)
  {
  }

  /** An address nobody has can register; it exists afterwards, lower-cased, on an active account without rights. */
  lemma RegisterExact(d: Directory, email: string, newId: string, lower: string -> string)
    ensures var (after, result) := Step(d, Register(email, newId), lower);
            && (result == Success <==> newId !in d && forall id | id in d :: d[id].email != lower(email))
            && (result != Success ==> result == Conflict && after == d)
            && (result == Success ==>
                  && after.Keys == d.Keys + {newId} && (forall id | id in d :: after[id] == d[id])
                  && after[newId].email == lower(email) && after[newId].role == User && after[newId].active)
  {
  }

  /** A password of twelve characters suffices; an address that exists is promoted, another gets a new account. */
  lemma CreateAdminExact(d: Directory, email: string, newId: string, passwordLength: nat, lower: string -> string)
    ensures var (after, result) := Step(d, CreateAdmin(email, newId, passwordLength), lower);
            && (result == WeakPassword <==> passwordLength < 12)
            && (result == Conflict <==>
                  passwordLength >= 12 && newId in d && forall id | id in d :: d[id].email != lower(email))
            && (result == Success || result == WeakPassword || result == Conflict)
            && (result != Success ==> after == d)
            && (forall id | id in d ::
                  && id in after && after[id].email == d[id].email && after[id].active == d[id].active
                  && after[id].role == if result == Success && d[id].email == lower(email) then Admin else d[id].role)
            && (forall id | id in after && id !in d :: id == newId && after[id] == Account(lower(email), Admin, true))
            && (result == Success ==>
                  exists id :: id in after && after[id].email == lower(email) && after[id].role == Admin)
  {
    if passwordLength >= 12 && HasEmail(d, lower(email)) {
      var id :| id in d && d[id].email == lower(email);
      assert Promote(d, lower(email))[id].role == Admin;
    } else if passwordLength >= 12 && newId !in d {
      assert Step(d, CreateAdmin(email, newId, passwordLength), lower).0[newId].role == Admin;
    }
  }

  class UserTable {
    var users: map<string, Account>
    const lower: string -> string

    constructor (lower: string -> string)
      ensures users == map[] && this.lower == lower
    {
      users := map[];
      this.lower := lower;
    }

    /** `register`: the role is never taken from the request. */
    method RegisterUser(email: string, newId: string) returns (result: Result)
      modifies this
      ensures (users, result) == Step(old(users), Register(email, newId), lower)
      ensures result == Success
              <==> newId !in old(users) && forall id | id in old(users) :: old(users)[id].email != lower(email)
      ensures users == if result == Success then old(users)[newId := Account(lower(email), User, true)] else old(users)
      ensures forall id :: IsAdmin(users, id) <==> IsAdmin(old(users), id)
    {
      var user := Account(lower(email), User, true);
      if newId in users || HasEmail(users, user.email) {
        return Conflict;
      }
      users := users[newId := user];
      return Success;
    }

    /** `require_admin` and `set_role`. */
    method SetUserRole(actor: string, target: string, role: Role) returns (result: Result)
      modifies this
      ensures (users, result) == Step(old(users), SetRole(actor, target, role), lower)
      ensures users != old(users) ==> IsAdmin(old(users), actor) && IsAdmin(users, actor)
      ensures users.Keys == old(users).Keys && forall id | id in users && id != target :: users[id] == old(users)[id]
      ensures result == Success ==> target in users && users[target] == old(users)[target].(role := role)
      ensures result != Success ==> users == old(users)
    {
      if actor !in users || !users[actor].active {
        return Unauthorized;
      }
      if users[actor].role != Admin {
        return Forbidden;
      }
      if target !in users {
        return Missing;
      }
      if target == actor && role != Admin {
        return SelfDemotion;
      }
      users := users[target := users[target].(role := role)];
      return Success;
    }

    /** The out-of-band `create-admin` command. */
    method Bootstrap(email: string, newId: string, passwordLength: nat) returns (result: Result)
      modifies this
      ensures (users, result) == Step(old(users), CreateAdmin(email, newId, passwordLength), lower)
      ensures result.Success? ==> exists id | id in users :: IsAdmin(users, id) && users[id].email == lower(email)
    {
      if passwordLength < 12 {
        return WeakPassword;
      }
      if HasEmail(users, lower(email)) {
        ghost var id :| id in users && users[id].email == lower(email);
        users := Promote(users, lower(email));
        assert IsAdmin(users, id);
        return Success;
      }
      if newId in users {
        return Conflict;
      }
      users := users[newId := Account(lower(email), Admin, true)];
      assert IsAdmin(users, newId);
      return Success;
    }
  }

  // ---------------------------------------------------------------- runs

  function Run(es: seq<Event>, lower: string -> string): Directory {
    if es == [] then map[] else Step(Run(es[..|es| - 1], lower), es[|es| - 1], lower).0
  }

  function ResultOf(es: seq<Event>, i: nat, lower: string -> string): Result
    requires i < |es|
  {
    Step(Run(es[..i], lower), es[i], lower).1
  }

  predicate UniqueEmails(d: Directory) {
    forall a, b | a in d && b in d && d[a].email == d[b].email :: a == b
  }

  /** Addresses stay unique, so `create-admin` promotes at most one account. */
  lemma {:induction false} EmailsStayUnique(es: seq<Event>, lower: string -> string)
    ensures UniqueEmails(Run(es, lower))
  {
    if es != [] {
      EmailsStayUnique(es[..|es| - 1], lower);
      StepKeepsUnique(Run(es[..|es| - 1], lower), es[|es| - 1], lower);
    }
  }

  lemma StepKeepsUnique(d: Directory, e: Event, lower: string -> string)
    requires UniqueEmails(d)
    ensures UniqueEmails(Step(d, e, lower).0)
  {
  }

  predicate SomeAdmin(d: Directory) {
    exists id | id in d :: IsAdmin(d, id)
  }

  lemma StepKeepsAdmin(d: Directory, e: Event, lower: string -> string)
    requires SomeAdmin(d)
    ensures SomeAdmin(Step(d, e, lower).0)
  {
    var d' := Step(d, e, lower).0;
    var id :| id in d && IsAdmin(d, id);
    if e.SetRole? && Step(d, e, lower).1.Success? {
      assert IsAdmin(d', e.actor);
    } else {
      assert IsAdmin(d', id);
    }
  }

  /** Once there is an administrator there always is one. */
  lemma {:induction false} AdminPersists(es: seq<Event>, n: nat, lower: string -> string)
    requires n <= |es| && SomeAdmin(Run(es[..n], lower))
    ensures SomeAdmin(Run(es, lower))
  {
    if n < |es| {
      var es0 := es[..|es| - 1];
      assert es0[..n] == es[..n];
      AdminPersists(es0, n, lower);
      StepKeepsAdmin(Run(es0, lower), es[|es| - 1], lower);
    } else {
      assert es[..n] == es;
    }
  }

  // ---------------------------------------------------------------- where administrators come from

  /** Step i made the account an administrator. */
  predicate Grants(es: seq<Event>, i: nat, id: string, lower: string -> string) {
    i < |es| && ResultOf(es, i, lower).Success? &&
    match es[i]
    case Register(_, _) => false
    case CreateAdmin(email, _, _) => id in Run(es[..i + 1], lower) && Run(es[..i + 1], lower)[id].email == lower(email)
    case SetRole(_, target, role) => target == id && role.Admin?
  }

  /** A chain of grants: it starts with `create-admin`, and every later one is made by the account granted before. */
  predicate GrantChain(es: seq<Event>, chain: seq<nat>, id: string, lower: string -> string) {
    && chain != []
    && (forall k | 0 <= k < |chain| :: chain[k] < |es|)
    && (forall k | 0 < k < |chain| :: chain[k - 1] < chain[k])
    && es[chain[0]].CreateAdmin?
    && (forall k | 0 < k < |chain| ::
          es[chain[k]].SetRole? && Grants(es, chain[k - 1], es[chain[k]].actor, lower))
    && Grants(es, chain[|chain| - 1], id, lower)
  }

  lemma GrantsInLonger(es: seq<Event>, e: Event, i: nat, id: string, lower: string -> string)
    requires Grants(es, i, id, lower)
    ensures Grants(es + [e], i, id, lower)
  {
    assert (es + [e])[..i] == es[..i] && (es + [e])[..i + 1] == es[..i + 1];
  }

  lemma ChainInLonger(es: seq<Event>, e: Event, chain: seq<nat>, id: string, lower: string -> string)
    requires GrantChain(es, chain, id, lower)
    ensures GrantChain(es + [e], chain, id, lower)
  {
    var all := es + [e];
    forall k | 0 < k < |chain| ensures all[chain[k]].SetRole? && Grants(all, chain[k - 1], all[chain[k]].actor, lower) {
      GrantsInLonger(es, e, chain[k - 1], es[chain[k]].actor, lower);
    }
    GrantsInLonger(es, e, chain[|chain| - 1], id, lower);
  }

  lemma ExtendChain(es: seq<Event>, e: Event, chain: seq<nat>, id: string, lower: string -> string)
    requires e.SetRole? && GrantChain(es, chain, e.actor, lower)
    requires Grants(es + [e], |es|, id, lower)
    ensures GrantChain(es + [e], chain + [|es|], id, lower)
  {
    ChainInLonger(es, e, chain, e.actor, lower);
    hide Grants;
    var all, longer := es + [e], chain + [|es|];
    forall k | 0 < k < |longer|
      ensures all[longer[k]].SetRole? && Grants(all, longer[k - 1], all[longer[k]].actor, lower)
      ensures longer[k - 1] < longer[k]
    {
      if k < |chain| {
        assert longer[k] == chain[k];
      } else {
        assert all[longer[k]] == e;
      }
    }
  }

  /** An account that is an administrator after a step was one before, or the step granted it. */
  lemma NewAdminIsGranted(es: seq<Event>, e: Event, id: string, lower: string -> string)
    requires IsAdmin(Run(es + [e], lower), id)
    ensures IsAdmin(Run(es, lower), id) || Grants(es + [e], |es|, id, lower)
  {
    hide *;
    LastStep(es, e, lower);
    StepMakesAdmin(Run(es, lower), e, id, lower);
    if !IsAdmin(Run(es, lower), id) {
      LastGrant(es, e, id, lower);
    }
  }

  lemma LastStep(es: seq<Event>, e: Event, lower: string -> string)
    ensures Run(es + [e], lower) == Step(Run(es, lower), e, lower).0
    ensures ResultOf(es + [e], |es|, lower) == Step(Run(es, lower), e, lower).1
  {
    hide Step;
    assert (es + [e])[..|es|] == es && (es + [e])[|es|] == e;
  }

  lemma LastGrant(es: seq<Event>, e: Event, id: string, lower: string -> string)
    requires ResultOf(es + [e], |es|, lower).Success? && !e.Register?
    requires e.CreateAdmin? ==> id in Run(es + [e], lower) && Run(es + [e], lower)[id].email == lower(e.email)
    requires e.SetRole? ==> e.target == id && e.role.Admin?
    ensures Grants(es + [e], |es|, id, lower)
  {
    hide Run, ResultOf;
    assert (es + [e])[|es|] == e && (es + [e])[..|es| + 1] == es + [e];
  }

  lemma StepMakesAdmin(d: Directory, e: Event, id: string, lower: string -> string)
    requires IsAdmin(Step(d, e, lower).0, id)
    ensures IsAdmin(d, id) || (Step(d, e, lower).1.Success? && !e.Register?
              && (e.CreateAdmin? ==> id in Step(d, e, lower).0 && Step(d, e, lower).0[id].email == lower(e.email))
              && (e.SetRole? ==> e.target == id && e.role.Admin?))
  {
  }

  /** Every administrator has a grant chain back to a `create-admin` step. */
  lemma {:induction false} AdminHasGrantChain(es: seq<Event>, id: string, lower: string -> string)
    requires IsAdmin(Run(es, lower), id)
    ensures exists chain :: GrantChain(es, chain, id, lower)
  {
    if es != [] {
      var es0, e := es[..|es| - 1], es[|es| - 1];
      assert es0 + [e] == es;
      NewAdminIsGranted(es0, e, id, lower);
      if IsAdmin(Run(es0, lower), id) {
        AdminHasGrantChain(es0, id, lower);
        var chain :| GrantChain(es0, chain, id, lower);
        ChainInLonger(es0, e, chain, id, lower);
      } else if e.CreateAdmin? {
        assert GrantChain(es, [|es0|], id, lower);
      } else {
        assert es[..|es0|] == es0;
        AdminHasGrantChain(es0, e.actor, lower);
        var chain :| GrantChain(es0, chain, e.actor, lower);
        ExtendChain(es0, e, chain, id, lower);
      }
    }
  }

  /** Without `create-admin` nobody ever becomes an administrator. */
  lemma {:induction false} AdminNeedsBootstrap(es: seq<Event>, lower: string -> string)
    ensures SomeAdmin(Run(es, lower)) ==> exists i | 0 <= i < |es| :: es[i].CreateAdmin?
  {
    if id :| id in Run(es, lower) && IsAdmin(Run(es, lower), id) {
      AdminHasGrantChain(es, id, lower);
      var chain :| GrantChain(es, chain, id, lower);
      assert es[chain[0]].CreateAdmin?;
    }
  }

  // ---------------------------------------------------------------- who is one, exactly

  /** Step i took the role away again. */
  predicate Revokes(es: seq<Event>, i: nat, id: string, lower: string -> string) {
    i < |es| && es[i].SetRole? && es[i].target == id && es[i].role == User && ResultOf(es, i, lower) == Success
  }

  lemma SameStepInLonger(es: seq<Event>, e: Event, i: nat, id: string, lower: string -> string)
    requires i < |es|
    ensures Grants(es + [e], i, id, lower) == Grants(es, i, id, lower)
    ensures Revokes(es + [e], i, id, lower) == Revokes(es, i, id, lower)
    ensures ResultOf(es + [e], i, lower) == ResultOf(es, i, lower)
  {
    assert (es + [e])[..i] == es[..i] && (es + [e])[..i + 1] == es[..i + 1];
  }

  lemma StepDecides(d: Directory, e: Event, id: string, lower: string -> string)
    ensures var (after, result) := Step(d, e, lower);
            IsAdmin(after, id)
            <==> (result.Success? && !e.Register?
                  && (e.CreateAdmin? ==> id in after && after[id].email == lower(e.email))
                  && (e.SetRole? ==> e.target == id && e.role.Admin?))
                 || (IsAdmin(d, id) && !(e.SetRole? && e.target == id && e.role == User && result == Success))
  {
  }

  /** The last step alone: it grants, or it leaves an administrator one. */
  lemma LastStepDecides(es: seq<Event>, e: Event, id: string, lower: string -> string)
    ensures IsAdmin(Run(es + [e], lower), id)
            <==> Grants(es + [e], |es|, id, lower)
                 || (IsAdmin(Run(es, lower), id) && !Revokes(es + [e], |es|, id, lower))
  {
    hide Run, ResultOf, Step, IsAdmin;
    LastStep(es, e, lower);
    assert (es + [e])[..|es| + 1] == es + [e] && (es + [e])[|es|] == e;
    StepDecides(Run(es, lower), e, id, lower);
  }

  /** An account was made administrator and nobody successfully took the role away since. */
  ghost predicate GrantedForGood(es: seq<Event>, id: string, lower: string -> string) {
    exists i: nat :: Grants(es, i, id, lower) && forall j: nat | i < j < |es| :: !Revokes(es, j, id, lower)
  }

  /** The administrators of a run are exactly the accounts granted the role and not demoted since. */
  lemma {:induction false} AdminIff(es: seq<Event>, id: string, lower: string -> string)
    ensures IsAdmin(Run(es, lower), id) <==> GrantedForGood(es, id, lower)
  {
    if es != [] {
      var es0, e := es[..|es| - 1], es[|es| - 1];
      assert es0 + [e] == es;
      AdminIff(es0, id, lower);
      LastStepDecides(es0, e, id, lower);
      LastMatters(es0, e, id, lower);
    } else {
      assert forall i: nat :: !Grants(es, i, id, lower);
    }
  }

  lemma LastMatters(es: seq<Event>, e: Event, id: string, lower: string -> string)
    ensures GrantedForGood(es + [e], id, lower)
            <==> Grants(es + [e], |es|, id, lower)
                 || (GrantedForGood(es, id, lower) && !Revokes(es + [e], |es|, id, lower))
  {
    var all := es + [e];
    forall i: nat | i < |es|
      ensures Grants(all, i, id, lower) == Grants(es, i, id, lower)
      ensures Revokes(all, i, id, lower) == Revokes(es, i, id, lower)
    {
      SameStepInLonger(es, e, i, id, lower);
    }
    assert forall i: nat | Grants(all, i, id, lower) :: i < |all|;
    assert forall i: nat | Grants(es, i, id, lower) :: i < |es|;
    hide Grants, Revokes;
    if Grants(all, |es|, id, lower) {
      assert forall j: nat | |es| < j < |all| :: !Revokes(all, j, id, lower);
    }
    if GrantedForGood(all, id, lower) && !Grants(all, |es|, id, lower) {
      var i: nat :| Grants(all, i, id, lower) && forall j: nat | i < j < |all| :: !Revokes(all, j, id, lower);
      assert i < |es| && Grants(es, i, id, lower);
      assert forall j: nat | i < j < |es| :: !Revokes(es, j, id, lower);
    }
    if GrantedForGood(es, id, lower) && !Revokes(all, |es|, id, lower) {
      var i: nat :| Grants(es, i, id, lower) && forall j: nat | i < j < |es| :: !Revokes(es, j, id, lower);
      assert forall j: nat | i < j < |all| :: !Revokes(all, j, id, lower);
    }
  }

  /** Step i brought the address in, or found it. */
  predicate Enters(es: seq<Event>, i: nat, address: string, lower: string -> string) {
    i < |es| && !es[i].SetRole? && lower(es[i].email) == address && ResultOf(es, i, lower) == Success
  }

  /** The addresses of a run are exactly those that entered with a successful step, lower-cased. */
  lemma {:induction false} AddressIff(es: seq<Event>, address: string, lower: string -> string)
    ensures (exists id :: id in Run(es, lower) && Run(es, lower)[id].email == address)
            <==> exists i :: Enters(es, i, address, lower)
  {
    if es != [] {
      var es0, e := es[..|es| - 1], es[|es| - 1];
      assert es0 + [e] == es;
      AddressIff(es0, address, lower);
      LastStep(es0, e, lower);
      StepAddresses(Run(es0, lower), e, address, lower);
      hide Run, Step;
      forall i | 0 <= i < |es0| ensures Enters(es, i, address, lower) == Enters(es0, i, address, lower) {
        SameStepInLonger(es0, e, i, "", lower);
      }
      hide ResultOf;
      assert Enters(es, |es0|, address, lower)
        <==> !e.SetRole? && lower(e.email) == address && ResultOf(es, |es0|, lower) == Success;
    }
  }

  lemma StepAddresses(d: Directory, e: Event, address: string, lower: string -> string)
    ensures (exists id :: id in Step(d, e, lower).0 && Step(d, e, lower).0[id].email == address)
            <==> (exists id :: id in d && d[id].email == address)
                 || (!e.SetRole? && lower(e.email) == address && Step(d, e, lower).1 == Success)
  {
    var after := Step(d, e, lower).0;
    if id :| id in d && d[id].email == address {
      assert after[id].email == address;
    }
    if e.Register? && Step(d, e, lower).1 == Success {
      assert after[e.newId].email == lower(e.email);
    }
    if e.CreateAdmin? && Step(d, e, lower).1 == Success {
      CreateAdminExact(d, e.email, e.newId, e.passwordLength, lower);
    }
  }
}
