/** User accounts and the tokens issued for them. Each repository method is one transaction. */
module Accounts {
  import opened Wrappers
  import opened Ids

  type UserId = nat

  datatype Role = UserRole | ExpertRole | AdminRole

  datatype User = User(email: string, passwordHash: string, role: Role, active: bool, version: nat)

  datatype Claims = Claims(user: UserId, role: Role, active: bool, version: nat)

  // A full replacement of the editable fields.
  datatype Change = Change(email: string, role: Role, active: bool)

  datatype AccountError = NotFound | Duplicate | SelfForbidden | LastAdmin | Unauthorized

  type Users = map<UserId, User>

  predicate TokenValid(c: Claims, u: User) {
    u.active && c.role == u.role && c.active == u.active && c.version == u.version
  }

  // The middleware: the row of the claims still exists and the claims still match it.
  predicate Accepted(users: Users, c: Claims) {
    c.user in users && TokenValid(c, users[c.user])
  }

  predicate IsActiveAdmin(u: User) {
    u.role == AdminRole && u.active
  }

  function ActiveAdmins(users: Users): set<UserId> {
    set i | i in users && IsActiveAdmin(users[i])
  }

  predicate EmailTaken(users: Users, email: string, except: set<UserId>) {
    exists i :: i in users && i !in except && users[i].email == email
  }

  predicate UniqueEmails(users: Users) {
    forall i, j :: i in users && j in users && users[i].email == users[j].email ==> i == j
  }

  /* ---- transactions ---- */

  predicate StatusChanged(u: User, ch: Change) {
    u.role != ch.role || u.active != ch.active
  }

  // The first guard of Update that refuses, with the count of active admins it has read.
  function UpdateGuard(users: Users, id: UserId, ch: Change, caller: UserId, activeAdmins: nat): Option<AccountError> {
    if id !in users then Some(NotFound)
    else if id == caller && StatusChanged(users[id], ch) then Some(SelfForbidden)
    else if IsActiveAdmin(users[id]) && (ch.role != AdminRole || !ch.active) && activeAdmins <= 1 then Some(LastAdmin)
    else if ch.email != users[id].email && EmailTaken(users, ch.email, {id}) then Some(Duplicate)
    else None
  }

  function UpdateError(users: Users, id: UserId, ch: Change, caller: UserId): Option<AccountError> {
    UpdateGuard(users, id, ch, caller, |ActiveAdmins(users)|)
  }

  function UpdatedUser(u: User, ch: Change): User {
    User(ch.email, u.passwordHash, ch.role, ch.active, if StatusChanged(u, ch) then u.version + 1 else u.version)
  }

  function DeleteGuard(users: Users, id: UserId, caller: UserId, activeAdmins: nat): Option<AccountError> {
    if id !in users then Some(NotFound)
    else if id == caller then Some(SelfForbidden)
    else if IsActiveAdmin(users[id]) && activeAdmins <= 1 then Some(LastAdmin)
    else None
  }

  function DeleteError(users: Users, id: UserId, caller: UserId): Option<AccountError> {
    DeleteGuard(users, id, caller, |ActiveAdmins(users)|)
  }

  function ClaimsOf(id: UserId, u: User): Claims {
    Claims(id, u.role, u.active, u.version)
  }

  datatype Event =
    | Register(id: UserId, email: string, passwordHash: string, role: Role)
    | Edit(id: UserId, change: Change, caller: UserId)
    | Remove(id: UserId, caller: UserId)
    | Reset(id: UserId, passwordHash: string)

  // used holds every key ever handed out; keys are not reused.
  datatype World = World(users: Users, used: set<UserId>)

  predicate Inv(w: World) {
    w.users.Keys <= w.used && UniqueEmails(w.users)
  }

  predicate Enabled(w: World, e: Event) {
    e.Register? ==> e.id !in w.used
  }

  function Next(w: World, e: Event): World {
    match e
    case Register(id, email, hash, role) =>
      if EmailTaken(w.users, email, {}) then w
      else World(w.users[id := User(email, hash, role, true, 0)], w.used + {id})
    case Edit(id, ch, caller) =>
      if UpdateError(w.users, id, ch, caller).Some? then w
      else w.(users := w.users[id := UpdatedUser(w.users[id], ch)])
    case Remove(id, caller) =>
      if DeleteError(w.users, id, caller).Some? then w else w.(users := w.users - {id})
    case Reset(id, hash) =>
      if id !in w.users then w
      else w.(users := w.users[id := w.users[id].(passwordHash := hash, version := w.users[id].version + 1)])
  }

  predicate CanLogIn(users: Users, email: string, password: string, verify: (string, string) -> bool) {
    exists i :: i in users && users[i].email == email && users[i].active && verify(users[i].passwordHash, password)
  }

  // The user is an active admin and there is no other.
  predicate OnlyAdmin(users: Users, id: UserId) {
    && id in users && users[id].role == AdminRole && users[id].active
    && forall i :: i in users && i != id ==> !(users[i].role == AdminRole && users[i].active)
  }

  lemma {:induction false} OtherMember(s: set<UserId>, x: UserId) returns (y: UserId)
    requires x in s && |s| > 1
    ensures y in s && y != x
  {
    assert |s - {x}| > 0;
    y :| y in s - {x};
  }

  lemma {:induction false} OnlyAdminIs(users: Users, id: UserId)
    requires id in users
    ensures OnlyAdmin(users, id) <==> IsActiveAdmin(users[id]) && |ActiveAdmins(users)| <= 1
  {
    var admins := ActiveAdmins(users);
    if id in admins {
      if |admins| > 1 {
        var other := OtherMember(admins, id);
        assert IsActiveAdmin(users[other]);
      } else {
        assert |admins - {id}| == |admins| - 1 == 0;
        forall i | i in users && i != id ensures !IsActiveAdmin(users[i]) {
          assert i !in admins - {id};
        }
      }
    }
  }

  class UserRepo {
    var users: Users
    var used: set<UserId>

    ghost function State(): World
      reads this
    {
      World(users, used)
    }

    constructor ()
      ensures State() == World(map[], {})
    {
      users, used := map[], {};
    }

    method Create(email: string, passwordHash: string, role: Role) returns (r: Result<UserId, AccountError>)
      requires Inv(State())
      modifies this
      ensures r.Err? <==> exists i :: i in old(users) && old(users)[i].email == email
      ensures r.Err? ==> r == Err(Duplicate) && State() == old(State())
      ensures r.Ok? ==>
        && Enabled(old(State()), Register(r.value, email, passwordHash, role))
        && State() == Next(old(State()), Register(r.value, email, passwordHash, role))
        && r.value in users && users[r.value] == User(email, passwordHash, role, true, 0)
    {
      if i :| i in users && i !in {} && users[i].email == email {
        return Err(Duplicate);
      }
      var id := FreshId(used);
      users, used := users[id := User(email, passwordHash, role, true, 0)], used + {id};
      r := Ok(id);
    }

    method CountActiveAdmins() returns (n: nat)
      ensures n == |ActiveAdmins(users)|
    {
      n := |set i | i in users && users[i].role == AdminRole && users[i].active|;
      assert ActiveAdmins(users) == set i | i in users && users[i].role == AdminRole && users[i].active;
    }

    method Update(id: UserId, ch: Change, caller: UserId) returns (r: Result<User, AccountError>)
      modifies this`users
      ensures State() == Next(old(State()), Edit(id, ch, caller))
      ensures r.Err? <==> UpdateError(old(users), id, ch, caller).Some?
      ensures r.Err? ==> UpdateError(old(users), id, ch, caller) == Some(r.error)
      ensures r.Ok? ==> id in users && r.value == users[id]
      // the guards, in the columns themselves
      ensures r == Err(NotFound) <==> id !in old(users)
      ensures r == Err(SelfForbidden) <==>
        id in old(users) && id == caller && (old(users)[id].role != ch.role || old(users)[id].active != ch.active)
      ensures r == Err(LastAdmin) ==> OnlyAdmin(old(users), id) && !(ch.role == AdminRole && ch.active)
      ensures r == Err(Duplicate) ==> exists i :: i in old(users) && i != id && old(users)[i].email == ch.email
      ensures r.Ok? ==> !OnlyAdmin(old(users), id) || (ch.role == AdminRole && ch.active)
      ensures r.Ok? ==> forall i :: i in old(users) && i != id && ch.email != old(users)[id].email ==>
        old(users)[i].email != ch.email
      // and the new row
      ensures r.Ok? ==>
        var was, is_ := old(users)[id], users[id];
        && is_.email == ch.email && is_.role == ch.role && is_.active == ch.active
        && is_.passwordHash == was.passwordHash
        && is_.version == was.version + (if was.role == ch.role && was.active == ch.active then 0 else 1)
      ensures users.Keys == old(users).Keys && forall i :: i in users && i != id ==> users[i] == old(users)[i]
    {
      if id in users {
        OnlyAdminIs(users, id);
      }
      if id !in users {
        return Err(NotFound);
      }
      var cur := users[id];
      var roleChanged, activeChanged := cur.role != ch.role, cur.active != ch.active;
      if id == caller && (roleChanged || activeChanged) {
        return Err(SelfForbidden);
      }
      if cur.role == AdminRole && cur.active && (ch.role != AdminRole || !ch.active) {
        var n := CountActiveAdmins();
        if n <= 1 {
          return Err(LastAdmin);
        }
      }
      if cur.email != ch.email {
        if i :| i in users && i !in {id} && users[i].email == ch.email {
          return Err(Duplicate);
        }
      }
      var version := cur.version;
      if roleChanged || activeChanged {
        version := version + 1;
      }
      var updated := cur.(email := ch.email, role := ch.role, active := ch.active, version := version);
      users := users[id := updated];
      r := Ok(updated);
    }

    method Delete(id: UserId, caller: UserId) returns (r: Result<(), AccountError>)
      modifies this`users
      ensures State() == Next(old(State()), Remove(id, caller))
      ensures r == match DeleteError(old(users), id, caller) case Some(e) => Err(e) case None => Ok(())
      ensures r == Err(NotFound) <==> id !in old(users)
      ensures r == Err(SelfForbidden) <==> id in old(users) && id == caller
      ensures r == Err(LastAdmin) <==> id in old(users) && id != caller && OnlyAdmin(old(users), id)
      ensures users == if r.Ok? then old(users) - {id} else old(users)
    {
      if id in users {
        OnlyAdminIs(users, id);
      }
      if id !in users {
        return Err(NotFound);
      }
      if id == caller {
        return Err(SelfForbidden);
      }
      if users[id].role == AdminRole && users[id].active {
        var n := CountActiveAdmins();
        if n <= 1 {
          return Err(LastAdmin);
        }
      }
      users := users - {id};
      r := Ok(());
    }

    method ResetPassword(id: UserId, passwordHash: string) returns (r: Result<(), AccountError>)
      modifies this`users
      ensures State() == Next(old(State()), Reset(id, passwordHash))
      ensures r == if id in old(users) then Ok(()) else Err(NotFound)
      ensures r.Ok? ==>
        var was, is_ := old(users)[id], users[id];
        && is_.passwordHash == passwordHash && is_.version == was.version + 1
        && is_.email == was.email && is_.role == was.role && is_.active == was.active
      ensures users.Keys == old(users).Keys && forall i :: i in users && i != id ==> users[i] == old(users)[i]
    {
      if id !in users {
        return Err(NotFound);
      }
      users := users[id := users[id].(passwordHash := passwordHash, version := users[id].version + 1)];
      r := Ok(());
    }

    method Authenticate(c: Claims) returns (r: Result<User, AccountError>)
      ensures r == if Accepted(users, c) then Ok(users[c.user]) else Err(Unauthorized)
      ensures r.Ok? <==>
        && c.user in users && users[c.user].active && users[c.user].role == c.role
        && users[c.user].active == c.active && users[c.user].version == c.version
    {
      if c.user !in users || !TokenValid(c, users[c.user]) {
        return Err(Unauthorized);
      }
      r := Ok(users[c.user]);
    }

    // A token is issued only from a live active row, so it is accepted at that moment.
    method Login(email: string, password: string, verify: (string, string) -> bool)
      returns (r: Result<Claims, AccountError>)
      requires UniqueEmails(users)
      ensures r.Ok? <==> CanLogIn(users, email, password, verify)
      ensures r.Ok? ==>
        var id := r.value.user;
        && id in users && users[id].email == email && verify(users[id].passwordHash, password)
        && users[id].active && r.value == ClaimsOf(id, users[id]) && Accepted(users, r.value)
        && r.value == Claims(id, users[id].role, true, users[id].version)
      ensures r.Err? ==> r.error == Unauthorized
    {
      if id :| id in users && users[id].email == email {
        var u := users[id];
        if !verify(u.passwordHash, password) || !u.active {
          return Err(Unauthorized);
        }
        r := Ok(ClaimsOf(id, u));
      } else {
        r := Err(Unauthorized);
      }
    }

    method Refresh(c: Claims) returns (r: Result<Claims, AccountError>)
      ensures r.Ok? <==> Accepted(users, c)
      ensures r.Ok? ==> r.value == ClaimsOf(c.user, users[c.user]) && Accepted(users, r.value)
      ensures r.Ok? ==> r.value == c
    {
      var user := Authenticate(c);
      if user.Err? {
        return Err(Unauthorized);
      }
      r := Ok(ClaimsOf(c.user, user.value));
    }
  }

  /* ---- runs ---- */

  predicate Legal(w: World, es: seq<Event>)
    decreases |es|
  {
    es == [] || (Enabled(w, es[0]) && Legal(Next(w, es[0]), es[1..]))
  }

  function After(w: World, es: seq<Event>): World
    decreases |es|
  {
    if es == [] then w else After(Next(w, es[0]), es[1..])
  }

  lemma {:induction false} StepKeepsInv(w: World, e: Event)
    requires Inv(w) && Enabled(w, e)
    ensures Inv(Next(w, e))
  {
    if e.Edit? && UpdateError(w.users, e.id, e.change, e.caller).None? {
      assert forall j :: j in w.users && j != e.id ==> w.users[j].email != e.change.email;
    }
  }

  lemma {:induction false} RunKeepsInv(w: World, es: seq<Event>)
    requires Inv(w) && Legal(w, es)
    ensures Inv(After(w, es))
    decreases |es|
  {
    if es != [] {
      StepKeepsInv(w, es[0]);
      RunKeepsInv(Next(w, es[0]), es[1..]);
    }
  }

  /* ---- who can log in ---- */

  // After a reset exactly the new password logs in under the user's email.
  lemma {:induction false} ResetDecidesLogin(
      w: World, id: UserId, hash: string, password: string, verify: (string, string) -> bool)
    requires Inv(w) && id in w.users && w.users[id].active
    ensures CanLogIn(Next(w, Reset(id, hash)).users, w.users[id].email, password, verify) <==> verify(hash, password)
  {
    var next := Next(w, Reset(id, hash)).users;
    StepKeepsInv(w, Reset(id, hash));
    assert next[id].email == w.users[id].email;
  }

  // After an update one logs in under the new email, with the password as it was, while the account is
  // active; the email given up logs in nobody.
  lemma {:induction false} UpdateDecidesLogin(
      w: World, id: UserId, ch: Change, caller: UserId, password: string, verify: (string, string) -> bool)
    requires Inv(w) && UpdateError(w.users, id, ch, caller).None?
    ensures id in w.users
    ensures CanLogIn(Next(w, Edit(id, ch, caller)).users, ch.email, password, verify) <==>
      ch.active && verify(w.users[id].passwordHash, password)
    ensures w.users[id].email != ch.email ==>
      !CanLogIn(Next(w, Edit(id, ch, caller)).users, w.users[id].email, password, verify)
  {
    var next := Next(w, Edit(id, ch, caller)).users;
    StepKeepsInv(w, Edit(id, ch, caller));
    assert next[id].email == ch.email;
  }

  lemma {:induction false} RegisterDecidesLogin(
      w: World, e: Event, password: string, verify: (string, string) -> bool)
    requires Inv(w) && Enabled(w, e) && e.Register? && forall i :: i in w.users ==> w.users[i].email != e.email
    ensures CanLogIn(Next(w, e).users, e.email, password, verify) <==> verify(e.passwordHash, password)
  {
    StepKeepsInv(w, e);
    assert Next(w, e).users[e.id].email == e.email;
  }

  lemma {:induction false} RemoveDecidesLogin(
      w: World, id: UserId, caller: UserId, password: string, verify: (string, string) -> bool)
    requires Inv(w) && DeleteError(w.users, id, caller).None?
    ensures id in w.users && !CanLogIn(Next(w, Remove(id, caller)).users, w.users[id].email, password, verify)
  {
  }

  /* ---- revocation ---- */

  // The event deletes the user, resets the password, or changes role or active state.
  predicate Revokes(w: World, e: Event, id: UserId) {
    id in w.users && e.id == id &&
    match e
    case Register(_, _, _, _) => false
    case Edit(_, ch, caller) => UpdateError(w.users, id, ch, caller).None? && StatusChanged(w.users[id], ch)
    case Remove(_, caller) => DeleteError(w.users, id, caller).None?
    case Reset(_, _) => true
  }

  predicate RevokedBy(w: World, es: seq<Event>, id: UserId)
    decreases |es|
  {
    es != [] && (Revokes(w, es[0], id) || RevokedBy(Next(w, es[0]), es[1..], id))
  }

  // The token can match no row any more: its user is gone for good or has moved to a later version.
  predicate Dead(w: World, c: Claims) {
    c.user in w.used && (c.user in w.users ==> w.users[c.user].version > c.version)
  }

  lemma {:induction false} DeadStaysDead(w: World, c: Claims, es: seq<Event>)
    requires Inv(w) && Legal(w, es) && Dead(w, c)
    ensures !Accepted(After(w, es).users, c)
    decreases |es|
  {
    if es != [] {
      StepKeepsInv(w, es[0]);
      DeadStaysDead(Next(w, es[0]), c, es[1..]);
    }
  }

  lemma {:induction false} AcceptedStep(w: World, c: Claims, e: Event)
    requires Inv(w) && Enabled(w, e) && Accepted(w.users, c)
    ensures if Revokes(w, e, c.user) then Dead(Next(w, e), c) else Accepted(Next(w, e).users, c)
  {
  }

  // A token accepted now is accepted after any run exactly when no event of the run deleted its user,
  // reset the password, or changed the role or the active state.
  lemma {:induction false} RevocationExact(w: World, c: Claims, es: seq<Event>)
    requires Inv(w) && Legal(w, es) && Accepted(w.users, c)
    ensures Accepted(After(w, es).users, c) <==> !RevokedBy(w, es, c.user)
    decreases |es|
  {
    if es != [] {
      var next := Next(w, es[0]);
      StepKeepsInv(w, es[0]);
      AcceptedStep(w, c, es[0]);
      if Revokes(w, es[0], c.user) {
        DeadStaysDead(next, c, es[1..]);
      } else {
        RevocationExact(next, c, es[1..]);
      }
    }
  }

  lemma {:induction false} RevokedByExtends(w: World, es: seq<Event>, more: seq<Event>, id: UserId)
    requires RevokedBy(w, es, id)
    ensures RevokedBy(w, es + more, id)
    decreases |es|
  {
    assert (es + more)[1..] == es[1..] + more;
    if !Revokes(w, es[0], id) {
      RevokedByExtends(Next(w, es[0]), es[1..], more, id);
    }
  }

  lemma {:induction false} LegalSplits(w: World, es: seq<Event>, more: seq<Event>)
    ensures Legal(w, es + more) <==> Legal(w, es) && Legal(After(w, es), more)
    ensures After(w, es + more) == After(After(w, es), more)
    decreases |es|
  {
    if es == [] {
      assert es + more == more;
    } else {
      assert (es + more)[1..] == es[1..] + more;
      LegalSplits(Next(w, es[0]), es[1..], more);
    }
  }

  // Once an issued token has been rejected, no later state accepts it.
  lemma {:induction false} RejectedForever(w: World, c: Claims, es: seq<Event>, more: seq<Event>)
    requires Inv(w) && Accepted(w.users, c) && Legal(w, es + more)
    requires !Accepted(After(w, es).users, c)
    ensures !Accepted(After(w, es + more).users, c)
  {
    LegalSplits(w, es, more);
    RevocationExact(w, c, es);
    RevokedByExtends(w, es, more, c.user);
    RevocationExact(w, c, es + more);
  }

  /* ---- the last active admin ---- */

  lemma {:induction false} StepKeepsAdmin(w: World, e: Event)
    requires Inv(w) && Enabled(w, e) && ActiveAdmins(w.users) != {}
    ensures ActiveAdmins(Next(w, e).users) != {}
  {
    var admins := ActiveAdmins(w.users);
    var after := Next(w, e).users;
    if e.id in admins && |admins| > 1 {
      var other := OtherMember(admins, e.id);
      assert other in ActiveAdmins(after);
    } else if e.id in admins {
      assert e.id in after && IsActiveAdmin(after[e.id]);
      assert e.id in ActiveAdmins(after);
    } else {
      var i :| i in admins;
      assert i in ActiveAdmins(after);
    }
  }

  lemma {:induction false} RunKeepsAdmin(w: World, es: seq<Event>)
    requires Inv(w) && Legal(w, es) && ActiveAdmins(w.users) != {}
    ensures ActiveAdmins(After(w, es).users) != {}
    ensures var users := After(w, es).users;
      exists i :: i in users && users[i].role == AdminRole && users[i].active
    decreases |es|
  {
    if es != [] {
      StepKeepsInv(w, es[0]);
      StepKeepsAdmin(w, es[0]);
      RunKeepsAdmin(Next(w, es[0]), es[1..]);
    }
    var i :| i in ActiveAdmins(After(w, es).users);
    assert i in After(w, es).users && IsActiveAdmin(After(w, es).users[i]);
  }

  // When the caller is itself an active admin, self-protection alone already keeps one: the last-admin
  // refusal can only reach a caller that is not.
  lemma {:induction false} LastAdminNeedsOutsideCaller(users: Users, id: UserId, ch: Change, caller: UserId)
    requires caller in ActiveAdmins(users)
    ensures UpdateError(users, id, ch, caller) != Some(LastAdmin)
    ensures DeleteError(users, id, caller) != Some(LastAdmin)
  {
    if id in users && IsActiveAdmin(users[id]) && id != caller {
      assert {id, caller} <= ActiveAdmins(users);
      Cardinality({id, caller}, ActiveAdmins(users));
    }
  }

  /* ---- overlapping transactions ---- */

  // A transaction that would leave its user no active admin.
  predicate TakesAdmin(e: Event) {
    (e.Edit? && !(e.change.role == AdminRole && e.change.active)) || e.Remove?
  }

  // The guards of a transaction that has read this count.
  predicate Passes(users: Users, e: Event, activeAdmins: nat) {
    match e
    case Edit(id, ch, caller) => UpdateGuard(users, id, ch, caller, activeAdmins).None?
    case Remove(id, caller) => DeleteGuard(users, id, caller, activeAdmins).None?
    case _ => true
  }

  // The write after the guards. The unique index refuses an email another transaction has taken since.
  predicate Commits(users: Users, e: Event) {
    e.id in users && (e.Edit? ==> !EmailTaken(users, e.change.email, {e.id}))
  }

  function Write(users: Users, e: Event): Users
    requires TakesAdmin(e)
  {
    if !Commits(users, e) then users
    else if e.Edit? then users[e.id := UpdatedUser(users[e.id], e.change)]
    else users - {e.id}
  }

  // Each locks only its own row, so the rows are different; all have counted before any of them writes.
  predicate Overlapping(users: Users, es: seq<Event>) {
    && (forall k :: 0 <= k < |es| ==>
      TakesAdmin(es[k]) && es[k].id in ActiveAdmins(users) && Passes(users, es[k], |ActiveAdmins(users)|))
    && (forall k, l :: 0 <= k < l < |es| ==> es[k].id != es[l].id)
  }

  lemma {:induction false} OneMoreOverlaps(users: Users, es: seq<Event>, e: Event)
    requires Overlapping(users, es) && TakesAdmin(e) && e.id in ActiveAdmins(users)
    requires Passes(users, e, |ActiveAdmins(users)|) && forall k :: 0 <= k < |es| ==> es[k].id != e.id
    ensures Overlapping(users, es + [e])
  {
  }

  function WriteAll(users: Users, es: seq<Event>): Users
    requires forall k :: 0 <= k < |es| ==> TakesAdmin(es[k])
  {
    if es == [] then users
    else Write(WriteAll(users, es[..|es| - 1]), es[|es| - 1])
  }

  // The users whose transaction got past the unique index.
  function Committed(users: Users, es: seq<Event>): set<UserId>
    requires forall k :: 0 <= k < |es| ==> TakesAdmin(es[k])
  {
    if es == [] then {}
    else
      var init, e := es[..|es| - 1], es[|es| - 1];
      Committed(users, init) + if Commits(WriteAll(users, init), e) then {e.id} else {}
  }

  predicate Targets(es: seq<Event>, i: UserId) {
    exists k :: 0 <= k < |es| && es[k].id == i
  }

  lemma {:induction false} WritesTakeAdmins(users: Users, es: seq<Event>)
    requires forall k :: 0 <= k < |es| ==> TakesAdmin(es[k])
    ensures ActiveAdmins(WriteAll(users, es)) == ActiveAdmins(users) - Committed(users, es)
    ensures forall i :: i in Committed(users, es) ==> Targets(es, i)
  {
    if es != [] {
      var init, e := es[..|es| - 1], es[|es| - 1];
      WritesTakeAdmins(users, init);
      assert ActiveAdmins(WriteAll(users, es)) ==
        ActiveAdmins(WriteAll(users, init)) - if Commits(WriteAll(users, init), e) then {e.id} else {};
      forall i | i in Committed(users, es) ensures Targets(es, i) {
        if i in Committed(users, init) {
          var k :| 0 <= k < |init| && init[k].id == i;
          assert es[k].id == i;
        } else {
          assert es[|es| - 1].id == i;
        }
      }
    }
  }

  // Overlapping removals leave an active admin exactly when more were counted than are removed.
  lemma {:induction false} OverlapKeepsAdminIff(users: Users, es: seq<Event>)
    requires Overlapping(users, es)
    ensures ActiveAdmins(WriteAll(users, es)) != {} <==> |ActiveAdmins(users)| > |Committed(users, es)|
  {
    var admins, gone := ActiveAdmins(users), Committed(users, es);
    WritesTakeAdmins(users, es);
    assert gone <= admins;
    assert |admins| == |admins - gone| + |gone| by {
      assert admins == (admins - gone) + gone;
    }
    assert admins - gone == {} <==> |admins - gone| == 0;
  }

  predicate KeepsEmails(users: Users, es: seq<Event>) {
    forall k :: 0 <= k < |es| && es[k].Edit? && es[k].id in users ==> es[k].change.email == users[es[k].id].email
  }

  predicate SameEmails(users: Users, next: Users) {
    forall i :: i in next ==> i in users && next[i].email == users[i].email
  }

  lemma {:induction false} EmailsKept(users: Users, es: seq<Event>)
    requires (forall k :: 0 <= k < |es| ==> TakesAdmin(es[k])) && KeepsEmails(users, es)
    ensures SameEmails(users, WriteAll(users, es))
    ensures forall i :: i in users && !Targets(es, i) ==> i in WriteAll(users, es)
  {
    if es != [] {
      var init := es[..|es| - 1];
      EmailsKept(users, init);
      forall i | i in users && !Targets(es, i) ensures i in WriteAll(users, es) {
        assert es[|es| - 1].id != i;
        assert forall k :: 0 <= k < |init| ==> init[k] == es[k];
        assert !Targets(init, i);
      }
    }
  }

  lemma {:induction false} LastCommits(users: Users, es: seq<Event>)
    requires es != [] && UniqueEmails(users) && Overlapping(users, es) && KeepsEmails(users, es)
    ensures var init, id := es[..|es| - 1], es[|es| - 1].id;
      Committed(users, es) == Committed(users, init) + {id} && id !in Committed(users, init)
  {
    var init, e := es[..|es| - 1], es[|es| - 1];
    EmailsKept(users, init);
    WritesTakeAdmins(users, init);
    assert !Targets(init, e.id);
    assert Commits(WriteAll(users, init), e);
  }

  lemma {:induction false} AllCommit(users: Users, es: seq<Event>)
    requires UniqueEmails(users) && Overlapping(users, es) && KeepsEmails(users, es)
    ensures |Committed(users, es)| == |es|
  {
    if es != [] {
      AllCommit(users, es[..|es| - 1]);
      LastCommits(users, es);
    }
  }

  // When no update changes an email, that is: more were counted than transactions overlap.
  lemma {:induction false} OverlapBound(users: Users, es: seq<Event>)
    requires UniqueEmails(users) && Overlapping(users, es) && KeepsEmails(users, es)
    ensures ActiveAdmins(WriteAll(users, es)) != {} <==> |ActiveAdmins(users)| > |es|
  {
    OverlapKeepsAdminIff(users, es);
    AllCommit(users, es);
  }

  // Whatever the number of active admins, from two on, that many overlapping removals pass every guard.
  lemma {:induction false} GuardIsSerialOnly(users: Users, ids: set<UserId>, deleting: bool) returns (es: seq<Event>)
    requires UniqueEmails(users) && |ActiveAdmins(users)| > 1 && ids <= ActiveAdmins(users)
    ensures |es| == |ids| && Overlapping(users, es) && KeepsEmails(users, es)
    ensures forall k :: 0 <= k < |es| ==> es[k].id in ids && es[k].caller in ActiveAdmins(users)
    ensures ids == ActiveAdmins(users) ==> ActiveAdmins(WriteAll(users, es)) == {}
    decreases ids
  {
    if ids == {} {
      es := [];
    } else {
      var id :| id in ids;
      var rest := GuardIsSerialOnly(users, ids - {id}, deleting);
      var caller := OtherMember(ActiveAdmins(users), id);
      var demoted := Change(users[id].email, ExpertRole, true);
      var e := if deleting then Remove(id, caller) else Edit(id, demoted, caller);
      OneMoreOverlaps(users, rest, e);
      es := rest + [e];
    }
    OverlapBound(users, es);
  }
}
