/**
 Administrative authority and credential generations. Setup, administrative changes, deletions, seed and recovery hold
 one transaction-level advisory lock until their commit, so they are committed one after the other. A password reset
 holds only its row's lock, from reading the generation to writing it, and touches no role and no deletion mark. The
 creation of an account on first login takes no lock: it inserts a row without authority, and the unique email decides
 when two requests race. Both are therefore single steps of a run as well. What a request saw before it got its lock
 is carried along as possibly stale evidence.
 */
module Authority {
  import opened Text
  import opened Accounts

  type Id = nat
  type Users = map<Id, User>

  /** The committed rows, the one-way installation marker, and every id ever assigned. */
  datatype Db = Db(users: Users, bootstrapped: bool, used: set<Id>)

  datatype Error = BadRequest | Denied | NotFound | LastAdmin | Conflict

  datatype Result = Ok(db: Db) | Err(error: Error)

  // ---- Rows ----

  predicate Live(users: Users, id: Id)
  {
    id in users && !users[id].deleted
  }

  predicate LiveAdmin(users: Users, id: Id)
  {
    Live(users, id) && AdminRole(users[id].role)
  }

  predicate OtherAdmin(users: Users, id: Id)
  {
    exists other :: other in users && other != id && LiveAdmin(users, other)
  }

  /** Deleting or demoting `id` does not take the last live administrator away. */
  predicate RemovalSafe(users: Users, id: Id)
  {
    LiveAdmin(users, id) ==> OtherAdmin(users, id)
  }

  ghost function FindByEmail(users: Users, email: string): (r: Option<Id>)
    ensures r.Some? ==> r.value in users && users[r.value].email == email
    ensures r.None? ==> forall id :: id in users ==> users[id].email != email
  {
    if exists id :: id in users && users[id].email == email then
      var id :| id in users && users[id].email == email; Some(id)
    else None
  }

  ghost function FindLive(users: Users, email: string): Option<Id>
  {
    var r := FindByEmail(users, email);
    if r.Some? && users[r.value].deleted then None else r
  }

  function WithRole(u: User, role: Role): User
  {
    if u.role == role then u else u.(role := role, generation := u.generation + 1)
  }

  function Updated(db: Db, id: Id, u: User): Db
  {
    db.(users := db.users[id := u])
  }

  /** INSERT of a new row: emails are unique among all rows, deleted ones included. */
  ghost function Inserted(db: Db, id: Id, u: User): Result
  {
    if id in db.used || FindByEmail(db.users, u.email).Some? then Err(Conflict)
    else Ok(db.(users := db.users[id := u], used := db.used + {id}))
  }

  function HardDeleted(db: Db, id: Id): Result
  {
    if RemovalSafe(db.users, id) then Ok(db.(users := db.users - {id})) else Err(LastAdmin)
  }

  /** The actor is still a live administrator with the generation it was admitted with. */
  predicate ActorValid(db: Db, actor: Id, admitted: int)
  {
    LiveAdmin(db.users, actor) && db.users[actor].generation == admitted
  }

  // ---- Bulk actions ----

  datatype BulkAction = BulkApprove | BulkReject | BulkSetRole(role: Option<Role>) | BulkDelete

  /** What the action makes of one row: `None` removes it. */
  function BulkRow(action: BulkAction, u: User): Option<User>
  {
    match action
    case BulkApprove => Some(u.(role := Student, generation := u.generation + 1))
    case BulkSetRole(role) => if role.Some? then Some(WithRole(u, role.value)) else Some(u)
    case _ => None
  }

  predicate BulkApplies(users: Users, actor: Id, action: BulkAction, id: Id)
  {
    && id != actor && Live(users, id)
    && (action.BulkApprove? || action.BulkReject? ==> users[id].role == Pending)
  }

  predicate BulkAccepted(action: BulkAction)
  {
    action.BulkSetRole? ==> action.role.Some? && action.role.value != Pending
  }

  /** All rows after the action: exactly the listed rows it applies to change. */
  function BulkUsers(users: Users, actor: Id, action: BulkAction, ids: set<Id>): Users
  {
    map id | id in users && !(id in ids && BulkApplies(users, actor, action, id) && BulkRow(action, users[id]).None?)
      :: if id in ids && BulkApplies(users, actor, action, id) then BulkRow(action, users[id]).value else users[id]
  }

  function SetOf(ids: seq<Id>): (r: set<Id>)
    ensures forall id :: id in r <==> id in ids
  {
    set id | id in ids
  }

  // ---- Transactions ----

  datatype Event =
    | Setup(tokenOk: bool, email: string, password: string, id: Id)
    | UpdateRole(actor: Id, admitted: int, target: Id, role: Role)
    | Approve(actor: Id, admitted: int, target: Id)
    | Reject(actor: Id, admitted: int, target: Id)
    | Delete(actor: Id, admitted: int, target: Id)
    | Bulk(actor: Id, admitted: int, action: BulkAction, ids: seq<Id>)
    | DeleteSelf(id: Id)
    | Purge(id: Id)
    | Seed(email: string, role: Role, id: Id)
    | Recover(email: string, password: string, id: Id)
    | ResetPassword(email: string, generation: int, password: string)
    | GetOrCreate(email: string, autoApprove: bool, id: Id)

  ghost function Apply(db: Db, e: Event): Result
  {
    match e
    case Setup(tokenOk, email, password, id) =>
      if db.bootstrapped then Err(Conflict)
      else if !tokenOk then Err(Denied)
      else
        var r := Inserted(db, id, User(email, Bureau, 0, Some(password), false));
        if r.Ok? then Ok(r.db.(bootstrapped := true)) else r
    case UpdateRole(actor, admitted, target, role) =>
      if role == Pending then Err(BadRequest)
      else if !ActorValid(db, actor, admitted) then Err(Denied)
      else if !Live(db.users, target) then Err(NotFound)
      else if AdminRole(db.users[target].role) && !AdminRole(role) && !RemovalSafe(db.users, target) then Err(LastAdmin)
      else Ok(Updated(db, target, WithRole(db.users[target], role)))
    case Approve(actor, admitted, target) =>
      if !ActorValid(db, actor, admitted) then Err(Denied)
      else if !Live(db.users, target) then Err(NotFound)
      else if db.users[target].role != Pending then Err(BadRequest)
      else Ok(Updated(db, target, WithRole(db.users[target], Student)))
    case Reject(actor, admitted, target) =>
      if !ActorValid(db, actor, admitted) then Err(Denied)
      else if !Live(db.users, target) then Err(NotFound)
      else if db.users[target].role != Pending then Err(BadRequest)
      else HardDeleted(db, target)
    case Delete(actor, admitted, target) =>
      if !ActorValid(db, actor, admitted) then Err(Denied)
      else if !Live(db.users, target) then Err(NotFound)
      else HardDeleted(db, target)
    case Bulk(actor, admitted, action, ids) =>
      if !BulkAccepted(action) then Err(BadRequest)
      else if (exists id :: id in ids && id != actor) && !ActorValid(db, actor, admitted) then Err(Denied)
      else Ok(db.(users := BulkUsers(db.users, actor, action, SetOf(ids))))
    case DeleteSelf(id) => if Live(db.users, id) then HardDeleted(db, id) else Err(NotFound)
    case Purge(id) => if id in db.users && db.users[id].deleted then HardDeleted(db, id) else Err(NotFound)
    case Seed(email, role, id) =>
      var found := FindLive(db.users, email);
      var r :=
        if found.None? then Inserted(db, id, User(email, role, 0, None, false))
        else if AdminRole(db.users[found.value].role) && !AdminRole(role) && !RemovalSafe(db.users, found.value) then
          Err(LastAdmin)
        else Ok(Updated(db, found.value, db.users[found.value].(role := role)));
      if r.Ok? && AdminRole(role) then Ok(r.db.(bootstrapped := true)) else r
    case Recover(email, password, id) =>
      var found := FindByEmail(db.users, email);
      var r :=
        if found.None? then Inserted(db, id, User(email, Bureau, 0, Some(password), false))
        else
          var u := db.users[found.value];
          Ok(Updated(db, found.value, User(email, Bureau, u.generation + 1, Some(password), false)));
      if r.Ok? then Ok(r.db.(bootstrapped := true)) else r
    case ResetPassword(email, generation, password) =>
      var found := FindLive(db.users, email);
      if found.None? || db.users[found.value].generation != generation then Err(NotFound)
      else
        var u := db.users[found.value];
        Ok(Updated(db, found.value, u.(password := Some(password), generation := u.generation + 1)))
    case GetOrCreate(email, autoApprove, id) =>
      if FindLive(db.users, email).Some? then Ok(db)
      else Inserted(db, id, User(email, if autoApprove then Student else Pending, 0, None, false))
  }

  /** The committed state after a transaction; a refused one rolls back. */
  ghost function Next(db: Db, e: Event): Db
  {
    var r := Apply(db, e);
    if r.Ok? then r.db else db
  }

  ghost function Run(db: Db, events: seq<Event>): Db
    decreases |events|
  {
    if events == [] then db else Run(Next(db, events[0]), events[1..])
  }

  // ---- There is always an administrator ----

  predicate HasAdmin(db: Db)
  {
    exists id :: id in db.users && LiveAdmin(db.users, id)
  }

  ghost predicate Inv(db: Db)
  {
    && (db.bootstrapped ==> HasAdmin(db))
    && db.users.Keys <= db.used
    && (forall a, b :: a in db.users && b in db.users && a != b ==> db.users[a].email != db.users[b].email)
  }

  /** A row that stays, or becomes, a live administrator. */
  lemma StillHasAdmin(before: Db, after: Db, id: Id)
    requires HasAdmin(before)
    requires forall k :: k != id && k in before.users ==> k in after.users && after.users[k] == before.users[k]
    requires LiveAdmin(after.users, id) || !LiveAdmin(before.users, id) || OtherAdmin(before.users, id)
    ensures HasAdmin(after)
  {
  }

  lemma BulkKeepsInv(db: Db, actor: Id, action: BulkAction, ids: set<Id>)
    requires Inv(db) && (ids <= {actor} || LiveAdmin(db.users, actor))
    ensures Inv(db.(users := BulkUsers(db.users, actor, action, ids)))
  {
    var users := BulkUsers(db.users, actor, action, ids);
    if db.bootstrapped {
      if ids <= {actor} {
        var admin :| admin in db.users && LiveAdmin(db.users, admin);
        assert LiveAdmin(users, admin);
      } else {
        assert LiveAdmin(users, actor);
      }
    }
    assert forall k :: k in users ==> users[k].email == db.users[k].email;
  }

  lemma TargetedKeepsInv(db: Db, e: Event)
    requires Inv(db) && (e.UpdateRole? || e.Approve? || e.Reject? || e.Delete?)
    ensures Inv(Next(db, e)) && (db.bootstrapped ==> Next(db, e).bootstrapped)
  {
    ChangeKeepsInv(db, Next(db, e), e.target);
  }

  lemma RemovalKeepsInv(db: Db, e: Event)
    requires Inv(db) && (e.DeleteSelf? || e.Purge?)
    ensures Inv(Next(db, e)) && (db.bootstrapped ==> Next(db, e).bootstrapped)
  {
    ChangeKeepsInv(db, Next(db, e), e.id);
  }

  lemma SeedKeepsInv(db: Db, e: Event)
    requires Inv(db) && e.Seed?
    ensures Inv(Next(db, e)) && (db.bootstrapped ==> Next(db, e).bootstrapped)
  {
    var found := FindLive(db.users, e.email);
    if found.None? { InsertKeepsInv(db, Next(db, e), e.id); } else { ChangeKeepsInv(db, Next(db, e), found.value); }
  }

  lemma RecoverKeepsInv(db: Db, e: Event)
    requires Inv(db) && e.Recover?
    ensures Inv(Next(db, e)) && (db.bootstrapped ==> Next(db, e).bootstrapped)
  {
    var found := FindByEmail(db.users, e.email);
    if found.None? { InsertKeepsInv(db, Next(db, e), e.id); } else { ChangeKeepsInv(db, Next(db, e), found.value); }
  }

  lemma OtherKeepsInv(db: Db, e: Event)
    requires Inv(db) && (e.Setup? || e.GetOrCreate? || e.ResetPassword?)
    ensures Inv(Next(db, e)) && (db.bootstrapped ==> Next(db, e).bootstrapped)
  {
    if e.ResetPassword? {
      var found := FindLive(db.users, e.email);
      if found.Some? { ChangeKeepsInv(db, Next(db, e), found.value); }
    } else {
      InsertKeepsInv(db, Next(db, e), e.id);
    }
  }

  lemma NextKeepsInv(db: Db, e: Event)
    requires Inv(db)
    ensures Inv(Next(db, e)) && (db.bootstrapped ==> Next(db, e).bootstrapped)
  {
    hide Inv;
    match e
    case Bulk(actor, admitted, action, ids) =>
      if Apply(db, e).Ok? { BulkKeepsInv(db, actor, action, SetOf(ids)); }
    case Seed(_, _, _) => SeedKeepsInv(db, e);
    case Recover(_, _, _) => RecoverKeepsInv(db, e);
    case DeleteSelf(_) => RemovalKeepsInv(db, e);
    case Purge(_) => RemovalKeepsInv(db, e);
    case Setup(_, _, _, _) => OtherKeepsInv(db, e);
    case GetOrCreate(_, _, _) => OtherKeepsInv(db, e);
    case ResetPassword(_, _, _) => OtherKeepsInv(db, e);
    case _ => TargetedKeepsInv(db, e);
  }

  lemma InsertKeepsInv(db: Db, db': Db, id: Id)
    requires Inv(db)
    requires db' == db || (id !in db.used && db'.used == db.used + {id})
    requires db' == db || (id in db'.users && db'.users == db.users[id := db'.users[id]])
    requires db' == db || forall k :: k in db.users ==> db.users[k].email != db'.users[id].email
    requires db'.bootstrapped ==> db.bootstrapped || (id in db'.users && LiveAdmin(db'.users, id))
    ensures Inv(db')
  {
    if db'.bootstrapped && db.bootstrapped && db' != db {
      StillHasAdmin(db, db', id);
    }
  }

  lemma ChangeKeepsInv(db: Db, db': Db, id: Id)
    requires Inv(db) && db'.used == db.used && db'.users - {id} == db.users - {id}
    requires id in db'.users ==> id in db.users && db'.users[id].email == db.users[id].email
    requires (id in db'.users && LiveAdmin(db'.users, id)) || RemovalSafe(db.users, id)
    requires db'.bootstrapped ==> db.bootstrapped || (id in db'.users && LiveAdmin(db'.users, id))
    ensures Inv(db')
  {
    forall k | k != id
      ensures (k in db'.users <==> k in db.users) && (k in db.users ==> db'.users[k] == db.users[k])
    {
      assert k in db'.users <==> k in db'.users - {id};
      assert k in db.users <==> k in db.users - {id};
      if k in db.users { assert (db'.users - {id})[k] == (db.users - {id})[k]; }
    }
    if db'.bootstrapped && db.bootstrapped {
      StillHasAdmin(db, db', id);
    }
  }

  /**
   Over every run from a sound state, an empty installation among them: once bootstrapped, a live administrator
   exists.
   */
  lemma {:induction false} AdminAlwaysExists(db: Db, events: seq<Event>)
    requires Inv(db)
    ensures Inv(Run(db, events)) && (db.bootstrapped ==> Run(db, events).bootstrapped)
    ensures Run(db, events).bootstrapped ==> HasAdmin(Run(db, events))
    decreases |events|
  {
    if events != [] {
      NextKeepsInv(db, events[0]);
      AdminAlwaysExists(Next(db, events[0]), events[1..]);
    }
  }

  /** An administrative HTTP mutation commits only while its actor is still a live admin of the admitted generation. */
  lemma OnlyCurrentAdminsCommit(db: Db, e: Event)
    requires e.UpdateRole? || e.Approve? || e.Reject? || e.Delete? || e.Bulk?
    requires Next(db, e) != db
    ensures ActorValid(db, e.actor, e.admitted)
  {
    if e.Bulk? && forall id :: id in e.ids ==> id == e.actor {
      BulkOnSelf(db.users, e.actor, e.action, SetOf(e.ids));
    }
  }

  // ---- What a committed transaction has achieved ----

  /** The live account with this email. */
  ghost predicate Holds(db: Db, email: string, role: Role, password: Option<string>)
  {
    exists id :: id in db.users && !db.users[id].deleted && db.users[id].email == email
      && db.users[id].role == role && db.users[id].password == password
  }

  /** The result a caller asked for. */
  ghost predicate Achieved(before: Db, e: Event, after: Db)
  {
    match e
    case Setup(_, email, password, _) => after.bootstrapped && Holds(after, email, Bureau, Some(password))
    case Recover(email, password, _) => after.bootstrapped && Holds(after, email, Bureau, Some(password))
    case UpdateRole(_, _, target, role) => Live(after.users, target) && after.users[target].role == role
    case Approve(_, _, target) => Live(after.users, target) && after.users[target].role == Student
    case Reject(_, _, target) => target !in after.users
    case Delete(_, _, target) => target !in after.users
    case DeleteSelf(id) => id !in after.users
    case Purge(id) => id !in after.users
    case Seed(email, role, _) => (exists p :: Holds(after, email, role, p)) && (AdminRole(role) ==> after.bootstrapped)
    case ResetPassword(email, _, password) => exists role :: Holds(after, email, role, Some(password))
    case GetOrCreate(email, autoApprove, _) =>
      if FindLive(before.users, email).Some? then after == before
      else Holds(after, email, if autoApprove then Student else Pending, None)
    case Bulk(_, _, _, _) => true
  }

  lemma CommittedIsAchieved(db: Db, e: Event)
    requires Inv(db) && Apply(db, e).Ok?
    ensures Achieved(db, e, Next(db, e))
  {
    hide Inv;
    match e
    case Setup(_, email, password, id) => HeldBy(Next(db, e), id);
    case Recover(email, password, id) =>
      HeldBy(Next(db, e), if FindByEmail(db.users, email).Some? then FindByEmail(db.users, email).value else id);
    case Seed(email, role, id) =>
      HeldBy(Next(db, e), if FindLive(db.users, email).Some? then FindLive(db.users, email).value else id);
    case ResetPassword(email, _, _) => HeldBy(Next(db, e), FindLive(db.users, email).value);
    case GetOrCreate(email, _, id) => if FindLive(db.users, email).None? { HeldBy(Next(db, e), id); }
    case _ =>
  }

  lemma HeldBy(db: Db, id: Id)
    ensures Live(db.users, id) ==> Holds(db, db.users[id].email, db.users[id].role, db.users[id].password)
  {
  }

  /** The rows a transaction is about, by id or by email. */
  predicate Concerns(db: Db, e: Event, id: Id)
  {
    match e
    case UpdateRole(_, _, target, _) => id == target
    case Approve(_, _, target) => id == target
    case Reject(_, _, target) => id == target
    case Delete(_, _, target) => id == target
    case DeleteSelf(own) => id == own
    case Purge(gone) => id == gone
    case Bulk(actor, _, _, ids) => id in ids && id != actor
    case Setup(_, _, _, _) => false
    case Recover(email, _, _) => id in db.users && db.users[id].email == email
    case Seed(email, _, _) => id in db.users && db.users[id].email == email
    case ResetPassword(email, _, _) => id in db.users && db.users[id].email == email
    case GetOrCreate(_, _, _) => false
  }

  /** Every other row stays as it is. */
  lemma OthersAreUntouched(db: Db, e: Event, id: Id)
    requires Inv(db) && id in db.users && !Concerns(db, e, id)
    ensures id in Next(db, e).users && Next(db, e).users[id] == db.users[id]
  {
  }

  /** A row keeps its email, and its password unless that is what the transaction sets. */
  lemma OnlyResetsTouchPasswords(db: Db, e: Event, id: Id)
    requires Inv(db) && id in db.users && id in Next(db, e).users
    ensures Next(db, e).users[id].email == db.users[id].email
    ensures !e.Recover? && !e.ResetPassword? ==> Next(db, e).users[id].password == db.users[id].password
    ensures e.ResetPassword? ==> Next(db, e).users[id].role == db.users[id].role
  {
  }

  /** The final-administrator conflict: the one reason why a current administrator's well-formed request is refused. */
  lemma RefusedOnlyForTheLastAdmin(db: Db, e: Event)
    requires Inv(db) && db.bootstrapped && (e.UpdateRole? || e.Delete?)
    requires ActorValid(db, e.actor, e.admitted) && Live(db.users, e.target) && (e.UpdateRole? ==> e.role != Pending)
    ensures Apply(db, e).Ok? <==>
      !(e.target == e.actor && (e.UpdateRole? ==> !AdminRole(e.role)) && !OtherAdmin(db.users, e.actor))
    ensures !Apply(db, e).Ok? ==> Apply(db, e) == Err(LastAdmin)
  {
    if e.target != e.actor { assert OtherAdmin(db.users, e.target); }
  }

  /** A pending account can always be approved or rejected by a current administrator. */
  lemma PendingCanBeDecided(db: Db, actor: Id, admitted: int, target: Id)
    requires ActorValid(db, actor, admitted) && Live(db.users, target)
    ensures Apply(db, Approve(actor, admitted, target)).Ok? <==> db.users[target].role == Pending
    ensures Apply(db, Reject(actor, admitted, target)).Ok? <==> db.users[target].role == Pending
  {
  }

  /** An account can delete itself unless it is the last administrator; only deleted rows are purged. */
  lemma RemovalsGoThrough(db: Db, id: Id)
    ensures Apply(db, DeleteSelf(id)).Ok? <==>
      Live(db.users, id) && (LiveAdmin(db.users, id) ==> OtherAdmin(db.users, id))
    ensures Apply(db, Purge(id)).Ok? <==> id in db.users && db.users[id].deleted
  {
  }

  /** A login finds the live account, or creates one unless a deleted row still has the email. */
  lemma LoginFindsOrCreates(db: Db, email: string, autoApprove: bool, id: Id)
    requires id !in db.used
    ensures Apply(db, GetOrCreate(email, autoApprove, id)).Ok? <==>
      forall k :: k in db.users && db.users[k].email == email ==> FindLive(db.users, email).Some?
  {
  }

  /** Once out of the pending state an account returns to it only through the offline seed. */
  lemma NobodyBecomesPending(db: Db, e: Event, id: Id)
    requires Inv(db) && !e.Seed? && id in db.users && id in Next(db, e).users && db.users[id].role != Pending
    ensures Next(db, e).users[id].role != Pending
  {
  }

  /** A reset link of the current generation works, and so does the offline recovery, whatever the account's state. */
  lemma RecoveryCannotBeRefused(db: Db, email: string, password: string, id: Id)
    requires Inv(db) && id !in db.used
    ensures Apply(db, Recover(email, password, id)).Ok?
    ensures forall k :: k in db.users && !db.users[k].deleted && db.users[k].email == email ==>
      Apply(db, ResetPassword(email, db.users[k].generation, password)).Ok?
  {
  }

  /** The request for one account that a bulk action stands for. */
  function Single(actor: Id, admitted: int, action: BulkAction, id: Id): Event
    requires BulkAccepted(action)
  {
    match action
    case BulkApprove => Approve(actor, admitted, id)
    case BulkReject => Reject(actor, admitted, id)
    case BulkDelete => Delete(actor, admitted, id)
    case BulkSetRole(role) => UpdateRole(actor, admitted, id, role.value)
  }

  /** A bulk action on one other account is the single request. */
  lemma BulkOfOneIsSingle(db: Db, actor: Id, admitted: int, action: BulkAction, id: Id)
    requires BulkAccepted(action) && id != actor && ActorValid(db, actor, admitted)
    ensures Next(db, Bulk(actor, admitted, action, [id])) == Next(db, Single(actor, admitted, action, id))
  {
    var e := Single(actor, admitted, action, id);
    assert SetOf([id]) == {id} && OtherAdmin(db.users, id);
    BulkOneMore(db.users, actor, action, {}, id);
    BulkNothing(db.users, actor, action);
    assert {} + {id} == {id};
  }

  // ---- Credential generations ----

  lemma GenerationNeverFalls(db: Db, e: Event, id: Id)
    requires Inv(db) && id in db.users && id in Next(db, e).users
    ensures db.users[id].generation <= Next(db, e).users[id].generation
  {
  }

  /** A change of role starts a new generation in every operation but the offline seed command. */
  lemma RoleChangeStartsGeneration(db: Db, e: Event, id: Id)
    requires Inv(db) && id in db.users && id in Next(db, e).users
    requires Next(db, e).users[id].role != db.users[id].role
    ensures Next(db, e).users[id].generation == db.users[id].generation + if e.Seed? then 0 else 1
  {
  }

  /** A recovery or a password reset that goes through starts a new generation of the account. */
  lemma RecoveryStartsGeneration(db: Db, e: Event, id: Id)
    requires Inv(db) && (e.Recover? || e.ResetPassword?) && Apply(db, e).Ok?
    requires id in db.users && db.users[id].email == e.email
    ensures id in Next(db, e).users && Next(db, e).users[id].generation == db.users[id].generation + 1
  {
  }

  /** A removed account never comes back under its id. */
  lemma {:induction false} RemovedForGood(db: Db, events: seq<Event>, id: Id)
    requires Inv(db) && id in db.used && id !in db.users
    ensures id !in Run(db, events).users
    decreases |events|
  {
    if events != [] {
      NextKeepsInv(db, events[0]);
      IdsAreNotReused(db, events[0], id);
      hide Inv, Next;
      RemovedForGood(Next(db, events[0]), events[1..], id);
    }
  }

  lemma IdsAreNotReused(db: Db, e: Event, id: Id)
    requires Inv(db) && id in db.used && id !in db.users
    ensures id in Next(db, e).used && id !in Next(db, e).users
  {
  }

  lemma IdsStayUsed(db: Db, e: Event, id: Id)
    requires id in db.used
    ensures id in Next(db, e).used
  {
  }

  /** A deleted row becomes live again only with a new generation. */
  lemma RevivalStartsGeneration(db: Db, e: Event, id: Id)
    requires Inv(db) && id in db.users && id in Next(db, e).users
    requires db.users[id].deleted && !Next(db, e).users[id].deleted
    ensures Next(db, e).users[id].generation > db.users[id].generation
  {
  }

  lemma {:induction false} GenerationIsMonotone(db: Db, events: seq<Event>, id: Id)
    requires Inv(db) && id in db.users && id in Run(db, events).users
    ensures db.users[id].generation <= Run(db, events).users[id].generation
    decreases |events|
  {
    if events != [] {
      var db' := Next(db, events[0]);
      NextKeepsInv(db, events[0]);
      if id !in db'.users {
        assert id in db'.used;
        RemovedForGood(db', events[1..], id);
      }
      GenerationNeverFalls(db, events[0], id);
      GenerationIsMonotone(db', events[1..], id);
    }
  }

  /**
   After a step that starts a new generation, nothing bound to an earlier generation of the surviving
   account is accepted again: no token, and no challenge or reset link, which report their bound
   generation or 0.
   */
  lemma OldCredentialsNeverAccepted(db: Db, e: Event, events: seq<Event>, id: Id, bound: nat, reported: int)
    requires Inv(db) && id in db.users && bound <= db.users[id].generation
    requires id in Next(db, e).users && Next(db, e).users[id].generation > db.users[id].generation
    requires id in Run(Next(db, e), events).users
    requires reported == bound || reported == 0
    ensures var user := Run(Next(db, e), events).users[id];
      && !MatchesGeneration(Number(bound), user) && !MatchesGeneration(Absent, user)
      && user.generation != reported
  {
    NextKeepsInv(db, e);
    GenerationIsMonotone(Next(db, e), events, id);
  }

  // ---- The services ----

  class UserTable {
    var users: Users
    var bootstrapped: bool
    var used: set<Id>

    constructor (db: Db)
      ensures State() == db
    {
      users, bootstrapped, used := db.users, db.bootstrapped, db.used;
    }

    function State(): Db
      reads this
    {
      Db(users, bootstrapped, used)
    }

    /** Revalidates the actor under the lock, then loads the live target. */
    method LockAdminAuthority(actor: Id, target: Id, admitted: int) returns (ok: bool, row: Option<User>)
      ensures ok <==> ActorValid(State(), actor, admitted)
      ensures row == if Live(users, target) then Some(users[target]) else None
    {
      ok := Live(users, actor) && AdminRole(users[actor].role) && users[actor].generation == admitted;
      row := if Live(users, target) then Some(users[target]) else None;
    }

    /** Counts the other live administrators when the row is one itself. */
    method EnsureRemovalSafe(id: Id) returns (ok: bool)
      ensures ok <==> RemovalSafe(users, id)
    {
      if id !in users || !AdminRole(users[id].role) || users[id].deleted { return true; }
      var remaining := set other | other in users && LiveAdmin(users, other) && other != id;
      ok := remaining != {};
      assert ok ==> exists other :: other in remaining && LiveAdmin(users, other) && other != id;
      assert !ok ==> forall other :: other in users && other != id && LiveAdmin(users, other) ==> other in remaining;
    }

    method HardDelete(id: Id) returns (error: Option<Error>)
      modifies this`users
      ensures HardDeleted(old(State()), id) == if error.None? then Ok(State()) else Err(error.value)
      ensures error.Some? ==> users == old(users)
    {
      var safe := EnsureRemovalSafe(id);
      if !safe { return Some(LastAdmin); }
      users := users - {id};
      error := None;
    }

    method AdminUpdateRole(actor: Id, admitted: int, target: Id, role: Role) returns (error: Option<Error>)
      modifies this`users
      ensures Apply(old(State()), UpdateRole(actor, admitted, target, role)) ==
        if error.None? then Ok(State()) else Err(error.value)
      ensures error.Some? ==> State() == old(State())
    {
      if role == Pending { return Some(BadRequest); }
      var ok, row := LockAdminAuthority(actor, target, admitted);
      if !ok { return Some(Denied); }
      if row.None? { return Some(NotFound); }
      if AdminRole(row.value.role) && !AdminRole(role) {
        var safe := EnsureRemovalSafe(target);
        if !safe { return Some(LastAdmin); }
      }
      if row.value.role != role {
        users := users[target := row.value.(role := role, generation := row.value.generation + 1)];
      } else {
        assert users == users[target := row.value];
      }
      error := None;
    }

    method AdminApprove(actor: Id, admitted: int, target: Id) returns (error: Option<Error>)
      modifies this`users
      ensures Apply(old(State()), Approve(actor, admitted, target)) ==
        if error.None? then Ok(State()) else Err(error.value)
      ensures error.Some? ==> State() == old(State())
    {
      var ok, row := LockAdminAuthority(actor, target, admitted);
      if !ok { return Some(Denied); }
      if row.None? { return Some(NotFound); }
      if row.value.role != Pending { return Some(BadRequest); }
      users := users[target := row.value.(role := Student, generation := row.value.generation + 1)];
      error := None;
    }

    method AdminReject(actor: Id, admitted: int, target: Id) returns (error: Option<Error>)
      modifies this`users
      ensures Apply(old(State()), Reject(actor, admitted, target)) ==
        if error.None? then Ok(State()) else Err(error.value)
      ensures error.Some? ==> State() == old(State())
    {
      var ok, row := LockAdminAuthority(actor, target, admitted);
      if !ok { return Some(Denied); }
      if row.None? { return Some(NotFound); }
      if row.value.role != Pending { return Some(BadRequest); }
      error := HardDelete(target);
    }

    method AdminDelete(actor: Id, admitted: int, target: Id) returns (error: Option<Error>)
      modifies this`users
      ensures Apply(old(State()), Delete(actor, admitted, target)) ==
        if error.None? then Ok(State()) else Err(error.value)
      ensures error.Some? ==> State() == old(State())
    {
      var ok, row := LockAdminAuthority(actor, target, admitted);
      if !ok { return Some(Denied); }
      if row.None? { return Some(NotFound); }
      error := HardDelete(target);
    }

    /** The row with this email; soft-deleted rows are found only when asked for. */
    method FindRow(email: string, includeDeleted: bool) returns (id: Option<Id>)
      requires Inv(State())
      ensures id == if includeDeleted then FindByEmail(users, email) else FindLive(users, email)
    {
      var found := set k | k in users && users[k].email == email && (includeDeleted || !users[k].deleted);
      if found == {} {
        assert forall k :: k in users && users[k].email == email ==> k !in found;
        return None;
      }
      var k :| k in found;
      id := Some(k);
    }

    /** `setup_first_admin`: works once, before the marker is set. */
    method SetupFirstAdmin(tokenOk: bool, email: string, password: string, newId: Id) returns (error: Option<Error>)
      requires Inv(State())
      modifies this
      ensures Apply(old(State()), Setup(tokenOk, email, password, newId)) ==
        if error.None? then Ok(State()) else Err(error.value)
      ensures error.Some? ==> State() == old(State())
    {
      if bootstrapped { return Some(Conflict); }
      if !tokenOk { return Some(Denied); }
      var taken := FindRow(email, true);
      if newId in used || taken.Some? { return Some(Conflict); }
      users := users[newId := User(email, Bureau, 0, Some(password), false)];
      used := used + {newId};
      bootstrapped := true;
      error := None;
    }

    method RecoverAdmin(email: string, password: string, newId: Id) returns (error: Option<Error>)
      requires Inv(State())
      modifies this
      ensures Apply(old(State()), Recover(email, password, newId)) ==
        if error.None? then Ok(State()) else Err(error.value)
      ensures error.Some? ==> State() == old(State())
    {
      var found := FindRow(email, true);
      if found.None? {
        if newId in used { return Some(Conflict); }
        users := users[newId := User(email, Bureau, 0, Some(password), false)];
        used := used + {newId};
      } else {
        var row := users[found.value];
        row := row.(generation := row.generation + 1);
        row := row.(deleted := false, role := Bureau, password := Some(password));
        users := users[found.value := row];
      }
      bootstrapped := true;
      error := None;
    }

    method SeedUser(email: string, role: Role, newId: Id) returns (error: Option<Error>)
      requires Inv(State())
      modifies this
      ensures Apply(old(State()), Seed(email, role, newId)) == if error.None? then Ok(State()) else Err(error.value)
      ensures error.Some? ==> State() == old(State())
    {
      var found := FindRow(email, false);
      if found.None? {
        var taken := FindRow(email, true);
        if newId in used || taken.Some? { return Some(Conflict); }
        users := users[newId := User(email, role, 0, None, false)];
        used := used + {newId};
      } else {
        var row := users[found.value];
        if AdminRole(row.role) && !AdminRole(role) {
          var safe := EnsureRemovalSafe(found.value);
          if !safe { return Some(LastAdmin); }
        }
        users := users[found.value := row.(role := role)];
      }
      if AdminRole(role) { bootstrapped := true; }
      error := None;
    }

    method ConfirmPasswordReset(email: string, generation: int, password: string) returns (error: Option<Error>)
      requires Inv(State())
      modifies this`users
      ensures Apply(old(State()), ResetPassword(email, generation, password)) ==
        if error.None? then Ok(State()) else Err(error.value)
      ensures error.Some? ==> State() == old(State())
    {
      var found := FindRow(email, false);
      if found.None? || users[found.value].generation != generation { return Some(NotFound); }
      var row := users[found.value];
      users := users[found.value := row.(password := Some(password), generation := row.generation + 1)];
      error := None;
    }

    /** One listed row the action applies to; the actor, another administrator, is still there. */
    method BulkOne(actor: Id, action: BulkAction, id: Id) returns (error: Option<Error>)
      requires LiveAdmin(users, actor) && BulkAccepted(action) && BulkApplies(users, actor, action, id)
      modifies this`users
      ensures error.None?
      ensures users == var row := BulkRow(action, old(users)[id]);
        if row.None? then old(users) - {id} else old(users)[id := row.value]
    {
      var row := users[id];
      error := None;
      match action
      case BulkApprove => users := users[id := row.(role := Student, generation := row.generation + 1)];
      case BulkReject => error := HardDelete(id);
      case BulkDelete =>
        var safe := true;
        if AdminRole(row.role) { safe := EnsureRemovalSafe(id); }
        if !safe { return Some(LastAdmin); }
        error := HardDelete(id);
      case BulkSetRole(role) =>
        if AdminRole(row.role) && !AdminRole(role.value) {
          var safe := EnsureRemovalSafe(id);
          if !safe { return Some(LastAdmin); }
        }
        if row.role != role.value { row := row.(role := role.value, generation := row.generation + 1); }
        users := users[id := row];
    }

    /** One turn of the bulk loop. */
    method BulkTurn(actor: Id, admitted: int, action: BulkAction, id: Id) returns (turn: Turn)
      requires BulkAccepted(action)
      modifies this`users
      ensures turn == Refused <==> id != actor && !ActorValid(old(State()), actor, admitted)
      ensures turn == Done <==> ActorValid(old(State()), actor, admitted) && BulkApplies(old(users), actor, action, id)
      ensures users == if turn == Done then AfterTurn(old(users), action, id) else old(users)
    {
      if id == actor { return Skipped; }
      var ok, row := LockAdminAuthority(actor, id, admitted);
      if !ok { return Refused; }
      if row.None? || ((action.BulkApprove? || action.BulkReject?) && row.value.role != Pending) { return Skipped; }
      var _ := BulkOne(actor, action, id);
      turn := Done;
    }

    /**
     The bulk loop. `updated` and `skipped` together list the de-duplicated ids, every row ends as
     `BulkUsers` says, and the final-administrator conflict never happens.
     */
    method AdminBulkUsers(actor: Id, admitted: int, action: BulkAction, ids: seq<Id>)
      returns (error: Option<Error>, updated: seq<Id>, skipped: seq<Id>)
      modifies this`users
      ensures error == Some(BadRequest) <==> !BulkAccepted(action)
      ensures error == Some(Denied) <==>
        BulkAccepted(action) && (exists id :: id in ids && id != actor) && !ActorValid(old(State()), actor, admitted)
      ensures error.None? || error == Some(BadRequest) || error == Some(Denied)
      ensures error.None? ==> State() == Next(old(State()), Bulk(actor, admitted, action, ids))
      ensures error.None? ==> multiset(updated) + multiset(skipped) == multiset(Deduped(ids))
      ensures error.None? ==> forall id :: id in updated <==> id in ids && BulkApplies(old(users), actor, action, id)
      ensures error.Some? ==> State() == old(State())
    {
      if action.BulkSetRole? && (action.role.None? || action.role.value == Pending) { return Some(BadRequest), [], []; }
      var before := users;                                   // what a rollback restores
      var todo := Deduped(ids);
      DedupedFacts(ids);
      assert SetOf(todo) == SetOf(ids);
      var refused;
      refused, updated, skipped := BulkLoop(actor, admitted, action, todo);
      if refused { users := before; }
      error := if refused then Some(Denied) else None;
    }

    method BulkLoop(actor: Id, admitted: int, action: BulkAction, todo: seq<Id>)
      returns (refused: bool, updated: seq<Id>, skipped: seq<Id>)
      requires BulkAccepted(action) && forall i, j :: 0 <= i < j < |todo| ==> todo[i] != todo[j]
      modifies this`users
      ensures refused <==> (exists id :: id in todo && id != actor) && !ActorValid(old(State()), actor, admitted)
      ensures !refused ==> users == BulkUsers(old(users), actor, action, SetOf(todo))
      ensures !refused ==> multiset(updated) + multiset(skipped) == multiset(todo)
      ensures !refused ==> forall id :: id in updated <==> id in todo && BulkApplies(old(users), actor, action, id)
    {
      hide BulkUsers, BulkApplies, AfterTurn;
      refused, updated, skipped := false, [], [];
      ghost var done := SetOf(todo[..0]);
      assert done == {};
      BulkNothing(users, actor, action);
      for i := 0 to |todo|
        invariant done == SetOf(todo[..i])
        invariant users == BulkUsers(old(users), actor, action, done)
        invariant multiset(updated) + multiset(skipped) == multiset(todo[..i])
        invariant forall id :: id in updated <==> id in done && BulkApplies(old(users), actor, action, id)
        invariant done <= {actor} || ActorValid(old(State()), actor, admitted)
      {
        var id := todo[i];
        BulkOneMore(old(users), actor, action, done, id);
        assert todo[..i + 1] == todo[..i] + [id];
        var turn := BulkTurn(actor, admitted, action, id);
        if turn == Refused {
          assert id in todo;
          return true, [], [];
        }
        assert SetOf(todo[..i + 1]) == done + {id};
        done := SetOf(todo[..i + 1]);
        if turn == Done { updated := updated + [id]; } else { skipped := skipped + [id]; }
      }
      assert todo[..|todo|] == todo;
    }
  }

  datatype Turn = Done | Skipped | Refused

  function AfterTurn(users: Users, action: BulkAction, id: Id): Users
  {
    if id !in users then users
    else
      var row := BulkRow(action, users[id]);
      if row.None? then users - {id} else users[id := row.value]
  }

  /** `list(dict.fromkeys(values))`: the first occurrences, in order. */
  function Deduped(ids: seq<Id>): seq<Id>
  {
    if ids == [] then []
    else
      var init, last := ids[..|ids| - 1], ids[|ids| - 1];
      if last in init then Deduped(init) else Deduped(init) + [last]
  }

  lemma {:induction false} DedupedFacts(ids: seq<Id>)
    ensures forall id :: id in Deduped(ids) <==> id in ids
    ensures forall i, j :: 0 <= i < j < |Deduped(ids)| ==> Deduped(ids)[i] != Deduped(ids)[j]
  {
    if ids != [] {
      var init, last := ids[..|ids| - 1], ids[|ids| - 1];
      assert ids == init + [last];
      DedupedFacts(init);
    }
  }

  lemma BulkOnSelf(users: Users, actor: Id, action: BulkAction, ids: set<Id>)
    requires ids <= {actor}
    ensures BulkUsers(users, actor, action, ids) == users
  {
  }

  lemma BulkNothing(users: Users, actor: Id, action: BulkAction)
    ensures BulkUsers(users, actor, action, {}) == users
  {
  }

  /** Taking one more id into the set changes that row alone, and only if the action applies to it. */
  lemma BulkOneMore(users: Users, actor: Id, action: BulkAction, done: set<Id>, id: Id)
    requires id !in done
    ensures var part := BulkUsers(users, actor, action, done);
      && BulkApplies(part, actor, action, id) == BulkApplies(users, actor, action, id)
      && (actor in part <==> actor in users) && (actor in users ==> part[actor] == users[actor])
      && (BulkApplies(users, actor, action, id) ==> id != actor)
      && BulkUsers(users, actor, action, done + {id}) ==
           if BulkApplies(users, actor, action, id) then AfterTurn(part, action, id) else part
  {
  }
}
