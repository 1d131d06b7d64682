/**
 The user and bootstrap-token tables of packages/db/src/store.ts as maps, with
 the operations of AdminStore that change them. Values arrive as their
 normalizers leave them: a field is rejected when its normalizer throws.
 */
module UserStore {
  import opened Wrappers

  datatype Role = Viewer | Operator | Admin | Owner

  datatype Status = Active | Disabled

  datatype User = User(email: string, username: string, name: string, role: Role, status: Status, disabledAt: Option<int>)

  datatype BootstrapToken = BootstrapToken(expiresAt: int, usedAt: Option<int>)

  datatype Actor = Actor(id: string, role: Role)

  datatype CreateInput = CreateInput(email: Option<string>, username: Option<string>, name: Option<string>, role: Option<Role>)

  datatype UpdateInput = UpdateInput(email: Field<string>, username: Field<string>, name: Field<string>, role: Field<Role>, status: Field<Status>)

  datatype Reason = Missing | Used | Expired

  datatype Error =
    | NotFound
    | Forbidden
    | InvalidEmail
    | InvalidUsername
    | InvalidName
    | InvalidRole
    | InvalidStatus
    | DuplicateUser
    | LastOwner
    | CannotDeleteSelf
    | BootstrapDisabled
    | InvalidToken(reason: Reason)
    | DatabaseError

  /** Users by id, bootstrap tokens by hash. */
  datatype Store = Store(users: map<string, User>, tokens: map<string, BootstrapToken>)

  // ---------- predicates of packages/shared ----------

  function Rank(role: Role): nat {
    match role
    case Viewer => 10
    case Operator => 20
    case Admin => 30
    case Owner => 40
  }

  predicate CanManage(actor: Role, target: Role) {
    actor.Owner? || (actor.Admin? && Rank(target) < Rank(Admin))
  }

  // ---------- queries ----------

  predicate ActiveOwner(user: User) {
    user.role.Owner? && user.status.Active?
  }

  function ActiveOwners(users: map<string, User>): set<string> {
    set id | id in users && ActiveOwner(users[id])
  }

  /** `ownerCount`. */
  function OwnerCount(users: map<string, User>): nat {
    |ActiveOwners(users)|
  }

  predicate HasOwner(users: map<string, User>) {
    OwnerCount(users) > 0
  }

  /** The UNIQUE columns: would writing this user at id clash with another row? */
  predicate Clashes(users: map<string, User>, id: string, email: string, username: string) {
    exists other :: other in users && other != id && (users[other].email == email || users[other].username == username)
  }

  // ---------- what each operation does to the tables ----------

  /** `insertUser`, the user written at a fresh id. */
  function Inserted(users: map<string, User>, actor: Option<Actor>, id: string, input: CreateInput): Result<map<string, User>, Error> {
    if input.email.None? then Err(InvalidEmail)
    else if input.username.None? then Err(InvalidUsername)
    else if input.name.None? then Err(InvalidName)
    else if input.role.None? then Err(InvalidRole)
    else if actor.Some? && input.role.value.Owner? && !actor.value.role.Owner? then Err(Forbidden)
    else if id in users || Clashes(users, id, input.email.value, input.username.value) then Err(DuplicateUser)
    else if !ValidId(id) then Err(NotFound)
    else Ok(users[id := User(input.email.value, input.username.value, input.name.value, input.role.value, Active, None)])
  }

  /** Why a token hash cannot be spent now, if it cannot. */
  function Refusal(tokens: map<string, BootstrapToken>, hash: string, now: int): Option<Reason> {
    if hash !in tokens then Some(Missing)
    else if tokens[hash].usedAt.Some? then Some(Used)
    else if tokens[hash].expiresAt <= now then Some(Expired)
    else None
  }

  function Spend(tokens: map<string, BootstrapToken>, hash: string, now: int): map<string, BootstrapToken>
    requires hash in tokens
  {
    tokens[hash := tokens[hash].(usedAt := Some(now))]
  }

  /** `createFirstOwner`: both tables change or neither does. */
  function Bootstrapped(s: Store, id: string, input: CreateInput, hash: string, now: int): Result<Store, Error> {
    if HasOwner(s.users) then Err(BootstrapDisabled)
    else if Refusal(s.tokens, hash, now).Some? then Err(InvalidToken(Refusal(s.tokens, hash, now).value))
    else if input.role != Some(Owner) then Err(InvalidRole)
    else
      var users := Inserted(s.users, None, id, input);
      if users.Err? then Err(users.error) else Ok(Store(users.value, Spend(s.tokens, hash, now)))
  }

  function Changed(user: User, input: UpdateInput, now: int): User {
    var status := Pick(input.status, user.status);
    User(Pick(input.email, user.email), Pick(input.username, user.username), Pick(input.name, user.name),
         Pick(input.role, user.role), status,
         if status.Active? then None else if user.disabledAt.Some? then user.disabledAt else Some(now))
  }

  /** `assertLastOwnerPreserved` fails: the row is the only active owner and would no longer be one. */
  predicate DropsLastOwner(users: map<string, User>, id: string, stays: bool)
    requires id in users
  {
    ActiveOwner(users[id]) && !stays && OwnerCount(users) <= 1
  }

  /** `updateUser`. */
  function Updated(users: map<string, User>, actor: Actor, id: string, input: UpdateInput, now: int): Result<map<string, User>, Error> {
    if !ValidId(id) || id !in users then Err(NotFound)
    else if !CanManage(actor.role, users[id].role) then Err(Forbidden)
    else if input.role.Rejected? then Err(InvalidRole)
    else if input.status.Rejected? then Err(InvalidStatus)
    else
      var next := Changed(users[id], input, now);
      if next.role.Owner? && !actor.role.Owner? then Err(Forbidden)
      else if DropsLastOwner(users, id, ActiveOwner(next)) then Err(LastOwner)
      else if input.email.Rejected? then Err(InvalidEmail)
      else if input.username.Rejected? then Err(InvalidUsername)
      else if input.name.Rejected? then Err(InvalidName)
      else if Clashes(users, id, next.email, next.username) then Err(DuplicateUser)
      else Ok(users[id := next])
  }

  /** `deleteUser`. */
  function Deleted(users: map<string, User>, actor: Actor, id: string): Result<map<string, User>, Error> {
    if !ValidId(id) || id !in users then Err(NotFound)
    else if actor.id == id then Err(CannotDeleteSelf)
    else if !actor.role.Owner? then Err(Forbidden)
    else if DropsLastOwner(users, id, false) then Err(LastOwner)
    else Ok(users - {id})
  }

  /** `pruneExpiredBootstrapTokens`. */
  function PruneTokens(tokens: map<string, BootstrapToken>, now: int): map<string, BootstrapToken> {
    map hash | hash in tokens && tokens[hash].expiresAt > now && tokens[hash].usedAt.None? :: tokens[hash]
  }

  // ---------- the machine ----------

  datatype Event =
    | CreateUser(actor: Option<Actor>, id: string, input: CreateInput)
    | CreateFirstOwner(id: string, input: CreateInput, hash: string, now: int)
    | UpdateUser(editor: Actor, id: string, change: UpdateInput, now: int)
    | DeleteUser(editor: Actor, id: string)
    | StartToken(now: int)                      // createBootstrapToken up to its await
    | FinishToken(hash: string, expiresAt: int) // and after it
    | ConsumeToken(hash: string, now: int)      // consumeBootstrapTokenHash on its own
    | PruneExpired(now: int)

  /** The tables after one operation, or its error. */
  function Attempt(s: Store, e: Event): Result<Store, Error> {
    match e
    case CreateUser(actor, id, input) => OfUsers(s, Inserted(s.users, actor, id, input))
    case CreateFirstOwner(id, input, hash, now) => Bootstrapped(s, id, input, hash, now)
    case UpdateUser(actor, id, input, now) => OfUsers(s, Updated(s.users, actor, id, input, now))
    case DeleteUser(actor, id) => OfUsers(s, Deleted(s.users, actor, id))
    case StartToken(now) =>
      if HasOwner(s.users) then Err(BootstrapDisabled) else Ok(s.(tokens := PruneTokens(s.tokens, now)))
    case FinishToken(hash, expiresAt) =>
      if hash in s.tokens then Err(DatabaseError)
      else Ok(s.(tokens := s.tokens[hash := BootstrapToken(expiresAt, None)]))
    case ConsumeToken(hash, now) =>
      if Refusal(s.tokens, hash, now).Some? then Err(InvalidToken(Refusal(s.tokens, hash, now).value))
      else Ok(s.(tokens := Spend(s.tokens, hash, now)))
    case PruneExpired(now) => Ok(s.(tokens := PruneTokens(s.tokens, now)))
  }

  function OfUsers(s: Store, users: Result<map<string, User>, Error>): Result<Store, Error> {
    if users.Ok? then Ok(s.(users := users.value)) else Err(users.error)
  }

  /** A failed operation changes nothing. */
  function Apply(s: Store, e: Event): Store {
    var r := Attempt(s, e);
    if r.Ok? then r.value else s
  }

  function After(s: Store, run: seq<Event>): Store
    decreases |run|
  {
    if run == [] then s else After(Apply(s, run[0]), run[1..])
  }

  // ---------- the code ----------

  class AdminStore {
    var users: map<string, User>
    var tokens: map<string, BootstrapToken>

    constructor ()
      ensures View() == Store(map[], map[])
    {
      users := map[];
      tokens := map[];
    }

    ghost function View(): Store
      reads this
    {
      Store(users, tokens)
    }

    /** `insertUser`. */
    method InsertUser(actor: Option<Actor>, id: string, input: CreateInput) returns (error: Option<Error>)
      modifies this`users
      ensures View() == Apply(old(View()), CreateUser(actor, id, input))
      ensures error.None? <==> Inserted(old(users), actor, id, input).Ok?
      ensures error.Some? ==> Inserted(old(users), actor, id, input) == Err(error.value)
    {
      if input.email.None? { return Some(InvalidEmail); }
      if input.username.None? { return Some(InvalidUsername); }
      if input.name.None? { return Some(InvalidName); }
      if input.role.None? { return Some(InvalidRole); }
      if actor.Some? && input.role.value.Owner? && !actor.value.role.Owner? { return Some(Forbidden); }
      if id in users || Clashes(users, id, input.email.value, input.username.value) { return Some(DuplicateUser); }
      if !ValidId(id) { return Some(NotFound); }
      users := users[id := User(input.email.value, input.username.value, input.name.value, input.role.value, Active, None)];
      error := None;
    }

    /** `consumeBootstrapTokenHash`. */
    method ConsumeBootstrapTokenHash(hash: string, now: int) returns (refusal: Option<Reason>)
      modifies this`tokens
      ensures View() == Apply(old(View()), ConsumeToken(hash, now))
      ensures refusal == Refusal(old(tokens), hash, now)
    {
      if hash !in tokens { return Some(Missing); }
      var row := tokens[hash];
      if row.usedAt.Some? { return Some(Used); }
      if row.expiresAt <= now { return Some(Expired); }
      tokens := tokens[hash := row.(usedAt := Some(now))];
      refusal := None;
    }

    /** `createFirstOwner`: the token is spent first; any later error rolls the transaction back. */
    method CreateFirstOwner(id: string, input: CreateInput, hash: string, now: int) returns (error: Option<Error>)
      modifies this
      ensures View() == Apply(old(View()), Event.CreateFirstOwner(id, input, hash, now))
      ensures error.None? ==> hash in tokens && tokens[hash].usedAt == Some(now) && HasOwner(users)
      ensures error.Some? ==> View() == old(View()) && Bootstrapped(old(View()), id, input, hash, now) == Err(error.value)
    {
      var savedUsers, savedTokens := users, tokens;
      if HasOwner(users) { return Some(BootstrapDisabled); }
      var refusal := ConsumeBootstrapTokenHash(hash, now);
      if refusal.Some? {
        return Some(InvalidToken(refusal.value));
      }
      if input.role != Some(Owner) {
        users, tokens := savedUsers, savedTokens;
        return Some(InvalidRole);
      }
      error := InsertUser(None, id, input);
      if error.Some? {
        users, tokens := savedUsers, savedTokens;
      } else {
        assert id in ActiveOwners(users);
      }
    }

    /** `updateUser`. */
    method UpdateUser(actor: Actor, id: string, input: UpdateInput, now: int) returns (error: Option<Error>)
      modifies this`users
      ensures View() == Apply(old(View()), Event.UpdateUser(actor, id, input, now))
      ensures error.None? <==> Updated(old(users), actor, id, input, now).Ok?
      ensures error.Some? ==> Updated(old(users), actor, id, input, now) == Err(error.value)
    {
      if !ValidId(id) || id !in users { return Some(NotFound); }
      var target := users[id];
      if !CanManage(actor.role, target.role) { return Some(Forbidden); }
      if input.role.Rejected? { return Some(InvalidRole); }
      var nextRole := Pick(input.role, target.role);
      if input.status.Rejected? { return Some(InvalidStatus); }
      var nextStatus := Pick(input.status, target.status);
      if nextRole.Owner? && !actor.role.Owner? { return Some(Forbidden); }
      if AssertLastOwnerPreserved(target, nextRole.Owner?, nextStatus).Some? { return Some(LastOwner); }
      if input.email.Rejected? { return Some(InvalidEmail); }
      if input.username.Rejected? { return Some(InvalidUsername); }
      if input.name.Rejected? { return Some(InvalidName); }
      var email, username := Pick(input.email, target.email), Pick(input.username, target.username);
      if Clashes(users, id, email, username) { return Some(DuplicateUser); }
      var disabledAt := if nextStatus.Disabled? then (if target.disabledAt.Some? then target.disabledAt else Some(now)) else None;
      users := users[id := User(email, username, Pick(input.name, target.name), nextRole, nextStatus, disabledAt)];
      error := None;
    }

    /** `assertLastOwnerPreserved`, as the error it throws. */
    function AssertLastOwnerPreserved(target: User, nextIsOwner: bool, nextStatus: Status): (error: Option<Error>)
      reads this
      ensures error.Some? <==>
                ActiveOwner(target) && !(nextIsOwner && nextStatus.Active?) && OwnerCount(users) <= 1
    {
      if !target.role.Owner? || !target.status.Active? then None
      else if nextIsOwner && nextStatus.Active? then None
      else if OwnerCount(users) <= 1 then Some(LastOwner)
      else None
    }

    /** `deleteUser`. */
    method DeleteUser(actor: Actor, id: string) returns (error: Option<Error>)
      modifies this`users
      ensures View() == Apply(old(View()), Event.DeleteUser(actor, id))
      ensures error.None? <==> Deleted(old(users), actor, id).Ok?
      ensures error.Some? ==> Deleted(old(users), actor, id) == Err(error.value)
    {
      if !ValidId(id) || id !in users { return Some(NotFound); }
      if actor.id == id { return Some(CannotDeleteSelf); }
      if !actor.role.Owner? { return Some(Forbidden); }
      if AssertLastOwnerPreserved(users[id], false, Disabled).Some? { return Some(LastOwner); }
      users := users - {id};
      error := None;
    }
  }
}
