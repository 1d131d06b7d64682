/**
 Creating and updating panel users, field by field: exactly when the operation is
 accepted, and what is then in the table.
 */
module UserEdits {
  import opened Wrappers
  import opened UserStore
  import opened OwnerLaws

  ghost predicate FieldIs<T>(value: T, field: Field<T>, before: T) {
    match field
    case Given(v) => value == v
    case _ => value == before
  }

  /** b is the row a with the given fields of the input; the disabling time is set once and cleared on enabling. */
  ghost predicate EditedUser(a: User, input: UpdateInput, now: int, b: User) {
    && FieldIs(b.email, input.email, a.email) && FieldIs(b.username, input.username, a.username)
    && FieldIs(b.name, input.name, a.name) && FieldIs(b.role, input.role, a.role) && FieldIs(b.status, input.status, a.status)
    && (b.status == Active ==> b.disabledAt == None)
    && (b.status == Disabled ==> b.disabledAt == if a.disabledAt.Some? then a.disabledAt else Some(now))
  }

  /** Owners manage everyone, admins manage operators and viewers, nobody else manages anyone. */
  lemma WhoManages(actor: Role, target: Role)
    ensures CanManage(actor, target) <==> actor == Owner || (actor == Admin && (target == Operator || target == Viewer))
  {
  }

  ghost predicate SomeRejected(input: UpdateInput) {
    input.email.Rejected? || input.username.Rejected? || input.name.Rejected? || input.role.Rejected? || input.status.Rejected?
  }

  /** The edit takes the owner role or the active status from the row. */
  ghost predicate Demotes(input: UpdateInput) {
    (input.role.Given? && input.role.value != Owner) || input.status == Given(Disabled)
  }

  ghost predicate OtherActiveOwner(users: map<string, User>, id: string) {
    exists other :: other in users && other != id && users[other].role == Owner && users[other].status == Active
  }

  /** Another row holds the email or the username this row would have. */
  ghost predicate TakenBy(users: map<string, User>, id: string, input: UpdateInput, a: User) {
    exists other :: other in users && other != id
      && (FieldIs(users[other].email, input.email, a.email) || FieldIs(users[other].username, input.username, a.username))
  }

  lemma OnlyOwner(users: map<string, User>, id: string)
    requires id in users && ActiveOwner(users[id])
    ensures OwnerCount(users) <= 1 <==> !OtherActiveOwner(users, id)
  {
    if OwnerCount(users) > 1 {
      AnotherOwner(users, id);
    }
    if other :| other in users && other != id && ActiveOwner(users[other]) {
      TwoMembers(ActiveOwners(users), id, other);
    }
  }

  /**
   An update is accepted exactly when the row exists, the actor manages it, no field is
   refused, only an owner grants the owner role, an active owner remains, and email and
   username stay unique. It then writes the given fields into that row and keeps everything else.
   */
  lemma UpdateAccepted(users: map<string, User>, actor: Actor, id: string, input: UpdateInput, now: int)
    requires ValidId(id) && id in users
    ensures var r, a := Updated(users, actor, id, input, now), users[id];
            && (r.Ok? <==>
                  && (actor.role == Owner || (actor.role == Admin && (a.role == Operator || a.role == Viewer)))
                  && !SomeRejected(input)
                  && (input.role == Given(Owner) ==> actor.role == Owner)
                  && (a.role == Owner && a.status == Active && Demotes(input) ==> OtherActiveOwner(users, id))
                  && !TakenBy(users, id, input, a))
            && (r.Ok? ==> r.value.Keys == users.Keys && EditedUser(a, input, now, r.value[id])
                          && forall other :: other in users && other != id ==> r.value[other] == users[other])
  {
    WhoManages(actor.role, users[id].role);
    if ActiveOwner(users[id]) {
      OnlyOwner(users, id);
    }
    var next := Changed(users[id], input, now);
    assert Clashes(users, id, next.email, next.username) <==> TakenBy(users, id, input, users[id]);
  }

  /** Every refusal names a defect the request has. */
  lemma UpdateErrors(users: map<string, User>, actor: Actor, id: string, input: UpdateInput, now: int)
    ensures var r := Updated(users, actor, id, input, now);
            r.Err? ==>
              if !ValidId(id) || id !in users then r.error == NotFound
              else if !(actor.role == Owner || (actor.role == Admin && (users[id].role == Operator || users[id].role == Viewer)))
              then r.error == Forbidden
              else match r.error
                case Forbidden => input.role == Given(Owner) && actor.role != Owner
                case InvalidRole => input.role.Rejected?
                case InvalidStatus => input.status.Rejected?
                case InvalidEmail => input.email.Rejected?
                case InvalidUsername => input.username.Rejected?
                case InvalidName => input.name.Rejected?
                case LastOwner => users[id].role == Owner && users[id].status == Active && Demotes(input) && !OtherActiveOwner(users, id)
                case DuplicateUser => TakenBy(users, id, input, users[id])
                case _ => false
  {
    if ValidId(id) && id in users {
      WhoManages(actor.role, users[id].role);
      if ActiveOwner(users[id]) {
        OnlyOwner(users, id);
      }
      var next := Changed(users[id], input, now);
      assert Clashes(users, id, next.email, next.username) <==> TakenBy(users, id, input, users[id]);
    }
  }

  /** Only an owner deletes, never itself and never the last active owner; only that row goes. */
  lemma DeleteAccepted(users: map<string, User>, actor: Actor, id: string)
    requires ValidId(id) && id in users
    ensures var r := Deleted(users, actor, id);
            && (r.Ok? <==> && actor.id != id && actor.role == Owner
                           && (users[id].role == Owner && users[id].status == Active ==> OtherActiveOwner(users, id)))
            && (r.Ok? ==> r.value.Keys == users.Keys - {id} && forall other :: other in r.value ==> r.value[other] == users[other])
  {
    if ActiveOwner(users[id]) {
      OnlyOwner(users, id);
    }
  }

  /** A new user is active, carries the given fields, and clashes with nobody; the other rows stay. */
  lemma InsertAccepted(users: map<string, User>, actor: Option<Actor>, id: string, input: CreateInput)
    ensures var r := Inserted(users, actor, id, input);
            && (r.Ok? <==>
                  && input.email.Some? && input.username.Some? && input.name.Some? && input.role.Some?
                  && (input.role == Some(Owner) && actor.Some? ==> actor.value.role == Owner)
                  && id !in users && ValidId(id)
                  && forall other :: other in users ==> users[other].email != input.email.value && users[other].username != input.username.value)
            && (r.Ok? ==> && r.value.Keys == users.Keys + {id}
                          && r.value[id] == User(input.email.value, input.username.value, input.name.value, input.role.value, Active, None)
                          && forall other :: other in users ==> r.value[other] == users[other])
  {
  }

  /** Pruning only removes tokens that can never be spent any more. */
  lemma PruningSafe(tokens: map<string, BootstrapToken>, hash: string, now: int, later: int)
    requires now <= later
    ensures Refusal(PruneTokens(tokens, now), hash, later) == None <==> Refusal(tokens, hash, later) == None
    ensures hash in PruneTokens(tokens, now) <==> Refusal(tokens, hash, now) == None
  {
  }

  /**
   Issuing a token starts exactly when no owner exists and finishes exactly when its hash is
   new. The token can then be spent until it expires; every other token stays as spendable as it was.
   */
  lemma TokenIssued(s: Store, hash: string, expiresAt: int, start: int, later: int, other: string)
    requires start <= later && !HasOwner(s.users)
    ensures Attempt(s, StartToken(start)).Ok? && Apply(s, StartToken(start)).users == s.users
    ensures var s1 := Apply(s, StartToken(start));
            var s2 := Apply(s1, FinishToken(hash, expiresAt));
            && (Attempt(s1, FinishToken(hash, expiresAt)).Ok? <==> Refusal(s.tokens, hash, start) != None)
            && (Attempt(s1, FinishToken(hash, expiresAt)).Ok? ==>
                  && s2.users == s.users
                  && (Refusal(s2.tokens, hash, later) == None <==> later < expiresAt)
                  && (other != hash ==> (Refusal(s2.tokens, other, later) == None <==> Refusal(s.tokens, other, later) == None)))
  {
    PruningSafe(s.tokens, hash, start, later);
    PruningSafe(s.tokens, other, start, later);
  }

  lemma NoTokenWithOwner(s: Store, now: int)
    requires OtherActiveOwner(s.users, "")
    ensures Attempt(s, StartToken(now)) == Err(BootstrapDisabled)
  {
    var id :| id in s.users && s.users[id].role == Owner && s.users[id].status == Active;
    assert id in ActiveOwners(s.users);
  }
}
