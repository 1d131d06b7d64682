/**
 What the user table keeps on every run of store operations, whoever performs
 them and in whatever order: an owner stays, bootstrap works once, a token is
 spent once, and rank protects.
 */
module OwnerLaws {
  import opened Wrappers
  import opened UserStore

  // ---------- an active owner never goes away ----------

  lemma OwnerWitness(users: map<string, User>)
    ensures HasOwner(users) <==> exists id :: id in users && ActiveOwner(users[id])
  {
    if id :| id in users && ActiveOwner(users[id]) {
      assert id in ActiveOwners(users);
    }
    if HasOwner(users) {
      var id :| id in ActiveOwners(users);
    }
  }

  lemma AnotherOwner(users: map<string, User>, id: string)
    requires OwnerCount(users) > 1
    ensures exists other :: other in users && other != id && ActiveOwner(users[other])
  {
    var others := ActiveOwners(users) - {id};
    assert ActiveOwners(users) <= others + {id};
    if others == {} {
      CardinalityAtMostOne(ActiveOwners(users), id);
    }
    var other :| other in others;
  }

  lemma CardinalityAtMostOne(s: set<string>, id: string)
    requires s <= {id}
    ensures |s| <= 1
  {
    if id in s {
      assert s == {id};
    } else {
      assert s == {};
    }
  }

  lemma StepKeepsOwner(s: Store, e: Event)
    requires HasOwner(s.users)
    ensures HasOwner(Apply(s, e).users)
  {
    var users := Apply(s, e).users;
    OwnerWitness(s.users);
    OwnerWitness(users);
    var id :| id in s.users && ActiveOwner(s.users[id]);
    if id !in users || !ActiveOwner(users[id]) {
      assert OwnerCount(s.users) > 1;
      AnotherOwner(s.users, id);
      var other :| other in s.users && other != id && ActiveOwner(s.users[other]);
      assert other in users && users[other] == s.users[other];
    }
  }

  /** Once there is an active owner there always is one. */
  lemma {:induction false} OwnerPersists(s: Store, run: seq<Event>)
    requires HasOwner(s.users)
    ensures HasOwner(After(s, run).users)
    decreases |run|
  {
    if run == [] {
    } else {
      StepKeepsOwner(s, run[0]);
      OwnerPersists(Apply(s, run[0]), run[1..]);
    }
  }

  /**
   An otherwise acceptable update or deletion is refused as the last owner exactly
   when it would leave no active owner.
   */
  lemma LastOwnerExactly(users: map<string, User>, id: string, next: Option<User>)
    requires id in users && HasOwner(users)
    ensures DropsLastOwner(users, id, next.Some? && ActiveOwner(next.value))
       <==> !HasOwner(if next.Some? then users[id := next.value] else users - {id})
  {
    var changed := if next.Some? then users[id := next.value] else users - {id};
    var stays := next.Some? && ActiveOwner(next.value);
    OwnerWitness(users);
    OwnerWitness(changed);
    if DropsLastOwner(users, id, stays) {
      forall other | other in changed
        ensures !ActiveOwner(changed[other])
      {
        if other != id && ActiveOwner(users[other]) {
          TwoMembers(ActiveOwners(users), id, other);
        }
      }
    } else if stays {
      assert id in changed && ActiveOwner(changed[id]);
    } else {
      if ActiveOwner(users[id]) {
        AnotherOwner(users, id);
      }
      var other :| other in users && other != id && ActiveOwner(users[other]);
      assert other in changed && changed[other] == users[other];
    }
  }

  lemma TwoMembers(s: set<string>, a: string, b: string)
    requires a != b && a in s && b in s
    ensures |s| >= 2
  {
    assert s == {a} + {b} + (s - {a, b});
    assert |{a} + {b}| == 2;
  }

  // ---------- bootstrap ----------

  predicate Bootstraps(s: Store, e: Event) {
    e.CreateFirstOwner? && Attempt(s, e).Ok?
  }

  function BootstrapCount(s: Store, run: seq<Event>): nat
    decreases |run|
  {
    if run == [] then 0 else (if Bootstraps(s, run[0]) then 1 else 0) + BootstrapCount(Apply(s, run[0]), run[1..])
  }

  lemma {:induction false} NoBootstrapWithOwner(s: Store, run: seq<Event>)
    requires HasOwner(s.users)
    ensures BootstrapCount(s, run) == 0
    decreases |run|
  {
    if run == [] {
    } else {
      StepKeepsOwner(s, run[0]);
      NoBootstrapWithOwner(Apply(s, run[0]), run[1..]);
    }
  }

  /** `createFirstOwner` succeeds at most once, from any store and on any run. */
  lemma {:induction false} BootstrapOnce(s: Store, run: seq<Event>)
    ensures BootstrapCount(s, run) <= 1
    decreases |run|
  {
    if run == [] {
    } else {
      if Bootstraps(s, run[0]) {
        BootstrapLeavesOwner(s, run[0]);
        NoBootstrapWithOwner(Apply(s, run[0]), run[1..]);
      } else {
        BootstrapOnce(Apply(s, run[0]), run[1..]);
      }
    }
  }

  lemma BootstrapLeavesOwner(s: Store, e: Event)
    requires Bootstraps(s, e)
    ensures HasOwner(Apply(s, e).users)
  {
    assert ActiveOwner(Apply(s, e).users[e.id]);
    OwnerWitness(Apply(s, e).users);
  }

  /**
   A bootstrap commits exactly under these conditions, spends its token and adds one
   active owner; otherwise both tables stay as they were, so the token can be
   used again.
   */
  lemma SpentIffCommitted(s: Store, id: string, input: CreateInput, hash: string, now: int)
    ensures var e := Event.CreateFirstOwner(id, input, hash, now);
            var t := Apply(s, e);
            && (Bootstraps(s, e) <==>
                  && !HasOwner(s.users) && hash in s.tokens && s.tokens[hash].usedAt.None? && now < s.tokens[hash].expiresAt
                  && input.role == Some(Owner) && input.email.Some? && input.username.Some? && input.name.Some?
                  && id !in s.users && ValidId(id) && !Clashes(s.users, id, input.email.value, input.username.value))
            && (Bootstraps(s, e) ==>
                  && t.tokens.Keys == s.tokens.Keys && t.tokens[hash].usedAt == Some(now)
                  && (forall other :: other in s.tokens && other != hash ==> t.tokens[other] == s.tokens[other])
                  && t.users.Keys == s.users.Keys + {id} && ActiveOwner(t.users[id])
                  && (forall other :: other in s.users ==> t.users[other] == s.users[other]))
            && (!Bootstraps(s, e) ==> t == s)
  {
  }

  // ---------- a token is spent once ----------

  predicate Spends(s: Store, e: Event, hash: string) {
    && (e.CreateFirstOwner? || e.ConsumeToken?) && e.hash == hash && Attempt(s, e).Ok?
  }

  function SpendCount(s: Store, run: seq<Event>, hash: string): nat
    decreases |run|
  {
    if run == [] then 0 else (if Spends(s, run[0], hash) then 1 else 0) + SpendCount(Apply(s, run[0]), run[1..], hash)
  }

  predicate NeverIssued(run: seq<Event>, hash: string) {
    forall i :: 0 <= i < |run| ==> !(run[i].FinishToken? && run[i].hash == hash)
  }

  predicate Unspendable(s: Store, hash: string) {
    hash !in s.tokens || s.tokens[hash].usedAt.Some?
  }

  lemma {:induction false} NotSpent(s: Store, run: seq<Event>, hash: string)
    requires Unspendable(s, hash) && NeverIssued(run, hash)
    ensures SpendCount(s, run, hash) == 0
    decreases |run|
  {
    if run == [] {
    } else {
      assert !(run[0].FinishToken? && run[0].hash == hash);
      assert Unspendable(Apply(s, run[0]), hash);
      NotSpent(Apply(s, run[0]), run[1..], hash);
    }
  }

  /** Unless its hash is issued again, a token is spent at most once, by bootstrap or otherwise. */
  lemma {:induction false} TokenSpentOnce(s: Store, run: seq<Event>, hash: string)
    requires NeverIssued(run, hash)
    ensures SpendCount(s, run, hash) <= 1
    decreases |run|
  {
    if run == [] {
    } else {
      if Spends(s, run[0], hash) {
        NotSpent(Apply(s, run[0]), run[1..], hash);
      } else {
        TokenSpentOnce(Apply(s, run[0]), run[1..], hash);
      }
    }
  }

  // ---------- rank ----------

  /** Performed by an owner, by the command line (no actor) or by bootstrap. */
  predicate Sovereign(e: Event) {
    match e
    case CreateUser(actor, _, _) => actor.None? || actor.value.role.Owner?
    case CreateFirstOwner(_, _, _, _) => true
    case UpdateUser(actor, _, _, _) => actor.role.Owner?
    case DeleteUser(actor, _) => actor.role.Owner?
    case _ => false
  }

  predicate NoSovereign(run: seq<Event>) {
    forall i :: 0 <= i < |run| ==> !Sovereign(run[i])
  }

  /** Without those no run touches a row of rank admin or owner, or makes a new owner row. */
  lemma {:induction false} RankProtects(s: Store, run: seq<Event>, id: string)
    requires NoSovereign(run)
    ensures var t := After(s, run);
            && (id in s.users && Rank(s.users[id].role) >= Rank(Admin) ==> id in t.users && t.users[id] == s.users[id])
            && (id in t.users && t.users[id].role.Owner? ==> id in s.users && s.users[id] == t.users[id])
            && s.users.Keys <= t.users.Keys
    decreases |run|
  {
    if run == [] {
    } else {
      assert !Sovereign(run[0]);
      RankStep(s, run[0], id);
      RankProtects(Apply(s, run[0]), run[1..], id);
    }
  }

  lemma RankStep(s: Store, e: Event, id: string)
    requires !Sovereign(e)
    ensures var t := Apply(s, e);
            && (id in s.users && Rank(s.users[id].role) >= Rank(Admin) ==> id in t.users && t.users[id] == s.users[id])
            && (id in t.users && t.users[id].role.Owner? ==> id in s.users && s.users[id] == t.users[id])
            && s.users.Keys <= t.users.Keys
  {
  }

  predicate OwnerRow(s: Store, id: string) {
    id in s.users && s.users[id].role.Owner?
  }

  /** The step is by an owner, the command line or bootstrap, writes this row, and makes it an owner row. */
  predicate MakesOwner(s: Store, e: Event, id: string) {
    && Sovereign(e) && (e.CreateUser? || e.CreateFirstOwner? || e.UpdateUser?) && e.id == id
    && !OwnerRow(s, id) && OwnerRow(Apply(s, e), id)
  }

  lemma OwnerStep(s: Store, e: Event, id: string)
    requires !OwnerRow(s, id) && OwnerRow(Apply(s, e), id)
    ensures MakesOwner(s, e, id)
  {
    if !Sovereign(e) {
      RankStep(s, e, id);
    }
  }

  /** A row that became an owner did so in a step of the run that was made by an owner and wrote that row. */
  lemma {:induction false} OwnersComeFromOwners(s: Store, run: seq<Event>, id: string)
    requires OwnerRow(After(s, run), id) && !OwnerRow(s, id)
    ensures exists i :: 0 <= i < |run| && MakesOwner(After(s, run[..i]), run[i], id)
    decreases |run|
  {
    var t := Apply(s, run[0]);
    if OwnerRow(t, id) {
      OwnerStep(s, run[0], id);
      assert run[..0] == [];
    } else {
      OwnersComeFromOwners(t, run[1..], id);
      var i :| 0 <= i < |run[1..]| && MakesOwner(After(t, run[1..][..i]), run[1..][i], id);
      assert run[..i + 1][1..] == run[1..][..i] && run[..i + 1][0] == run[0];
      assert MakesOwner(After(s, run[..i + 1]), run[i + 1], id);
    }
  }

  // ---------- actors that are who they say ----------

  /** An actor whose role is that of its active row. */
  predicate Genuine(s: Store, actor: Actor) {
    actor.id in s.users && s.users[actor.id].role == actor.role && s.users[actor.id].status.Active?
  }

  /** Bootstrap, or the command line, which has no actor. */
  predicate Founding(e: Event) {
    e.CreateFirstOwner? || (e.CreateUser? && e.actor.None?)
  }

  predicate GenuineActor(s: Store, e: Event) {
    match e
    case CreateUser(actor, _, _) => actor.Some? ==> Genuine(s, actor.value)
    case UpdateUser(actor, _, _, _) => Genuine(s, actor)
    case DeleteUser(actor, _) => Genuine(s, actor)
    case _ => true
  }

  predicate GenuineRun(s: Store, run: seq<Event>)
    decreases |run|
  {
    run == [] || (GenuineActor(s, run[0]) && GenuineRun(Apply(s, run[0]), run[1..]))
  }

  predicate Ownerless(s: Store) {
    forall id :: id in s.users ==> !OwnerRow(s, id)
  }

  /** Who makes an owner row is bootstrap, the command line or somebody who has one. */
  lemma OwnerMaker(s: Store, e: Event, id: string)
    requires GenuineActor(s, e) && MakesOwner(s, e, id)
    ensures Founding(e) || (e.CreateUser? && OwnerRow(s, e.actor.value.id)) || (e.UpdateUser? && OwnerRow(s, e.editor.id))
  {
  }

  /** So in a store without owners the first owner row comes from bootstrap or the command line. */
  lemma {:induction false} FirstOwnerIsFounded(s: Store, run: seq<Event>)
    requires GenuineRun(s, run) && Ownerless(s) && !Ownerless(After(s, run))
    ensures exists i :: 0 <= i < |run| && Founding(run[i]) && Ownerless(After(s, run[..i])) && !Ownerless(After(s, run[..i + 1]))
    decreases |run|
  {
    var t := Apply(s, run[0]);
    if Ownerless(t) {
      FirstOwnerIsFounded(t, run[1..]);
      var i :| 0 <= i < |run[1..]| && Founding(run[1..][i]) && Ownerless(After(t, run[1..][..i])) && !Ownerless(After(t, run[1..][..i + 1]));
      assert run[..i + 1][1..] == run[1..][..i] && run[..i + 2][1..] == run[1..][..i + 1];
      assert Founding(run[i + 1]) && Ownerless(After(s, run[..i + 1])) && !Ownerless(After(s, run[..i + 2]));
    } else {
      var id :| id in t.users && OwnerRow(t, id);
      assert !OwnerRow(s, id);
      OwnerStep(s, run[0], id);
      OwnerMaker(s, run[0], id);
      assert run[..0] == [] && run[..1] == [run[0]];
      assert After(s, run[..1]) == After(t, []);
      assert Founding(run[0]);
    }
  }

  // ---------- what the rows look like ----------

  ghost predicate WellFormed(users: map<string, User>) {
    && (forall id :: id in users ==> ValidId(id) && (users[id].disabledAt.Some? <==> users[id].status.Disabled?))
    && (forall a, b :: a in users && b in users && a != b ==>
          users[a].email != users[b].email && users[a].username != users[b].username)
  }

  lemma StepWellFormed(s: Store, e: Event)
    requires WellFormed(s.users)
    ensures WellFormed(Apply(s, e).users)
  {
    if Apply(s, e).users != s.users && !e.DeleteUser? {
      WriteWellFormed(s.users, e.id, Apply(s, e).users[e.id]);
    }
  }

  lemma WriteWellFormed(users: map<string, User>, id: string, user: User)
    requires WellFormed(users) && ValidId(id) && (user.disabledAt.Some? <==> user.status.Disabled?)
    requires !Clashes(users, id, user.email, user.username)
    ensures WellFormed(users[id := user])
  {
  }

  /** Emails and usernames stay unique, and a row carries a disabling time exactly while disabled. */
  lemma {:induction false} RowsWellFormed(s: Store, run: seq<Event>)
    requires WellFormed(s.users)
    ensures WellFormed(After(s, run).users)
    decreases |run|
  {
    if run == [] {
    } else {
      StepWellFormed(s, run[0]);
      RowsWellFormed(Apply(s, run[0]), run[1..]);
    }
  }

  // ---------- disabling and enabling ----------

  /** `disableUser` and `enableUser` as updates. */
  function StatusOnly(status: Status): UpdateInput {
    UpdateInput(Absent, Absent, Absent, Absent, Given(status))
  }

  /** Disabling succeeds exactly for an actor of sufficient rank on a row that is not the last active owner. */
  lemma DisableIff(users: map<string, User>, actor: Actor, id: string, now: int)
    requires WellFormed(users)
    ensures Updated(users, actor, id, StatusOnly(Disabled), now).Ok?
       <==> && id in users && (actor.role.Owner? || (actor.role.Admin? && Rank(users[id].role) < Rank(Admin)))
            && !(ActiveOwner(users[id]) && OwnerCount(users) == 1)
  {
    if id in users && ActiveOwner(users[id]) {
      assert id in ActiveOwners(users);
      assert OwnerCount(users) >= 1;
    }
    if id in users {
      assert !Clashes(users, id, users[id].email, users[id].username);
    }
  }

  /** Enabling undoes disabling, and disabling again keeps the first disabling time. */
  lemma DisableThenEnable(users: map<string, User>, actor: Actor, id: string, first: int, later: int)
    requires WellFormed(users) && Updated(users, actor, id, StatusOnly(Disabled), first).Ok? && users[id].status.Active?
    ensures var off := Updated(users, actor, id, StatusOnly(Disabled), first).value;
            && off[id].disabledAt == Some(first)
            && Updated(off, actor, id, StatusOnly(Active), later) == Ok(users)
            && Updated(off, actor, id, StatusOnly(Disabled), later) == Ok(off)
  {
    var off := Updated(users, actor, id, StatusOnly(Disabled), first).value;
    assert off == users[id := users[id].(status := Disabled, disabledAt := Some(first))];
    assert !Clashes(off, id, off[id].email, off[id].username);
    assert off[id := users[id]] == users;
    assert off[id := off[id]] == off;
  }
}
