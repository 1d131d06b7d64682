/**
 The proxy accounts of packages/db/src/store.ts, the renderer's account list of
 apps/api/src/core-boundary.ts and the eligibility test of the subscription
 endpoint in apps/api/src/app.ts. Random strings are inputs of the operations;
 the store records which have been used so that they can be taken as fresh.
 */
module AccountStore {
  import opened Wrappers

  const VLESS := "vless_reality"
  const GRACE_MS := 600_000

  /** A stored expiry: text that is blank, no date, or a time in milliseconds. */
  datatype Expiry = Blank | NoDate | At(ms: int)

  /** The text of the enabledProtocols column, as JSON.parse sees it. */
  datatype Protocols = Items(items: seq<string>) | OtherJson | NotJson(parts: seq<string>)

  datatype Account = Account(
    id: string,
    username: string,
    uuid: string,
    previousUuid: Option<string>,
    graceUntil: Option<int>,
    secret: Option<string>,
    enabled: bool,
    protocols: Protocols,
    expiresAt: Option<Expiry>)

  /** Rows in listing order, newest first, and every random string used so far. */
  datatype Accounts = Accounts(rows: seq<Account>, minted: set<string>)

  /** The fields of an edit after validation; a field is rejected when its validator throws. */
  datatype Edit = Edit(username: Field<string>, enabled: Field<bool>, port: Field<int>, protocols: Field<seq<string>>, expiresAt: Field<Option<Expiry>>)

  datatype AccountError = UnknownAccount | BadUsername | BadPort | BadExpiry | Duplicate | NoUuid

  // ---------- protocol columns ----------

  function OnlyVless(items: seq<string>): seq<string> {
    if items == [] then []
    else (if items[0] == VLESS then [VLESS] else []) + OnlyVless(items[1..])
  }

  /** `normalizeProtocols` in packages/db/src/helpers.ts. */
  function NormalizeProtocols(p: Protocols): seq<string> {
    match p
    case Items(items) => if OnlyVless(items) != [] then OnlyVless(items) else [VLESS]
    case NotJson(parts) => if OnlyVless(parts) != [] then OnlyVless(parts) else [VLESS]
    case OtherJson => [VLESS]
  }

  /** `rowToSubscriptionAccount` and the default its caller applies. */
  function SubscriptionProtocols(p: Protocols): seq<string> {
    var enabled := if p.Items? then OnlyVless(p.items) else [VLESS];
    if enabled != [] then enabled else [VLESS]
  }

  // ---------- status and eligibility ----------

  /** `Date.parse(expiresAt) <= now`; a text that is no date compares false. */
  predicate Expired(expiresAt: Option<Expiry>, now: int) {
    expiresAt.Some? && expiresAt.value.At? && expiresAt.value.ms <= now
  }

  /** `rowToProxyAccount(row).status === "active"`. */
  predicate IsActive(a: Account, now: int) {
    a.enabled && !Expired(a.expiresAt, now)
  }

  /** The tests of `subscriptionResponse`, server settings being ready. */
  predicate Served(a: Account, now: int) {
    && a.enabled
    && !(a.expiresAt.Some? && !a.expiresAt.value.Blank? && !(a.expiresAt.value.At? && a.expiresAt.value.ms > now))
    && a.uuid != ""
    && VLESS in SubscriptionProtocols(a.protocols)
  }

  datatype RenderAccount = RenderAccount(username: string, uuid: string)

  const PLACEHOLDER := RenderAccount("__no_active_accounts__", "00000000-0000-0000-0000-000000000000")

  predicate InGrace(a: Account, now: int) {
    && a.previousUuid.Some? && a.previousUuid.value != "" && a.previousUuid.value != a.uuid
    && a.graceUntil.Some? && a.graceUntil.value > now
  }

  /** What one row contributes to the render list. */
  function Contribution(a: Account, now: int): seq<RenderAccount> {
    if !IsActive(a, now) || VLESS !in NormalizeProtocols(a.protocols) || !ValidId(a.id) || a.uuid == "" then []
    else [RenderAccount(a.username, a.uuid)]
         + if InGrace(a, now) then [RenderAccount(a.username + "-prev", a.previousUuid.value)] else []
  }

  function Contributions(rows: seq<Account>, now: int): seq<RenderAccount> {
    if rows == [] then [] else Contribution(rows[0], now) + Contributions(rows[1..], now)
  }

  function Rendered(rows: seq<Account>, now: int): seq<RenderAccount> {
    if Contributions(rows, now) == [] then [PLACEHOLDER] else Contributions(rows, now)
  }

  // ---------- what each operation does to the rows ----------

  /** The position of an id, or the number of rows. */
  function IndexOf(rows: seq<Account>, id: string): (i: nat)
    ensures i <= |rows|
    ensures i < |rows| ==> rows[i].id == id
  {
    if rows == [] then 0 else if rows[0].id == id then 0 else 1 + IndexOf(rows[1..], id)
  }

  /** `getProxyAccount`. */
  function Find(rows: seq<Account>, id: string): Option<Account> {
    if ValidId(id) && IndexOf(rows, id) < |rows| then Some(rows[IndexOf(rows, id)]) else None
  }

  function Put(rows: seq<Account>, a: Account): (r: seq<Account>)
    ensures |r| == |rows|
  {
    var i := IndexOf(rows, a.id);
    if i < |rows| then rows[i := a] else rows
  }

  function Drop(rows: seq<Account>, id: string): seq<Account> {
    var i := IndexOf(rows, id);
    if i < |rows| then rows[..i] + rows[i + 1..] else rows
  }

  predicate NameTaken(rows: seq<Account>, id: string, username: string) {
    exists i :: 0 <= i < |rows| && rows[i].id != id && rows[i].username == username
  }

  /** `normalizeProxyInput` applied to a row with the edit laid over it. */
  function Normalized(a: Account, edit: Edit): Result<Account, AccountError> {
    var expiresAt := Pick(edit.expiresAt, a.expiresAt);
    if edit.username.Rejected? then Err(BadUsername)
    else if edit.port.Rejected? || (edit.port.Given? && !(1024 <= edit.port.value <= 65535)) then Err(BadPort)
    else if expiresAt == Some(NoDate) then Err(BadExpiry)
    else Ok(a.(username := Pick(edit.username, a.username), enabled := Pick(edit.enabled, a.enabled),
                 protocols := Items(OnlyVless(Pick(edit.protocols, NormalizeProtocols(a.protocols)))),
                 expiresAt := if expiresAt == Some(Blank) then None else expiresAt))
  }

  /** A new row before its input is laid over it. */
  function NewRow(id: string, uuid: string, secret: string): Account {
    Account(id, "", uuid, None, None, Some(secret), true, Items([VLESS]), None)
  }

  /** A row after rotation: its UUID becomes the previous one for ten minutes. */
  function Rotated(a: Account, uuid: string, secret: string, now: int): Account {
    a.(uuid := uuid, previousUuid := Some(a.uuid), graceUntil := Some(now + GRACE_MS), secret := Some(secret))
  }

  datatype Event =
    | Create(id: string, uuid: string, secret: string, edit: Edit)
    | Update(id: string, edit: Edit)
    | Rotate(id: string, uuid: string, secret: string, now: int)  // regenerateProxyUuid
    | Delete(id: string)

  function Attempt(rows: seq<Account>, e: Event): Result<seq<Account>, AccountError> {
    match e
    case Create(id, uuid, secret, edit) =>
      var a := Normalized(NewRow(id, uuid, secret), edit);
      if a.Err? then Err(a.error)
      else if edit.username.Absent? then Err(BadUsername)
      else if NameTaken(rows, id, a.value.username) then Err(Duplicate)
      else Ok([a.value] + rows)
    case Update(id, edit) =>
      var current := Find(rows, id);
      if current.None? then Err(UnknownAccount)
      else
        var a := Normalized(current.value, edit);
        if a.Err? then Err(a.error)
        else if NameTaken(rows, id, a.value.username) then Err(Duplicate)
        else Ok(Put(rows, a.value))
    case Rotate(id, uuid, secret, now) =>
      var current := Find(rows, id);
      if current.None? then Err(UnknownAccount)
      else if current.value.uuid == "" then Err(NoUuid)
      else Ok(Put(rows, Rotated(current.value, uuid, secret, now)))
    case Delete(id) =>
      if Find(rows, id).None? then Err(UnknownAccount) else Ok(Drop(rows, id))
  }

  /** The random strings an operation draws. */
  function Draws(e: Event): set<string> {
    match e
    case Create(id, uuid, secret, _) => {id, uuid, secret}
    case Rotate(_, uuid, secret, _) => {uuid, secret}
    case _ => {}
  }

  /** Randomness never repeats itself, and ids and UUIDs have their shape. */
  predicate Enabled(s: Accounts, e: Event) {
    && Draws(e) !! s.minted
    && (e.Create? ==> ValidId(e.id) && e.id != e.uuid && e.secret != e.uuid && e.secret != "")
    && (e.Create? || e.Rotate? ==> e.uuid != "" && e.uuid != PLACEHOLDER.uuid && e.secret != "")
  }

  function Apply(s: Accounts, e: Event): Accounts
    requires Enabled(s, e)
  {
    var r := Attempt(s.rows, e);
    Accounts(if r.Ok? then r.value else s.rows, s.minted + Draws(e))
  }

  predicate Legal(s: Accounts, run: seq<Event>)
    decreases |run|
  {
    run == [] || (Enabled(s, run[0]) && Legal(Apply(s, run[0]), run[1..]))
  }

  function After(s: Accounts, run: seq<Event>): Accounts
    requires Legal(s, run)
    decreases |run|
  {
    if run == [] then s else After(Apply(s, run[0]), run[1..])
  }

  // ---------- the renderer's loop ----------

  lemma ContributionsSplit(a: seq<Account>, b: seq<Account>, now: int)
    ensures Contributions(a + b, now) == Contributions(a, now) + Contributions(b, now)
  {
    if a == [] {
      assert a + b == b;
    } else {
      assert (a + b)[1..] == a[1..] + b;
    }
  }

  /** `buildServerRenderAccounts`: the row list is read once and each row read again by id. */
  method BuildServerRenderAccounts(rows: seq<Account>, now: int) returns (accounts: seq<RenderAccount>)
    requires forall i, j :: 0 <= i < j < |rows| ==> rows[i].id != rows[j].id
    ensures accounts == Rendered(rows, now)
  {
    accounts := [];
    for k := 0 to |rows|
      invariant accounts == Contributions(rows[..k], now)
    {
      var account := rows[k];
      assert rows[..k + 1] == rows[..k] + [account];
      assert [account][1..] == [];
      ContributionsSplit(rows[..k], [account], now);
      if !IsActive(account, now) || VLESS !in NormalizeProtocols(account.protocols) { continue; }
      IndexOfRow(rows, k);
      var secret := Find(rows, account.id);
      if secret.None? || secret.value.uuid == "" { continue; }
      accounts := accounts + [RenderAccount(account.username, secret.value.uuid)];
      if secret.value.previousUuid.Some? && secret.value.previousUuid.value != ""
         && secret.value.previousUuid.value != secret.value.uuid
         && account.graceUntil.Some? && account.graceUntil.value > now {
        accounts := accounts + [RenderAccount(account.username + "-prev", secret.value.previousUuid.value)];
      }
    }
    assert rows[..|rows|] == rows;
    if |accounts| == 0 {
      accounts := [PLACEHOLDER];
    }
  }

  lemma {:induction false} IndexOfRow(rows: seq<Account>, k: nat)
    requires k < |rows|
    requires forall i, j :: 0 <= i < j < |rows| ==> rows[i].id != rows[j].id
    ensures IndexOf(rows, rows[k].id) == k
  {
    if k == 0 {
    } else {
      IndexOfRow(rows[1..], k - 1);
    }
  }

  // ---------- the code ----------

  class AccountTable {
    var rows: seq<Account>

    constructor ()
      ensures rows == []
    {
      rows := [];
    }

    /** `createProxyAccount`, with the id, UUID and secret it draws. */
    method CreateProxyAccount(id: string, uuid: string, secret: string, edit: Edit) returns (error: Option<AccountError>)
      modifies this
      ensures error.None? <==> Attempt(old(rows), Create(id, uuid, secret, edit)).Ok?
      ensures Attempt(old(rows), Create(id, uuid, secret, edit)) == if error.None? then Ok(rows) else Err(error.value)
      ensures error.Some? ==> rows == old(rows)
    {
      var normalized := Normalized(NewRow(id, uuid, secret), edit);
      if normalized.Err? { return Some(normalized.error); }
      if edit.username.Absent? { return Some(BadUsername); }
      if NameTaken(rows, id, normalized.value.username) { return Some(Duplicate); }
      rows := [normalized.value] + rows;
      error := None;
    }

    /** `updateProxyAccount`. */
    method UpdateProxyAccount(id: string, edit: Edit) returns (error: Option<AccountError>)
      modifies this
      ensures Attempt(old(rows), Update(id, edit)) == if error.None? then Ok(rows) else Err(error.value)
      ensures error.Some? ==> rows == old(rows)
    {
      var current := Find(rows, id);
      if current.None? { return Some(UnknownAccount); }
      var normalized := Normalized(current.value, edit);
      if normalized.Err? { return Some(normalized.error); }
      if NameTaken(rows, id, normalized.value.username) { return Some(Duplicate); }
      rows := Put(rows, normalized.value);
      error := None;
    }

    /** `regenerateProxyUuid`, with the UUID and secret it draws. */
    method RegenerateProxyUuid(id: string, uuid: string, secret: string, now: int) returns (error: Option<AccountError>)
      modifies this
      ensures Attempt(old(rows), Rotate(id, uuid, secret, now)) == if error.None? then Ok(rows) else Err(error.value)
      ensures error.Some? ==> rows == old(rows)
    {
      var current := Find(rows, id);
      if current.None? { return Some(UnknownAccount); }
      if current.value.uuid == "" { return Some(NoUuid); }
      var previousValidUntil := now + 10 * 60_000;
      var a := current.value;
      rows := Put(rows, a.(uuid := uuid, previousUuid := Some(a.uuid), graceUntil := Some(previousValidUntil), secret := Some(secret)));
      error := None;
    }

    /** `deleteProxyAccount`. */
    method DeleteProxyAccount(id: string) returns (error: Option<AccountError>)
      modifies this
      ensures Attempt(old(rows), Delete(id)) == if error.None? then Ok(rows) else Err(error.value)
      ensures error.Some? ==> rows == old(rows)
    {
      if Find(rows, id).None? { return Some(UnknownAccount); }
      rows := Drop(rows, id);
      error := None;
    }
  }
}
