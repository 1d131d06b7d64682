/**
 Creating and editing proxy accounts, field by field: what ends up in the row,
 when the edit is refused, and when an expiry takes effect.
 */
module AccountEdits {
  import opened Wrappers
  import opened AccountStore
  import opened AccountLaws

  // ---------- the fields of the written row ----------

  ghost predicate NameIs(name: string, edit: Edit, before: string) {
    match edit.username
    case Given(n) => name == n
    case _ => name == before
  }

  ghost predicate EnabledIs(enabled: bool, edit: Edit, before: bool) {
    match edit.enabled
    case Given(b) => enabled == b
    case _ => enabled == before
  }

  /** A given time is stored, a given blank or null clears the expiry, anything else keeps it. */
  ghost predicate ExpiryIs(expiresAt: Option<Expiry>, edit: Edit, before: Option<Expiry>) {
    match edit.expiresAt
    case Given(Some(At(t))) => expiresAt == Some(At(t))
    case Given(_) => expiresAt == None
    case _ => if before == Some(Blank) then expiresAt == None else expiresAt == before
  }

  /** Of the given protocols the known one is kept. */
  ghost predicate ProtocolsAre(p: Protocols, edit: Edit) {
    && p.Items? && (forall x :: x in p.items ==> x == "vless_reality")
    && (edit.protocols.Given? ==> ("vless_reality" in p.items <==> "vless_reality" in edit.protocols.value))
    && (!edit.protocols.Given? ==> "vless_reality" in p.items)
  }

  ghost predicate Edited(a: Account, edit: Edit, b: Account) {
    && a.id == b.id && a.uuid == b.uuid && a.secret == b.secret
    && a.previousUuid == b.previousUuid && a.graceUntil == b.graceUntil
    && NameIs(b.username, edit, a.username) && EnabledIs(b.enabled, edit, a.enabled)
    && ExpiryIs(b.expiresAt, edit, a.expiresAt) && ProtocolsAre(b.protocols, edit)
  }

  /** A port outside 1024 to 65535, a name its validator refuses, or an expiry that is no date. */
  predicate Malformed(edit: Edit, stored: Option<Expiry>) {
    || edit.username.Rejected?
    || edit.port.Rejected? || (edit.port.Given? && (edit.port.value < 1024 || edit.port.value > 65535))
    || edit.expiresAt == Given(Some(NoDate))
    || (!edit.expiresAt.Given? && stored == Some(NoDate))
  }

  lemma NormalizedFields(a: Account, edit: Edit)
    ensures Normalized(a, edit).Err? <==> Malformed(edit, a.expiresAt)
    ensures Normalized(a, edit).Ok? ==> Edited(a, edit, Normalized(a, edit).value)
  {
    ProtocolFilterVacuous(a.protocols);
    if edit.protocols.Given? {
      FilterKeeps(edit.protocols.value);
    } else {
      FilterKeeps(NormalizeProtocols(a.protocols));
    }
  }

  lemma {:induction false} FilterKeeps(items: seq<string>)
    ensures forall x :: x in OnlyVless(items) ==> x == "vless_reality"
    ensures "vless_reality" in OnlyVless(items) <==> "vless_reality" in items
  {
    if items == [] {
    } else {
      FilterKeeps(items[1..]);
      assert items == [items[0]] + items[1..];
    }
  }

  // ---------- updating ----------

  /** The row with this id, if the table has one. */
  ghost predicate RowAt(rows: seq<Account>, id: string, i: nat) {
    i < |rows| && rows[i].id == id && ValidId(id) && forall j :: 0 <= j < i ==> rows[j].id != id
  }

  lemma {:induction false} RowFound(rows: seq<Account>, id: string, i: nat)
    requires RowAt(rows, id, i)
    ensures IndexOf(rows, id) == i && Find(rows, id) == Some(rows[i])
  {
    if i == 0 {
    } else {
      RowFound(rows[1..], id, i - 1);
    }
  }

  /** Another row has the name the edited row would have. */
  ghost predicate NameClash(rows: seq<Account>, id: string, edit: Edit, before: string) {
    exists k :: 0 <= k < |rows| && rows[k].id != id && NameIs(rows[k].username, edit, before)
  }

  /**
   An update is refused exactly when there is no such row, a field is malformed, or the
   name belongs to another row. Otherwise it writes the given fields into the row with that
   id, keeps the absent ones, and touches no other row.
   */
  lemma UpdateWrites(rows: seq<Account>, id: string, edit: Edit, i: nat)
    requires RowAt(rows, id, i)
    ensures var r := Attempt(rows, Update(id, edit));
            && (r.Err? <==> Malformed(edit, rows[i].expiresAt) || NameClash(rows, id, edit, rows[i].username))
            && (r.Ok? ==> && |r.value| == |rows| && Edited(rows[i], edit, r.value[i])
                          && forall j :: 0 <= j < |rows| && j != i ==> r.value[j] == rows[j])
  {
    RowFound(rows, id, i);
    NormalizedFields(rows[i], edit);
  }

  lemma UpdateUnknown(rows: seq<Account>, id: string, edit: Edit)
    ensures Attempt(rows, Update(id, edit)) == Err(UnknownAccount)
       <==> !ValidId(id) || forall j :: 0 <= j < |rows| ==> rows[j].id != id
  {
    IndexFinds(rows, id);
    if Find(rows, id).Some? {
      NormalizedFields(Find(rows, id).value, edit);
      var e := Normalized(Find(rows, id).value, edit);
      assert e.Err? ==> e.error != UnknownAccount;
    }
  }

  // ---------- creating ----------

  /**
   A new account goes first in the list with the id, UUID and secret drawn for it, the given
   name, the given or default fields, and no UUID in grace. It is refused exactly when the
   name is missing, a field is malformed, or another row has the name.
   */
  lemma CreateWrites(rows: seq<Account>, id: string, uuid: string, secret: string, edit: Edit)
    ensures var r := Attempt(rows, Create(id, uuid, secret, edit));
            && (r.Err? <==> || !edit.username.Given? || Malformed(edit, None)
                            || exists k :: 0 <= k < |rows| && rows[k].id != id && rows[k].username == edit.username.value)
            && (r.Ok? ==> && |r.value| == |rows| + 1 && r.value[1..] == rows
                          && Fresh(r.value[0], id, uuid, secret, edit))
  {
    NormalizedFields(NewRow(id, uuid, secret), edit);
  }

  ghost predicate Fresh(a: Account, id: string, uuid: string, secret: string, edit: Edit) {
    && a.id == id && a.uuid == uuid && a.secret == Some(secret) && a.previousUuid == None && a.graceUntil == None
    && edit.username == Given(a.username) && EnabledIs(a.enabled, edit, true)
    && ExpiryIs(a.expiresAt, edit, None) && ProtocolsAre(a.protocols, edit)
  }

  /** Every refusal names a defect the request has. */
  lemma EditErrors(rows: seq<Account>, e: Event)
    requires (e.Create? || e.Update?) && Attempt(rows, e).Err?
    ensures match Attempt(rows, e).error
            case UnknownAccount => e.Update? && Find(rows, e.id).None?
            case BadUsername => e.edit.username.Rejected? || (e.Create? && e.edit.username.Absent?)
            case BadPort => e.edit.port.Rejected? || (e.edit.port.Given? && (e.edit.port.value < 1024 || e.edit.port.value > 65535))
            case BadExpiry =>
              || e.edit.expiresAt == Given(Some(NoDate))
              || (e.Update? && !e.edit.expiresAt.Given? && Find(rows, e.id).Some? && Find(rows, e.id).value.expiresAt == Some(NoDate))
            case Duplicate =>
              exists k :: 0 <= k < |rows| && rows[k].id != e.id
                && NameIs(rows[k].username, e.edit, if e.Update? && Find(rows, e.id).Some? then Find(rows, e.id).value.username else "")
            case NoUuid => false
  {
  }

  // ---------- the expiry takes effect ----------

  /** The account has this expiry. */
  predicate ExpiresAt(rows: seq<Account>, id: string, t: int) {
    Find(rows, id).Some? && Find(rows, id).value.expiresAt == Some(At(t))
  }

  /** No later update of this account gives an expiry, and nothing deletes it. */
  predicate KeepsExpiry(run: seq<Event>, id: string) {
    forall i :: 0 <= i < |run| ==> !MayEndExpiry(run[i], id)
  }

  predicate MayEndExpiry(e: Event, id: string) {
    (e.Delete? && e.id == id) || (e.Update? && e.id == id && e.edit.expiresAt.Given?)
  }

  lemma GivenExpiry(s: Accounts, e: Event, t: int)
    requires Sane(s) && Enabled(s, e) && (e.Create? || e.Update?) && e.edit.expiresAt == Given(Some(At(t)))
    requires Attempt(s.rows, e).Ok?
    ensures ExpiresAt(Apply(s, e).rows, e.id, t)
  {
    StepSane(s, e);
    if e.Create? {
      NormalizedFields(NewRow(e.id, e.uuid, e.secret), e.edit);
      assert Apply(s, e).rows[0].id == e.id;
    } else {
      var a := Find(s.rows, e.id).value;
      NormalizedFields(a, e.edit);
      assert s.minted + {} == s.minted;
      FindPut(s.rows, s.minted, Normalized(a, e.edit).value, e.id);
    }
  }

  lemma StepExpiry(s: Accounts, e: Event, id: string, t: int)
    requires Sane(s) && Enabled(s, e) && ExpiresAt(s.rows, id, t) && !MayEndExpiry(e, id)
    ensures ExpiresAt(Apply(s, e).rows, id, t)
  {
    StepSane(s, e);
    if Attempt(s.rows, e).Ok? {
      match e
      case Create(_, _, _, _) =>
        assert e.id in Draws(e);
        assert RowOk(s.rows[IndexOf(s.rows, id)], s.minted);
        FindAdd(s.rows, Attempt(s.rows, e).value[0], id);
      case Update(other, edit) =>
        NormalizedFields(Find(s.rows, other).value, edit);
        assert s.minted + {} == s.minted;
        FindPut(s.rows, s.minted, Normalized(Find(s.rows, other).value, edit).value, id);
      case Rotate(other, uuid, secret, now) =>
        SaneGrow(s.rows, s.minted, s.minted + Draws(e));
        FindPut(s.rows, s.minted + Draws(e), Rotated(Find(s.rows, other).value, uuid, secret, now), id);
      case Delete(other) =>
        FindDropOther(s.rows, s.minted, other, id);
    }
  }

  lemma {:induction false} RunExpiry(s: Accounts, run: seq<Event>, id: string, t: int)
    requires Sane(s) && Legal(s, run) && ExpiresAt(s.rows, id, t) && KeepsExpiry(run, id)
    ensures ExpiresAt(After(s, run).rows, id, t)
    decreases |run|
  {
    if run == [] {
    } else {
      assert !MayEndExpiry(run[0], id);
      StepSane(s, run[0]);
      StepExpiry(s, run[0], id, t);
      RunExpiry(Apply(s, run[0]), run[1..], id, t);
    }
  }

  lemma ExpiryShows(s: Accounts, id: string, t: int, now: int)
    requires Sane(s) && ExpiresAt(s.rows, id, t)
    ensures var a := Find(s.rows, id).value;
            && (now >= t ==> !Served(a, now) && forall u :: u in Uses(a) ==> u !in Uuids(Rendered(s.rows, now)))
            && (now < t ==> (Served(a, now) <==> a.enabled) && (a.uuid in Uuids(Rendered(s.rows, now)) <==> a.enabled))
  {
    var k := IndexOf(s.rows, id);
    var a := s.rows[k];
    assert RowOk(a, s.minted);
    ProtocolFilterVacuous(a.protocols);
    OwnContribution(s.rows, s.minted, k, now, a.uuid);
    ContributionUuids(a, now);
    forall u | u in Uses(a) && now >= t
      ensures u !in Uuids(Rendered(s.rows, now))
    {
      OwnContribution(s.rows, s.minted, k, now, u);
    }
  }

  /**
   An expiry given to a successful create or update holds until a later update gives another
   one or the account is deleted. From that time on none of its UUIDs is rendered and the
   account is not served; before it, it is rendered and served exactly while enabled.
   */
  lemma ExpiryEnds(s: Accounts, e: Event, t: int, run: seq<Event>, now: int)
    requires Sane(s) && Legal(s, [e] + run) && (e.Create? || e.Update?) && Attempt(s.rows, e).Ok?
    requires e.edit.expiresAt == Given(Some(At(t))) && KeepsExpiry(run, e.id)
    ensures var rows := After(s, [e] + run).rows;
            && Find(rows, e.id).Some?
            && var a := Find(rows, e.id).value;
               && (now >= t ==> !Served(a, now) && forall u :: u in Uses(a) ==> u !in Uuids(Rendered(rows, now)))
               && (now < t ==> (Served(a, now) <==> a.enabled) && (a.uuid in Uuids(Rendered(rows, now)) <==> a.enabled))
  {
    assert ([e] + run)[1..] == run;
    StepSane(s, e);
    GivenExpiry(s, e, t);
    RunExpiry(Apply(s, e), run, e.id, t);
    RunSane(Apply(s, e), run);
    ExpiryShows(After(Apply(s, e), run), e.id, t, now);
  }

  // ---------- the entries of the render list ----------

  /** The row stands for the entry: its current UUID under its name, or the one in grace under its name and `-prev`. */
  ghost predicate EntryOf(r: RenderAccount, a: Account, now: int) {
    && a.enabled && !(a.expiresAt.Some? && a.expiresAt.value.At? && a.expiresAt.value.ms <= now)
    && (|| (r.username == a.username && r.uuid == a.uuid)
        || (r.username == a.username + "-prev" && a.previousUuid == Some(r.uuid) && a.graceUntil.Some? && now < a.graceUntil.value))
  }

  /** Every entry of the list is some row's, except the placeholder of a list without any. */
  lemma {:induction false} EntriesAre(rows: seq<Account>, now: int, r: RenderAccount)
    requires r in Contributions(rows, now)
    ensures exists k :: 0 <= k < |rows| && EntryOf(r, rows[k], now)
  {
    if r in Contribution(rows[0], now) {
      assert EntryOf(r, rows[0], now);
    } else {
      EntriesAre(rows[1..], now, r);
      var k :| 0 <= k < |rows[1..]| && EntryOf(r, rows[1..][k], now);
      assert EntryOf(r, rows[k + 1], now);
    }
  }

  /**
   In a reachable table the list is the placeholder alone exactly when no account is
   enabled and unexpired, and otherwise holds nothing but entries of such accounts.
   */
  lemma RenderNames(run: seq<Event>, now: int)
    requires Legal(Accounts([], {}), run)
    ensures var rows := After(Accounts([], {}), run).rows;
            && (Rendered(rows, now) == [RenderAccount("__no_active_accounts__", "00000000-0000-0000-0000-000000000000")]
                <==> forall k :: 0 <= k < |rows| ==> !IsActive(rows[k], now))
            && ((exists k :: 0 <= k < |rows| && IsActive(rows[k], now)) ==>
                  forall r :: r in Rendered(rows, now) ==> exists k :: 0 <= k < |rows| && EntryOf(r, rows[k], now))
  {
    var s := After(Accounts([], {}), run);
    RunSane(Accounts([], {}), run);
    if k :| 0 <= k < |s.rows| && IsActive(s.rows[k], now) {
      assert RowOk(s.rows[k], s.minted);
      OwnContribution(s.rows, s.minted, k, now, s.rows[k].uuid);
      ContributionUuids(s.rows[k], now);
      RenderedUuids(s.rows, now, s.rows[k].uuid);
      forall r | r in Rendered(s.rows, now)
        ensures exists k :: 0 <= k < |s.rows| && EntryOf(r, s.rows[k], now)
      {
        EntriesAre(s.rows, now, r);
      }
    } else {
      NoneActive(s.rows, now);
    }
  }

  lemma {:induction false} NoneActive(rows: seq<Account>, now: int)
    requires forall k :: 0 <= k < |rows| ==> !IsActive(rows[k], now)
    ensures Contributions(rows, now) == []
  {
    if rows == [] {
    } else {
      NoneActive(rows[1..], now);
    }
  }

  // ---------- identifiers ----------

  predicate HexDigit(c: char) {
    '0' <= c <= '9' || 'a' <= c <= 'f' || 'A' <= c <= 'F'
  }

  /** Hexadecimal digits in groups of 8, 4, 4, 4 and 12. */
  predicate UuidText(s: string) {
    |s| == 36 && forall i :: 0 <= i < 36 ==> if i == 8 || i == 13 || i == 18 || i == 23 then s[i] == '-' else HexDigit(s[i])
  }

  /** Both other patterns of `validateId` are instances of the first, which sets the length limits. */
  lemma IdPatterns(s: string)
    ensures UuidText(s) ==> ValidId(s)
    ensures |s| == 32 && (forall i :: 0 <= i < |s| ==> '0' <= s[i] <= '9' || 'a' <= s[i] <= 'f') ==> ValidId(s)
    ensures ValidId(s) <==> 8 <= |s| <= 128 && forall i :: 0 <= i < |s| ==> IdChar(s[i])
  {
    if UuidText(s) {
      forall i | 0 <= i < |s|
        ensures IdChar(s[i])
      {
        assert if i == 8 || i == 13 || i == 18 || i == 23 then s[i] == '-' else HexDigit(s[i]);
      }
    }
  }
}
