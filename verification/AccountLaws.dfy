/**
 What holds of the proxy accounts on every run: the render list is usable, the two
 separately written eligibility tests agree, and a rotated UUID lives for
 exactly its grace window.
 */
module AccountLaws {
  import opened Wrappers
  import opened AccountStore

  // ---------- the invariant ----------

  /** The UUIDs a row holds. */
  function Uses(a: Account): set<string> {
    {a.uuid} + if a.previousUuid.Some? then {a.previousUuid.value} else {}
  }

  ghost predicate RowOk(a: Account, minted: set<string>) {
    && ValidId(a.id) && a.id in minted
    && Uses(a) <= minted && "" !in Uses(a) && PLACEHOLDER.uuid !in Uses(a) && a.previousUuid != Some(a.uuid)
    && a.secret.Some? && a.secret.value != "" && a.secret.value in minted
    && (a.expiresAt.None? || a.expiresAt.value.At?)
  }

  ghost predicate Apart(a: Account, b: Account) {
    a.id != b.id && a.username != b.username && a.secret != b.secret && Uses(a) !! Uses(b)
  }

  ghost predicate SaneRows(rows: seq<Account>, minted: set<string>) {
    && (forall i :: 0 <= i < |rows| ==> RowOk(rows[i], minted))
    && (forall i, j :: 0 <= i < |rows| && 0 <= j < |rows| && i != j ==> Apart(rows[i], rows[j]))
  }

  ghost predicate Sane(s: Accounts) {
    SaneRows(s.rows, s.minted)
  }

  lemma {:induction false} IndexFinds(rows: seq<Account>, id: string)
    ensures IndexOf(rows, id) < |rows| <==> exists i :: 0 <= i < |rows| && rows[i].id == id
  {
    if rows != [] && rows[0].id != id {
      IndexFinds(rows[1..], id);
      if i :| 0 <= i < |rows| && rows[i].id == id {
        assert rows[1..][i - 1].id == id;
      }
    }
  }

  lemma SanePut(rows: seq<Account>, a: Account, minted: set<string>, minted': set<string>)
    requires SaneRows(rows, minted) && minted <= minted' && IndexOf(rows, a.id) < |rows| && RowOk(a, minted')
    requires forall j :: 0 <= j < |rows| && j != IndexOf(rows, a.id) ==> Apart(a, rows[j]) && Apart(rows[j], a)
    ensures SaneRows(Put(rows, a), minted')
  {
    SaneGrow(rows, minted, minted');
    PutAt(rows, a);
    SaneReplace(rows, Put(rows, a), IndexOf(rows, a.id), a, minted');
  }

  lemma SaneReplace(rows: seq<Account>, after: seq<Account>, i: nat, a: Account, minted: set<string>)
    requires SaneRows(rows, minted) && i < |rows| && RowOk(a, minted)
    requires forall j :: 0 <= j < |rows| && j != i ==> Apart(a, rows[j]) && Apart(rows[j], a)
    requires |after| == |rows| && forall j :: 0 <= j < |rows| ==> after[j] == if j == i then a else rows[j]
    ensures SaneRows(after, minted)
  {
    forall j, k | 0 <= j < |after| && 0 <= k < |after| && j != k
      ensures Apart(after[j], after[k])
    {
      assert j != i && k != i ==> Apart(rows[j], rows[k]);
    }
    forall j | 0 <= j < |after|
      ensures RowOk(after[j], minted)
    {
      assert j != i ==> RowOk(rows[j], minted);
    }
  }

  lemma SaneDrop(rows: seq<Account>, id: string, minted: set<string>)
    requires SaneRows(rows, minted)
    ensures SaneRows(Drop(rows, id), minted)
  {
    var i, after := IndexOf(rows, id), Drop(rows, id);
    assert i < |rows| ==> forall j :: 0 <= j < |after| ==> after[j] == rows[if j < i then j else j + 1];
  }

  lemma SaneAdd(rows: seq<Account>, a: Account, minted: set<string>, minted': set<string>)
    requires SaneRows(rows, minted) && minted <= minted' && RowOk(a, minted')
    requires forall j :: 0 <= j < |rows| ==> Apart(a, rows[j])
    ensures SaneRows([a] + rows, minted')
  {
    var after := [a] + rows;
    assert forall j :: 0 <= j < |after| ==> after[j] == if j == 0 then a else rows[j - 1];
  }

  lemma SaneGrow(rows: seq<Account>, minted: set<string>, minted': set<string>)
    requires SaneRows(rows, minted) && minted <= minted'
    ensures SaneRows(rows, minted')
  {
  }

  lemma StepSane(s: Accounts, e: Event)
    requires Sane(s) && Enabled(s, e)
    ensures Sane(Apply(s, e))
  {
    SaneGrow(s.rows, s.minted, s.minted + Draws(e));
    if Attempt(s.rows, e).Ok? {
      match e
      case Create(_, _, _, _) => CreateSane(s, e);
      case Update(id, edit) =>
        assert s.minted + {} == s.minted;
        SanePut(s.rows, Normalized(Find(s.rows, id).value, edit).value, s.minted, s.minted);
      case Rotate(_, _, _, _) => RotateSane(s, e);
      case Delete(id) => SaneDrop(s.rows, id, s.minted);
    }
  }

  lemma CreateSane(s: Accounts, e: Event)
    requires Sane(s) && Enabled(s, e) && e.Create? && Attempt(s.rows, e).Ok?
    ensures Sane(Apply(s, e))
  {
    assert e.id in Draws(e) && e.uuid in Draws(e) && e.secret in Draws(e);
    SaneAdd(s.rows, Normalized(NewRow(e.id, e.uuid, e.secret), e.edit).value, s.minted, s.minted + Draws(e));
  }

  lemma RotateSane(s: Accounts, e: Event)
    requires Sane(s) && Enabled(s, e) && e.Rotate? && Find(s.rows, e.id).Some?
    ensures Sane(Apply(s, e))
  {
    assert e.uuid in Draws(e) && e.secret in Draws(e);
    var i, a := IndexOf(s.rows, e.id), Find(s.rows, e.id).value;
    assert RowOk(a, s.minted);
    forall j | 0 <= j < |s.rows| && j != i
      ensures var b := Rotated(a, e.uuid, e.secret, e.now); Apart(b, s.rows[j]) && Apart(s.rows[j], b)
    {
      assert Apart(a, s.rows[j]) && RowOk(s.rows[j], s.minted);
    }
    SanePut(s.rows, Rotated(a, e.uuid, e.secret, e.now), s.minted, s.minted + Draws(e));
  }

  lemma {:induction false} RunSane(s: Accounts, run: seq<Event>)
    requires Sane(s) && Legal(s, run)
    ensures Sane(After(s, run))
    decreases |run|
  {
    if run == [] {
    } else {
      StepSane(s, run[0]);
      RunSane(Apply(s, run[0]), run[1..]);
    }
  }

  // ---------- the render list ----------

  function Uuids(list: seq<RenderAccount>): set<string> {
    set r | r in list :: r.uuid
  }

  /** A UUID is in the list exactly when some row contributes it. */
  lemma {:induction false} ContributedBy(rows: seq<Account>, now: int, u: string)
    ensures u in Uuids(Contributions(rows, now))
       <==> exists k :: 0 <= k < |rows| && u in Uuids(Contribution(rows[k], now))
  {
    if rows == [] {
    } else {
      ContributedBy(rows[1..], now, u);
      var head, tail := Contribution(rows[0], now), Contributions(rows[1..], now);
      assert Uuids(head + tail) == Uuids(head) + Uuids(tail);
      if k :| 0 <= k < |rows| && u in Uuids(Contribution(rows[k], now)) {
        assert k == 0 || rows[1..][k - 1] == rows[k];
      }
    }
  }

  /** Both stored-protocol readers always end up with the one protocol there is. */
  lemma ProtocolFilterVacuous(p: Protocols)
    ensures VLESS in NormalizeProtocols(p) && VLESS in SubscriptionProtocols(p)
  {
    match p
    case Items(items) => OnlyVlessHolds(items);
    case NotJson(parts) => OnlyVlessHolds(parts);
    case OtherJson =>
  }

  lemma {:induction false} OnlyVlessHolds(items: seq<string>)
    ensures OnlyVless(items) != [] ==> VLESS in OnlyVless(items)
    ensures forall p :: p in OnlyVless(items) ==> p == VLESS
  {
    if items == [] {
    } else {
      OnlyVlessHolds(items[1..]);
    }
  }

  /** What one row contributes, by UUID. */
  lemma ContributionUuids(a: Account, now: int)
    ensures Uuids(Contribution(a, now)) <= Uses(a)
    ensures a.uuid in Uuids(Contribution(a, now)) <==> IsActive(a, now) && ValidId(a.id) && a.uuid != ""
    ensures a.previousUuid.Some? && a.previousUuid.value != a.uuid ==>
              (a.previousUuid.value in Uuids(Contribution(a, now))
               <==> IsActive(a, now) && ValidId(a.id) && a.uuid != "" && InGrace(a, now))
  {
    ProtocolFilterVacuous(a.protocols);
    var list := Contribution(a, now);
    if list != [] {
      assert list[0] in list;
      if InGrace(a, now) {
        assert list[1] in list;
      }
    }
  }

  /** Whose UUID is whose: in a sane table only a row's own contribution holds its UUIDs. */
  lemma OwnContribution(rows: seq<Account>, minted: set<string>, k: nat, now: int, u: string)
    requires SaneRows(rows, minted) && k < |rows| && u in Uses(rows[k])
    ensures u in Uuids(Rendered(rows, now)) <==> u in Uuids(Contribution(rows[k], now))
  {
    ContributedBy(rows, now, u);
    if j :| 0 <= j < |rows| && u in Uuids(Contribution(rows[j], now)) {
      ContributionUuids(rows[j], now);
      assert j != k ==> Apart(rows[j], rows[k]);
    }
    RenderedUuids(rows, now, u);
    assert RowOk(rows[k], minted);
  }

  lemma RenderedUuids(rows: seq<Account>, now: int, u: string)
    requires u != PLACEHOLDER.uuid
    ensures u in Uuids(Rendered(rows, now)) <==> u in Uuids(Contributions(rows, now))
  {
  }

  ghost predicate NoRepeat(list: seq<RenderAccount>) {
    forall i, j :: 0 <= i < j < |list| ==> list[i].uuid != list[j].uuid
  }

  lemma {:induction false} ContributionsNoRepeat(rows: seq<Account>, minted: set<string>, now: int)
    requires SaneRows(rows, minted)
    ensures NoRepeat(Contributions(rows, now))
  {
    if rows == [] {
    } else {
      var head, rest := Contribution(rows[0], now), rows[1..];
      assert SaneRows(rest, minted);
      ContributionsNoRepeat(rest, minted, now);
      var tail := Contributions(rest, now);
      forall i, j | 0 <= i < |head| && 0 <= j < |tail|
        ensures head[i].uuid != tail[j].uuid
      {
        var u := tail[j].uuid;
        assert tail[j] in tail && head[i] in head;
        ContributedBy(rest, now, u);
        var k :| 0 <= k < |rest| && u in Uuids(Contribution(rest[k], now));
        ContributionUuids(rest[k], now);
        ContributionUuids(rows[0], now);
        assert Apart(rows[0], rows[k + 1]);
        assert head[i].uuid in Uses(rows[0]);
      }
      assert RowOk(rows[0], minted);
    }
  }

  /** In every reachable state the rendered list is non-empty and repeats no UUID. */
  lemma RenderedIsUsable(run: seq<Event>, now: int)
    requires Legal(Accounts([], {}), run)
    ensures var list := Rendered(After(Accounts([], {}), run).rows, now);
            list != [] && NoRepeat(list)
  {
    var s := Accounts([], {});
    RunSane(s, run);
    ContributionsNoRepeat(After(s, run).rows, After(s, run).minted, now);
  }

  // ---------- eligibility ----------

  /**
   The two tests side by side, on any row with a valid id, which both readers insist
   on: what the endpoint serves the renderer includes, and the one kind of row the
   renderer includes beyond that is an enabled one whose expiry is no date.
   */
  lemma EligibilityCompared(a: Account, now: int)
    requires ValidId(a.id)
    ensures a.uuid in Uuids(Contribution(a, now))
       <==> Served(a, now) || (a.enabled && a.uuid != "" && a.expiresAt == Some(NoDate))
    ensures Served(a, now) ==> a.expiresAt != Some(NoDate)
  {
    ContributionUuids(a, now);
    ProtocolFilterVacuous(a.protocols);
  }

  /** In reachable states, where no such row exists, they agree exactly at any one time. */
  lemma EligibilityAgrees(run: seq<Event>, k: nat, now: int)
    requires Legal(Accounts([], {}), run) && k < |After(Accounts([], {}), run).rows|
    ensures var rows := After(Accounts([], {}), run).rows;
            Served(rows[k], now) <==> rows[k].uuid in Uuids(Rendered(rows, now))
  {
    var s := After(Accounts([], {}), run);
    RunSane(Accounts([], {}), run);
    assert RowOk(s.rows[k], s.minted);
    OwnContribution(s.rows, s.minted, k, now, s.rows[k].uuid);
    EligibilityCompared(s.rows[k], now);
  }

  // ---------- the grace window ----------

  /** No rotation and no deletion of this account. */
  predicate LeavesAlone(run: seq<Event>, id: string) {
    forall i :: 0 <= i < |run| ==> !((run[i].Rotate? || run[i].Delete?) && run[i].id == id)
  }

  /** The columns only rotation writes. */
  function Identity(a: Account): Account {
    a.(username := "", enabled := false, protocols := OtherJson, expiresAt := None)
  }

  /** The row with a's id still has a's identity columns. */
  ghost predicate Holds(rows: seq<Account>, a: Account) {
    Find(rows, a.id).Some? && Identity(Find(rows, a.id).value) == Identity(a)
  }

  lemma FindAt(rows: seq<Account>, minted: set<string>, k: nat)
    requires SaneRows(rows, minted) && k < |rows|
    ensures Find(rows, rows[k].id) == Some(rows[k])
  {
    assert RowOk(rows[k], minted);
    forall i, j | 0 <= i < j < |rows|
      ensures rows[i].id != rows[j].id
    {
      assert Apart(rows[i], rows[j]);
    }
    IndexOfRow(rows, k);
  }

  lemma FindPut(rows: seq<Account>, minted: set<string>, a: Account, id: string)
    requires SaneRows(rows, minted) && Find(rows, a.id).Some? && ValidId(id)
    requires SaneRows(Put(rows, a), minted)
    ensures Find(Put(rows, a), id) == if id == a.id then Some(a) else Find(rows, id)
  {
    var i, after := IndexOf(rows, a.id), Put(rows, a);
    PutAt(rows, a);
    if id == a.id {
      FindAt(after, minted, i);
    } else {
      SameIds(rows, after, id);
      var k := IndexOf(rows, id);
      if k < |rows| {
        FindAt(after, minted, k);
      }
    }
  }

  lemma PutAt(rows: seq<Account>, a: Account)
    requires IndexOf(rows, a.id) < |rows|
    ensures forall j :: 0 <= j < |rows| ==> Put(rows, a)[j] == if j == IndexOf(rows, a.id) then a else rows[j]
  {
  }

  lemma {:induction false} SameIds(rows: seq<Account>, after: seq<Account>, id: string)
    requires |rows| == |after| && forall j :: 0 <= j < |rows| ==> after[j].id == rows[j].id
    ensures IndexOf(after, id) == IndexOf(rows, id)
  {
    if rows != [] && rows[0].id != id {
      SameIds(rows[1..], after[1..], id);
    }
  }

  lemma FindDropOther(rows: seq<Account>, minted: set<string>, gone: string, id: string)
    requires SaneRows(rows, minted) && gone != id && Find(rows, id).Some?
    ensures Find(Drop(rows, gone), id) == Find(rows, id)
  {
    var i, after, k := IndexOf(rows, gone), Drop(rows, gone), IndexOf(rows, id);
    SaneDrop(rows, gone, minted);
    if i < |rows| {
      var k' := if k < i then k else k - 1;
      assert after[k'] == rows[k];
      FindAt(after, minted, k');
    }
  }

  lemma FindAdd(rows: seq<Account>, a: Account, id: string)
    requires a.id != id && Find(rows, id).Some?
    ensures Find([a] + rows, id) == Find(rows, id)
  {
    assert ([a] + rows)[1..] == rows;
  }

  lemma HoldsCreate(s: Accounts, e: Event, a: Account)
    requires Sane(s) && Enabled(s, e) && Holds(s.rows, a) && e.Create?
    ensures Holds(Apply(s, e).rows, a)
  {
    if Attempt(s.rows, e).Ok? {
      assert e.id in Draws(e);
      assert RowOk(s.rows[IndexOf(s.rows, a.id)], s.minted);
      FindAdd(s.rows, Attempt(s.rows, e).value[0], a.id);
    }
  }

  /** Writing back a row with its identity columns leaves those of every row alone. */
  lemma HoldsPut(rows: seq<Account>, minted: set<string>, b: Account, a: Account)
    requires SaneRows(rows, minted) && SaneRows(Put(rows, b), minted) && Holds(rows, a) && Find(rows, b.id).Some?
    requires b.id == a.id ==> Identity(b) == Identity(a)
    ensures Holds(Put(rows, b), a)
  {
    FindPut(rows, minted, b, a.id);
  }

  lemma HoldsUpdate(s: Accounts, e: Event, a: Account)
    requires Sane(s) && Enabled(s, e) && Sane(Apply(s, e)) && Holds(s.rows, a) && e.Update?
    ensures Holds(Apply(s, e).rows, a)
  {
    if Attempt(s.rows, e).Ok? {
      HoldsPut(s.rows, s.minted, Normalized(Find(s.rows, e.id).value, e.edit).value, a);
    }
  }

  lemma HoldsRotate(s: Accounts, e: Event, a: Account)
    requires Sane(s) && Enabled(s, e) && Sane(Apply(s, e)) && Holds(s.rows, a) && e.Rotate? && e.id != a.id
    ensures Holds(Apply(s, e).rows, a)
  {
    if Attempt(s.rows, e).Ok? {
      SaneGrow(s.rows, s.minted, s.minted + Draws(e));
      HoldsPut(s.rows, s.minted + Draws(e), Rotated(Find(s.rows, e.id).value, e.uuid, e.secret, e.now), a);
    }
  }

  lemma HoldsDelete(s: Accounts, e: Event, a: Account)
    requires Sane(s) && Enabled(s, e) && Holds(s.rows, a) && e.Delete? && e.id != a.id
    ensures Holds(Apply(s, e).rows, a)
  {
    if Attempt(s.rows, e).Ok? {
      FindDropOther(s.rows, s.minted, e.id, a.id);
    }
  }

  lemma StepHolds(s: Accounts, e: Event, a: Account)
    requires Sane(s) && Enabled(s, e) && Holds(s.rows, a)
    requires !((e.Rotate? || e.Delete?) && e.id == a.id)
    ensures Holds(Apply(s, e).rows, a)
  {
    StepSane(s, e);
    match e
    case Create(_, _, _, _) => HoldsCreate(s, e, a);
    case Update(_, _) => HoldsUpdate(s, e, a);
    case Rotate(_, _, _, _) => HoldsRotate(s, e, a);
    case Delete(_) => HoldsDelete(s, e, a);
  }

  lemma {:induction false} RunHolds(s: Accounts, run: seq<Event>, a: Account)
    requires Sane(s) && Legal(s, run) && Holds(s.rows, a) && LeavesAlone(run, a.id)
    ensures Holds(After(s, run).rows, a)
    decreases |run|
  {
    if run == [] {
    } else {
      assert !((run[0].Rotate? || run[0].Delete?) && run[0].id == a.id);
      StepSane(s, run[0]);
      StepHolds(s, run[0], a);
      RunHolds(Apply(s, run[0]), run[1..], a);
    }
  }

  /**
   A rotation at time t keeps the old UUID of the account in the rendered list,
   through any further operations that neither rotate nor delete it, exactly while
   less than ten minutes have passed and the account is active; the new UUID is
   there exactly while the account is active.
   */
  lemma GraceWindow(s: Accounts, id: string, uuid: string, secret: string, t: int, run: seq<Event>, now: int)
    requires Sane(s) && Find(s.rows, id).Some? && Legal(s, [Rotate(id, uuid, secret, t)] + run) && LeavesAlone(run, id)
    ensures var rows := After(s, [Rotate(id, uuid, secret, t)] + run).rows;
            && Find(rows, id).Some?
            && var active := IsActive(Find(rows, id).value, now);
               && (Find(s.rows, id).value.uuid in Uuids(Rendered(rows, now)) <==> active && now < t + 600_000)
               && (uuid in Uuids(Rendered(rows, now)) <==> active)
  {
    var e := Rotate(id, uuid, secret, t);
    var b := Rotated(Find(s.rows, id).value, uuid, secret, t);
    assert ([e] + run)[1..] == run;
    StepSane(s, e);
    RotationHolds(s, e);
    RunHolds(Apply(s, e), run, b);
    RunSane(Apply(s, e), run);
    RenderedWhile(After(Apply(s, e), run), b, now);
  }

  lemma RotationHolds(s: Accounts, e: Event)
    requires Sane(s) && Enabled(s, e) && e.Rotate? && Find(s.rows, e.id).Some?
    ensures Holds(Apply(s, e).rows, Rotated(Find(s.rows, e.id).value, e.uuid, e.secret, e.now))
  {
    RotateSane(s, e);
    SaneGrow(s.rows, s.minted, s.minted + Draws(e));
    FindPut(s.rows, s.minted + Draws(e), Rotated(Find(s.rows, e.id).value, e.uuid, e.secret, e.now), e.id);
  }

  lemma RenderedWhile(s: Accounts, b: Account, now: int)
    requires Sane(s) && Holds(s.rows, b) && b.previousUuid.Some? && b.graceUntil.Some?
    ensures var active := IsActive(Find(s.rows, b.id).value, now);
            && (b.previousUuid.value in Uuids(Rendered(s.rows, now)) <==> active && now < b.graceUntil.value)
            && (b.uuid in Uuids(Rendered(s.rows, now)) <==> active)
  {
    var k := IndexOf(s.rows, b.id);
    var a := s.rows[k];
    assert Identity(a).uuid == b.uuid && Identity(a).previousUuid == b.previousUuid && Identity(a).graceUntil == b.graceUntil;
    assert RowOk(a, s.minted);
    OwnContribution(s.rows, s.minted, k, now, b.previousUuid.value);
    OwnContribution(s.rows, s.minted, k, now, b.uuid);
    ContributionUuids(a, now);
  }

  // ---------- retirement ----------

  /** Drawn once and held by no row. */
  ghost predicate Retired(s: Accounts, u: string) {
    u in s.minted && u != PLACEHOLDER.uuid && Unused(s.rows, u)
  }

  lemma StepRetired(s: Accounts, e: Event, u: string)
    requires Sane(s) && Enabled(s, e) && Retired(s, u)
    ensures Retired(Apply(s, e), u)
  {
    assert u !in Draws(e);
    if Attempt(s.rows, e).Ok? {
      match e
      case Create(id, uuid, secret, edit) =>
        assert uuid in Draws(e) && Attempt(s.rows, e).value[1..] == s.rows;
      case Update(id, edit) =>
        RetiredPut(s.rows, Normalized(Find(s.rows, id).value, edit).value, u);
      case Rotate(id, uuid, secret, now) =>
        assert uuid in Draws(e);
        RetiredPut(s.rows, Rotated(Find(s.rows, id).value, uuid, secret, now), u);
      case Delete(id) =>
        RetiredDrop(s.rows, id, u);
    }
  }

  ghost predicate Unused(rows: seq<Account>, u: string) {
    forall k :: 0 <= k < |rows| ==> u !in Uses(rows[k])
  }

  lemma RetiredPut(rows: seq<Account>, a: Account, u: string)
    requires Unused(rows, u) && u !in Uses(a)
    ensures Unused(Put(rows, a), u)
  {
    if IndexOf(rows, a.id) < |rows| {
      PutAt(rows, a);
    }
  }

  lemma RetiredDrop(rows: seq<Account>, id: string, u: string)
    requires Unused(rows, u)
    ensures Unused(Drop(rows, id), u)
  {
  }

  lemma {:induction false} RunRetired(s: Accounts, run: seq<Event>, u: string)
    requires Sane(s) && Legal(s, run) && Retired(s, u)
    ensures Retired(After(s, run), u)
    decreases |run|
  {
    if run == [] {
    } else {
      StepSane(s, run[0]);
      StepRetired(s, run[0], u);
      RunRetired(Apply(s, run[0]), run[1..], u);
    }
  }

  lemma RetiredNotRendered(s: Accounts, u: string, now: int)
    requires Retired(s, u)
    ensures u !in Uuids(Rendered(s.rows, now))
  {
    ContributedBy(s.rows, now, u);
    forall k | 0 <= k < |s.rows|
      ensures u !in Uuids(Contribution(s.rows[k], now))
    {
      ContributionUuids(s.rows[k], now);
    }
    RenderedUuids(s.rows, now, u);
  }

  /**
   The second rotation of an account drops the UUID the first one replaced, and
   deletion drops every UUID of the account, for good: on no later run and at no
   time is it rendered again.
   */
  lemma GoneForGood(s: Accounts, e: Event, run: seq<Event>, u: string, now: int)
    requires Sane(s) && Legal(s, [e] + run) && (e.Rotate? || e.Delete?) && Find(s.rows, e.id).Some?
    requires var a := Find(s.rows, e.id).value; u in Uses(a) && (e.Rotate? ==> a.previousUuid == Some(u))
    ensures u !in Uuids(Rendered(After(s, [e] + run).rows, now))
  {
    assert ([e] + run)[1..] == run;
    var i, s' := IndexOf(s.rows, e.id), Apply(s, e);
    assert RowOk(s.rows[i], s.minted);
    forall k | 0 <= k < |s'.rows|
      ensures u !in Uses(s'.rows[k])
    {
      if e.Rotate? {
        assert e.uuid in Draws(e);
        assert k != i ==> s'.rows[k] == s.rows[k] && Apart(s.rows[i], s.rows[k]);
      } else {
        var j := if k < i then k else k + 1;
        assert s'.rows[k] == s.rows[j] && Apart(s.rows[i], s.rows[j]);
      }
    }
    StepSane(s, e);
    RunRetired(s', run, u);
    RetiredNotRendered(After(s', run), u, now);
  }

  // ---------- pausing an account ----------

  /** `setProxyEnabled` as an edit. */
  function EnabledOnly(enabled: bool): Edit {
    Edit(Absent, Given(enabled), Absent, Absent, Absent)
  }

  /** The row after `setProxyEnabled`. */
  function Paused(a: Account, enabled: bool): Account {
    a.(enabled := enabled, protocols := Items(OnlyVless(NormalizeProtocols(a.protocols))))
  }

  lemma PauseStep(s: Accounts, id: string, enabled: bool)
    requires Sane(s) && Find(s.rows, id).Some?
    ensures var a := Paused(Find(s.rows, id).value, enabled);
            var t := Apply(s, Update(id, EnabledOnly(enabled)));
            && Sane(t) && t.rows == Put(s.rows, a) && Find(t.rows, id) == Some(a)
  {
    var i, a := IndexOf(s.rows, id), Paused(Find(s.rows, id).value, enabled);
    assert RowOk(s.rows[i], s.minted);
    assert Normalized(s.rows[i], EnabledOnly(enabled)) == Ok(a);
    forall j | 0 <= j < |s.rows| && s.rows[j].id != id
      ensures s.rows[j].username != a.username
    {
      assert Apart(s.rows[i], s.rows[j]);
    }
    StepSane(s, Update(id, EnabledOnly(enabled)));
    assert s.minted + {} == s.minted;
    FindPut(s.rows, s.minted, a, id);
  }

  /** Disabling an account takes its UUIDs, the one in grace included, out of every render list. */
  lemma PauseHides(s: Accounts, id: string, u: string, now: int)
    requires Sane(s) && Find(s.rows, id).Some? && u in Uses(Find(s.rows, id).value)
    ensures u !in Uuids(Rendered(Apply(s, Update(id, EnabledOnly(false))).rows, now))
  {
    PauseStep(s, id, false);
    var t := Apply(s, Update(id, EnabledOnly(false)));
    var k := IndexOf(t.rows, id);
    OwnContribution(t.rows, t.minted, k, now, u);
  }

  /** Disabling and enabling an account gives the render list back as it was, at every time. */
  lemma PauseThenResume(s: Accounts, id: string, now: int)
    requires Sane(s) && Find(s.rows, id).Some? && Find(s.rows, id).value.enabled
    ensures var t := Apply(Apply(s, Update(id, EnabledOnly(false))), Update(id, EnabledOnly(true)));
            Rendered(t.rows, now) == Rendered(s.rows, now)
  {
    PauseStep(s, id, false);
    var off := Apply(s, Update(id, EnabledOnly(false)));
    PauseStep(off, id, true);
    var t := Apply(off, Update(id, EnabledOnly(true)));
    var a := Find(s.rows, id).value;
    var b := Paused(Paused(a, false), true);
    PutAt(s.rows, Paused(a, false));
    SameIds(s.rows, off.rows, id);
    PutAt(off.rows, b);
    ProtocolFilterVacuous(a.protocols);
    ProtocolFilterVacuous(b.protocols);
    assert Contribution(b, now) == Contribution(a, now);
    SameContributions(s.rows, t.rows, now);
  }

  lemma {:induction false} SameContributions(a: seq<Account>, b: seq<Account>, now: int)
    requires |a| == |b| && forall j :: 0 <= j < |a| ==> Contribution(b[j], now) == Contribution(a[j], now)
    ensures Contributions(b, now) == Contributions(a, now)
  {
    if a == [] {
    } else {
      SameContributions(a[1..], b[1..], now);
    }
  }
}
