/**
 What the login throttle guarantees on every run of overlapping logins: the maps
 answer like a log of failure times, pruning is invisible, and the failures
 recorded for one key are bounded, in the current window and in any interval.
 */
module ThrottleLaws {
  import opened Wrappers
  import opened LoginThrottle

  predicate Legal(s: State, run: seq<Event>)
    decreases |run|
  {
    run == [] || (Enabled(s, run[0]) && Legal(Apply(s, run[0]), run[1..]))
  }

  function After(s: State, run: seq<Event>): State
    requires Legal(s, run)
    decreases |run|
  {
    if run == [] then s else After(Apply(s, run[0]), run[1..])
  }

  // ---------- map operations seen through one key ----------

  lemma {:induction false} GetSet(slots: Slots, k: string, e: Entry, key: string)
    ensures Get(Set(slots, k, e), key) == if key == k then Some(e) else Get(slots, key)
  {
    if slots == [] {
    } else {
      GetSet(slots[1..], k, e, key);
    }
  }

  lemma {:induction false} GetAbsent(slots: Slots, key: string)
    requires forall i :: 0 <= i < |slots| ==> slots[i].0 != key
    ensures Get(slots, key) == None
  {
    if slots == [] {
    } else {
      GetAbsent(slots[1..], key);
    }
  }

  lemma {:induction false} GetDelete(slots: Slots, k: string, key: string)
    requires Distinct(slots)
    ensures Get(Delete(slots, k), key) == if key == k then None else Get(slots, key)
  {
    if slots == [] {
    } else {
      if slots[0].0 == k {
        GetAbsent(slots[1..], k);
      } else {
        GetDelete(slots[1..], k, key);
      }
    }
  }

  lemma {:induction false} GetLive(slots: Slots, now: int, key: string)
    requires Distinct(slots)
    ensures Get(Live(slots, now), key) == LiveOf(Get(slots, key), now)
  {
    if slots == [] {
    } else {
      GetLive(slots[1..], now, key);
      if slots[0].1.resetAt <= now {
        assert Live(slots, now) == Live(slots[1..], now);
        if slots[0].0 == key {
          GetAbsent(slots[1..], key);
        }
      } else {
        assert Live(slots, now)[1..] == Live(slots[1..], now);
      }
    }
  }

  // ---------- keys stay distinct ----------

  ghost predicate KeysFrom(a: Slots, b: Slots) {
    forall i :: 0 <= i < |a| ==> exists j :: 0 <= j < |b| && a[i].0 == b[j].0
  }

  lemma {:induction false} DistinctSet(slots: Slots, k: string, e: Entry)
    requires Distinct(slots)
    ensures Distinct(Set(slots, k, e))
    ensures forall i :: 0 <= i < |Set(slots, k, e)| ==>
              Set(slots, k, e)[i].0 == k || exists j :: 0 <= j < |slots| && Set(slots, k, e)[i].0 == slots[j].0
  {
    if slots != [] && slots[0].0 != k {
      DistinctSet(slots[1..], k, e);
    }
  }

  lemma {:induction false} DistinctDelete(slots: Slots, k: string)
    requires Distinct(slots)
    ensures Distinct(Delete(slots, k)) && KeysFrom(Delete(slots, k), slots)
  {
    if slots != [] && slots[0].0 != k {
      DistinctDelete(slots[1..], k);
    }
  }

  lemma {:induction false} DistinctLive(slots: Slots, now: int)
    requires Distinct(slots)
    ensures Distinct(Live(slots, now)) && KeysFrom(Live(slots, now), slots)
  {
    if slots == [] {
    } else {
      DistinctLive(slots[1..], now);
    }
  }

  ghost predicate Sane(s: State) {
    Distinct(s.loginAttempts) && Distinct(s.accountAttempts)
  }

  lemma StepSane(s: State, e: Event)
    requires Sane(s) && Enabled(s, e)
    ensures Sane(Apply(s, e))
  {
    match e
    case Arrive(token, at) =>
      DistinctLive(s.loginAttempts, at);
      DistinctLive(s.accountAttempts, at);
    case Fail(i, at) =>
      var t := s.inFlight[i];
      DistinctSet(s.loginAttempts, t.ipKey, Next(Get(s.loginAttempts, t.ipKey), WindowMs(Ip), at));
      DistinctSet(s.accountAttempts, t.accountKey, Next(Get(s.accountAttempts, t.accountKey), WindowMs(Account), at));
    case Succeed(i, at) =>
      DistinctDelete(s.loginAttempts, s.inFlight[i].ipKey);
      DistinctDelete(s.accountAttempts, s.inFlight[i].accountKey);
    case Abandon(i, at) =>
  }

  // ---------- the cap ----------

  lemma {:induction false} LiveEntries(slots: Slots, now: int)
    ensures forall i :: 0 <= i < |Live(slots, now)| ==>
              Live(slots, now)[i].1.resetAt > now && Live(slots, now)[i] in slots
    ensures |Live(slots, now)| <= |slots|
  {
    if slots == [] {
    } else {
      LiveEntries(slots[1..], now);
    }
  }

  /**
   A prune leaves at most 10000 entries, all live, and what it evicts beyond the
   expired ones is the oldest-inserted part of the live entries, only as much as
   the cap asks for.
   */
  lemma PruneBound(slots: Slots, now: int)
    ensures |Prune(slots, now)| <= 10_000
    ensures forall i :: 0 <= i < |Prune(slots, now)| ==>
              Prune(slots, now)[i].1.resetAt > now && Prune(slots, now)[i] in slots
    ensures exists evicted: Slots :: Live(slots, now) == evicted + Prune(slots, now)
              && (evicted == [] || |Prune(slots, now)| == 10_000)
  {
    var live := Live(slots, now);
    LiveEntries(slots, now);
    var evicted := if |live| <= MAX_KEYS then [] else live[..|live| - MAX_KEYS];
    assert live == evicted + Prune(slots, now);
  }

  lemma {:induction false} GetSuffix(slots: Slots, n: nat, key: string)
    requires Distinct(slots) && n <= |slots|
    ensures Get(slots[n..], key) == None || Get(slots[n..], key) == Get(slots, key)
  {
    if n == 0 {
      assert slots[n..] == slots;
    } else {
      assert slots[1..][n - 1..] == slots[n..];
      GetSuffix(slots[1..], n - 1, key);
      if slots[0].0 == key {
        GetAbsent(slots[n..], key);
      }
    }
  }

  /** Pruning keeps a live entry as it is or, at the cap, drops it. */
  lemma PruneKeepsOrDrops(slots: Slots, now: int, key: string)
    requires Distinct(slots)
    ensures Get(Prune(slots, now), key) == None || Get(Prune(slots, now), key) == LiveOf(Get(slots, key), now)
  {
    GetLive(slots, now, key);
    DistinctLive(slots, now);
    var live := Live(slots, now);
    if |live| > MAX_KEYS {
      GetSuffix(live, |live| - MAX_KEYS, key);
    }
  }

  /** The key's entry, if it is still live, is not evicted for room when e happens. */
  predicate Keeps(s: State, side: Side, key: string, e: Event) {
    e.Arrive? && LiveOf(Get(Table(s, side), key), e.at).Some? ==> Get(Prune(Table(s, side), e.at), key).Some?
  }

  /** No entry that is still live is evicted for room when e happens. */
  predicate Roomy(s: State, side: Side, e: Event) {
    e.Arrive? ==> |Live(Table(s, side), e.at)| <= MAX_KEYS
  }

  lemma PruneGet(slots: Slots, now: int, key: string)
    requires Distinct(slots) && |Live(slots, now)| <= MAX_KEYS
    ensures Get(Prune(slots, now), key) == LiveOf(Get(slots, key), now)
  {
    GetLive(slots, now, key);
  }

  // ---------- the log of failure times ----------

  /** The entry a list of failure times amounts to. */
  function Fold(times: seq<int>, windowMs: nat): Option<Entry> {
    if times == [] then None
    else Some(Next(Fold(times[..|times| - 1], windowMs), windowMs, times[|times| - 1]))
  }

  /** The failure times recorded for a key since its last successful login. */
  function StepLog(log: seq<int>, s: State, e: Event, side: Side, key: string): seq<int>
    requires Enabled(s, e)
  {
    if e.Fail? && Key(s.inFlight[e.i], side) == key then log + [e.at]
    else if e.Succeed? && Key(s.inFlight[e.i], side) == key then []
    else log
  }

  function Log(log: seq<int>, s: State, run: seq<Event>, side: Side, key: string): seq<int>
    requires Legal(s, run)
    decreases |run|
  {
    if run == [] then log
    else Log(StepLog(log, s, run[0], side, key), Apply(s, run[0]), run[1..], side, key)
  }

  predicate Agrees(s: State, side: Side, key: string, log: seq<int>) {
    LiveOf(Get(Table(s, side), key), s.now) == LiveOf(Fold(log, WindowMs(side)), s.now)
  }

  lemma StepAgrees(s: State, e: Event, side: Side, key: string, log: seq<int>)
    requires Sane(s) && Enabled(s, e) && Keeps(s, side, key, e) && key != "" && Agrees(s, side, key, log)
    ensures Agrees(Apply(s, e), side, key, StepLog(log, s, e, side, key))
  {
    var slots, w := Table(s, side), WindowMs(side);
    match e
    case Arrive(token, at) =>
      PruneKeepsOrDrops(slots, at, key);
    case Fail(i, at) =>
      var k := Key(s.inFlight[i], side);
      if k != "" {
        GetSet(slots, k, Next(Get(slots, k), w, at), key);
      }
      if k == key {
        assert (log + [at])[..|log|] == log;
        assert Next(Get(slots, key), w, at) == Next(Fold(log, w), w, at);
      }
    case Succeed(i, at) =>
      GetDelete(slots, Key(s.inFlight[i], side), key);
    case Abandon(i, at) =>
  }

  predicate AlwaysKeeps(s: State, run: seq<Event>, side: Side, key: string)
    requires Legal(s, run)
    decreases |run|
  {
    run == [] || (Keeps(s, side, key, run[0]) && AlwaysKeeps(Apply(s, run[0]), run[1..], side, key))
  }

  predicate AlwaysRoomy(s: State, run: seq<Event>, side: Side)
    requires Legal(s, run)
    decreases |run|
  {
    run == [] || (Roomy(s, side, run[0]) && AlwaysRoomy(Apply(s, run[0]), run[1..], side))
  }

  lemma {:induction false} RunAgrees(s: State, run: seq<Event>, side: Side, key: string, log: seq<int>)
    requires Sane(s) && Legal(s, run) && AlwaysKeeps(s, run, side, key) && key != "" && Agrees(s, side, key, log)
    ensures Agrees(After(s, run), side, key, Log(log, s, run, side, key))
    decreases |run|
  {
    if run == [] {
    } else {
      StepSane(s, run[0]);
      StepAgrees(s, run[0], side, key, log);
      RunAgrees(Apply(s, run[0]), run[1..], side, key, StepLog(log, s, run[0], side, key));
    }
  }

  /**
   As long as the cap does not evict the key's own live entry, every later check of
   the key is answered, and every later failure counted, from the times of the
   failures since the last success on that key and from nothing else.
   */
  lemma RefinesLog(start: int, run: seq<Event>, side: Side, key: string, max: nat, now: int)
    requires Legal(Start(start), run) && AlwaysKeeps(Start(start), run, side, key) && key != ""
    requires now >= After(Start(start), run).now
    ensures var slots := Table(After(Start(start), run), side);
            var times := Log([], Start(start), run, side, key);
            && AttemptsOver(slots, key, max, now) == Over(Fold(times, WindowMs(side)), max, now)
            && Next(Get(slots, key), WindowMs(side), now) == Next(Fold(times, WindowMs(side)), WindowMs(side), now)
  {
    RunAgrees(Start(start), run, side, key, []);
  }

  // ---------- pruning is invisible ----------

  predicate BlockedUnpruned(s: State, token: Token, at: int) {
    || AttemptsOver(s.loginAttempts, token.ipKey, Max(Ip), at)
    || AttemptsOver(s.accountAttempts, token.accountKey, Max(Account), at)
  }

  /** The machine with `pruneAttempts` taken out. */
  function ApplyUnpruned(s: State, e: Event): State
    requires Enabled(s, e)
  {
    if e.Arrive? then
      s.(inFlight := if BlockedUnpruned(s, e.token, e.at) then s.inFlight else s.inFlight + [e.token], now := e.at)
    else Apply(s, e)
  }

  predicate LegalUnpruned(s: State, run: seq<Event>)
    decreases |run|
  {
    run == [] || (Enabled(s, run[0]) && LegalUnpruned(ApplyUnpruned(s, run[0]), run[1..]))
  }

  function AfterUnpruned(s: State, run: seq<Event>): State
    requires LegalUnpruned(s, run)
    decreases |run|
  {
    if run == [] then s else AfterUnpruned(ApplyUnpruned(s, run[0]), run[1..])
  }

  ghost predicate SameTable(a: Slots, b: Slots, now: int) {
    forall key :: LiveOf(Get(a, key), now) == LiveOf(Get(b, key), now)
  }

  ghost predicate Similar(p: State, u: State) {
    && Sane(p) && Sane(u) && p.now == u.now && p.inFlight == u.inFlight
    && SameTable(p.loginAttempts, u.loginAttempts, p.now)
    && SameTable(p.accountAttempts, u.accountAttempts, p.now)
  }

  lemma SameTablePrune(a: Slots, b: Slots, now: int, at: int)
    requires Distinct(a) && SameTable(a, b, now) && now <= at && |Live(a, at)| <= MAX_KEYS
    ensures SameTable(Prune(a, at), b, at)
  {
    forall key
      ensures LiveOf(Get(Prune(a, at), key), at) == LiveOf(Get(b, key), at)
    {
      PruneGet(a, at, key);
      assert LiveOf(Get(a, key), now) == LiveOf(Get(b, key), now);
    }
  }

  lemma SameTableBump(a: Slots, b: Slots, k: string, w: nat, now: int, at: int)
    requires SameTable(a, b, now) && now <= at
    ensures SameTable(Bump(a, k, w, at), Bump(b, k, w, at), at)
  {
    forall key
      ensures LiveOf(Get(Bump(a, k, w, at), key), at) == LiveOf(Get(Bump(b, k, w, at), key), at)
    {
      GetSet(a, k, Next(Get(a, k), w, at), key);
      GetSet(b, k, Next(Get(b, k), w, at), key);
      assert LiveOf(Get(a, key), now) == LiveOf(Get(b, key), now);
    }
  }

  lemma SameTableDelete(a: Slots, b: Slots, k: string, now: int, at: int)
    requires Distinct(a) && Distinct(b) && SameTable(a, b, now) && now <= at
    ensures SameTable(Delete(a, k), Delete(b, k), at)
  {
    forall key
      ensures LiveOf(Get(Delete(a, k), key), at) == LiveOf(Get(Delete(b, k), key), at)
    {
      GetDelete(a, k, key);
      GetDelete(b, k, key);
      assert LiveOf(Get(a, key), now) == LiveOf(Get(b, key), now);
    }
  }

  lemma SameTableLater(a: Slots, b: Slots, now: int, at: int)
    requires SameTable(a, b, now) && now <= at
    ensures SameTable(a, b, at)
  {
    forall key
      ensures LiveOf(Get(a, key), at) == LiveOf(Get(b, key), at)
    {
      assert LiveOf(Get(a, key), now) == LiveOf(Get(b, key), now);
    }
  }

  lemma SameAnswer(p: State, u: State, e: Event)
    requires Similar(p, u) && Enabled(p, e) && e.Arrive? && Roomy(p, Ip, e) && Roomy(p, Account, e)
    ensures Blocked(p, e.token, e.at) == BlockedUnpruned(u, e.token, e.at)
  {
    SameTablePrune(p.loginAttempts, u.loginAttempts, p.now, e.at);
    SameTablePrune(p.accountAttempts, u.accountAttempts, p.now, e.at);
    var i, a := e.token.ipKey, e.token.accountKey;
    assert LiveOf(Get(Prune(p.loginAttempts, e.at), i), e.at) == LiveOf(Get(u.loginAttempts, i), e.at);
    assert LiveOf(Get(Prune(p.accountAttempts, e.at), a), e.at) == LiveOf(Get(u.accountAttempts, a), e.at);
  }

  lemma StepSimilar(p: State, u: State, e: Event)
    requires Similar(p, u) && Enabled(p, e) && Roomy(p, Ip, e) && Roomy(p, Account, e)
    ensures Similar(Apply(p, e), ApplyUnpruned(u, e))
  {
    StepSane(p, e);
    match e
    case Arrive(token, at) =>
      SameAnswer(p, u, e);
      SameTablePrune(p.loginAttempts, u.loginAttempts, p.now, at);
      SameTablePrune(p.accountAttempts, u.accountAttempts, p.now, at);
    case Fail(i, at) =>
      StepSane(u, e);
      SameTableBump(p.loginAttempts, u.loginAttempts, p.inFlight[i].ipKey, WindowMs(Ip), p.now, at);
      SameTableBump(p.accountAttempts, u.accountAttempts, p.inFlight[i].accountKey, WindowMs(Account), p.now, at);
    case Succeed(i, at) =>
      StepSane(u, e);
      SameTableDelete(p.loginAttempts, u.loginAttempts, p.inFlight[i].ipKey, p.now, at);
      SameTableDelete(p.accountAttempts, u.accountAttempts, p.inFlight[i].accountKey, p.now, at);
      SameTableLater(p.accountAttempts, u.accountAttempts, p.now, at);
    case Abandon(i, at) =>
      SameTableLater(p.loginAttempts, u.loginAttempts, p.now, at);
      SameTableLater(p.accountAttempts, u.accountAttempts, p.now, at);
  }

  lemma {:induction false} RunSimilar(p: State, u: State, run: seq<Event>)
    requires Similar(p, u) && Legal(p, run) && AlwaysRoomy(p, run, Ip) && AlwaysRoomy(p, run, Account)
    ensures LegalUnpruned(u, run) && Similar(After(p, run), AfterUnpruned(u, run))
    decreases |run|
  {
    if run == [] {
    } else {
      StepSimilar(p, u, run[0]);
      RunSimilar(Apply(p, run[0]), ApplyUnpruned(u, run[0]), run[1..]);
    }
  }

  /**
   Below the cap the throttle with pruning and the throttle without it admit the
   same logins and keep the same live counts, on every run.
   */
  lemma PruningInvisible(start: int, run: seq<Event>)
    requires Legal(Start(start), run)
    requires AlwaysRoomy(Start(start), run, Ip) && AlwaysRoomy(Start(start), run, Account)
    ensures LegalUnpruned(Start(start), run)
    ensures var p, u := After(Start(start), run), AfterUnpruned(Start(start), run);
            && p.inFlight == u.inFlight
            && (forall side, key :: LiveOf(Get(Table(p, side), key), p.now) == LiveOf(Get(Table(u, side), key), p.now))
  {
    RunSimilar(Start(start), Start(start), run);
  }
}
