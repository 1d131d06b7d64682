/**
 The login throttle of apps/api/src/app.ts: two insertion-ordered maps of fixed
 windows, pruned and capped on every check. A check and the record of its
 outcome are separate steps with other requests in between.
 */
module LoginThrottle {
  import opened Wrappers

  datatype Entry = Entry(count: nat, resetAt: int)

  /** A JavaScript Map: its entries in insertion order, keys distinct. */
  type Slots = seq<(string, Entry)>

  const MAX_KEYS: nat := 10_000

  ghost predicate Distinct(slots: Slots) {
    forall i, j :: 0 <= i < j < |slots| ==> slots[i].0 != slots[j].0
  }

  // ---------- Map operations ----------

  /** `attempts.get(key)` */
  function Get(slots: Slots, key: string): Option<Entry> {
    if slots == [] then None
    else if slots[0].0 == key then Some(slots[0].1)
    else Get(slots[1..], key)
  }

  /** `attempts.set(key, entry)`: a present key keeps its place. */
  function Set(slots: Slots, key: string, entry: Entry): Slots {
    if slots == [] then [(key, entry)]
    else if slots[0].0 == key then [(key, entry)] + slots[1..]
    else [slots[0]] + Set(slots[1..], key, entry)
  }

  /** `attempts.delete(key)` */
  function Delete(slots: Slots, key: string): Slots {
    if slots == [] then []
    else if slots[0].0 == key then slots[1..]
    else [slots[0]] + Delete(slots[1..], key)
  }

  // ---------- specification ----------

  function Live(slots: Slots, now: int): Slots {
    if slots == [] then []
    else (if slots[0].1.resetAt <= now then [] else [slots[0]]) + Live(slots[1..], now)
  }

  function Newest(slots: Slots, n: nat): Slots {
    if |slots| <= n then slots else slots[|slots| - n..]
  }

  /** `pruneAttempts`: expired entries go, then the oldest-inserted beyond the cap. */
  function Prune(slots: Slots, now: int): Slots {
    Newest(Live(slots, now), MAX_KEYS)
  }

  /** An entry that still counts at the given time. */
  function LiveOf(entry: Option<Entry>, now: int): Option<Entry> {
    if entry.Some? && entry.value.resetAt > now then entry else None
  }

  /** `attemptsOver`. */
  predicate AttemptsOver(slots: Slots, key: string, max: nat, now: int) {
    key != "" && Over(Get(slots, key), max, now)
  }

  predicate Over(entry: Option<Entry>, max: nat, now: int) {
    LiveOf(entry, now).Some? && entry.value.count >= max
  }

  function Next(entry: Option<Entry>, windowMs: nat, now: int): Entry {
    if LiveOf(entry, now).None? then Entry(1, now + windowMs) else Entry(entry.value.count + 1, entry.value.resetAt)
  }

  /** `bumpAttempts`. */
  function Bump(slots: Slots, key: string, windowMs: nat, now: int): Slots {
    if key == "" then slots else Set(slots, key, Next(Get(slots, key), windowMs, now))
  }

  // ---------- the two maps and the logins in flight ----------

  datatype Side = Ip | Account

  function WindowMs(side: Side): nat { if side.Ip? then 60_000 else 900_000 }

  function Max(side: Side): nat { if side.Ip? then 5 else 10 }

  /** The keys a passed check hands to the step that records the outcome. */
  datatype Token = Token(ipKey: string, accountKey: string)

  function Key(token: Token, side: Side): string {
    if side.Ip? then token.ipKey else token.accountKey
  }

  datatype State = State(loginAttempts: Slots, accountAttempts: Slots, inFlight: seq<Token>, now: int)

  function Table(s: State, side: Side): Slots {
    if side.Ip? then s.loginAttempts else s.accountAttempts
  }

  datatype Event =
    | Arrive(token: Token, at: int)  // checkLoginThrottle, then the call of the auth handler if it passes
    | Fail(i: nat, at: int)          // the handler of the i-th login in flight rejects: recordFailedLogin
    | Succeed(i: nat, at: int)       // it accepts: clearLoginThrottle
    | Abandon(i: nat, at: int)       // it throws

  predicate Blocked(s: State, token: Token, at: int) {
    || AttemptsOver(Prune(s.loginAttempts, at), token.ipKey, Max(Ip), at)
    || AttemptsOver(Prune(s.accountAttempts, at), token.accountKey, Max(Account), at)
  }

  predicate Enabled(s: State, e: Event) {
    s.now <= e.at && (!e.Arrive? ==> e.i < |s.inFlight|)
  }

  function Without(tokens: seq<Token>, i: nat): seq<Token>
    requires i < |tokens|
  {
    tokens[..i] + tokens[i + 1..]
  }

  function Apply(s: State, e: Event): State
    requires Enabled(s, e)
  {
    match e
    case Arrive(token, at) =>
      State(Prune(s.loginAttempts, at), Prune(s.accountAttempts, at),
            if Blocked(s, token, at) then s.inFlight else s.inFlight + [token], at)
    case Fail(i, at) =>
      var t := s.inFlight[i];
      State(Bump(s.loginAttempts, t.ipKey, WindowMs(Ip), at),
            Bump(s.accountAttempts, t.accountKey, WindowMs(Account), at), Without(s.inFlight, i), at)
    case Succeed(i, at) =>
      var t := s.inFlight[i];
      State(Delete(s.loginAttempts, t.ipKey),
            if t.accountKey == "" then s.accountAttempts else Delete(s.accountAttempts, t.accountKey),
            Without(s.inFlight, i), at)
    case Abandon(i, at) => s.(inFlight := Without(s.inFlight, i), now := at)
  }

  function Start(now: int): State { State([], [], [], now) }

  // ---------- the code ----------

  /** One of the two module-level maps. */
  class AttemptMap {
    var slots: Slots

    constructor ()
      ensures slots == []
    {
      slots := [];
    }

    /** `pruneAttempts`: the delete loop, then the eviction loop. */
    method PruneAttempts(now: int)
      modifies this
      ensures slots == Prune(old(slots), now)
    {
      var i := 0;
      ghost var live := Live(slots, now);
      while i < |slots|
        invariant 0 <= i <= |slots|
        invariant slots[..i] + Live(slots[i..], now) == live
        decreases |slots| - i
      {
        assert slots[i..][1..] == slots[i + 1..];
        ghost var kept := slots[..i];
        if slots[i].1.resetAt <= now {
          ghost var tail := slots[i + 1..];
          slots := slots[..i] + slots[i + 1..];
          assert slots[..i] == kept && slots[i..] == tail;
          assert [] + Live(tail, now) == Live(tail, now);
        } else {
          assert slots[..i + 1] == kept + [slots[i]];
          i := i + 1;
        }
      }
      assert slots == live;
      while |slots| > MAX_KEYS
        invariant |slots| <= |live| && slots == live[|live| - |slots|..]
        invariant |live| > MAX_KEYS ==> |slots| >= MAX_KEYS
        invariant |live| <= MAX_KEYS ==> slots == live
      {
        slots := slots[1..];
      }
    }

    /** `bumpAttempts`. */
    method BumpAttempts(key: string, windowMs: nat, now: int)
      modifies this
      ensures slots == Bump(old(slots), key, windowMs, now)
    {
      if key == "" {
        return;
      }
      var current := Get(slots, key);
      if current.None? || current.value.resetAt <= now {
        slots := Set(slots, key, Entry(1, now + windowMs));
        return;
      }
      slots := Set(slots, key, Entry(current.value.count + 1, current.value.resetAt));
    }
  }

  class Throttle {
    const loginAttempts: AttemptMap
    const accountAttempts: AttemptMap
    var inFlight: seq<Token>
    var clock: int

    ghost predicate Valid()
      reads this
    {
      loginAttempts != accountAttempts
    }

    ghost function View(): State
      reads this, loginAttempts, accountAttempts
    {
      State(loginAttempts.slots, accountAttempts.slots, inFlight, clock)
    }

    constructor (now: int)
      ensures Valid() && View() == Start(now)
      ensures fresh(loginAttempts) && fresh(accountAttempts)
    {
      loginAttempts := new AttemptMap();
      accountAttempts := new AttemptMap();
      inFlight := [];
      clock := now;
    }

    /** `checkLoginThrottle` and, when it passes, the start of the auth call. */
    method Arrive(token: Token, at: int) returns (ok: bool)
      requires Valid() && clock <= at
      modifies this, loginAttempts, accountAttempts
      ensures View() == Apply(old(View()), Event.Arrive(token, at))
      ensures ok <==> !Blocked(old(View()), token, at)
    {
      loginAttempts.PruneAttempts(at);
      accountAttempts.PruneAttempts(at);
      clock := at;
      ok := !(AttemptsOver(loginAttempts.slots, token.ipKey, Max(Ip), at)
              || AttemptsOver(accountAttempts.slots, token.accountKey, Max(Account), at));
      if ok {
        inFlight := inFlight + [token];
      }
    }

    /** `recordFailedLogin`, when the auth call of the i-th login rejects. */
    method RecordFailedLogin(i: nat, at: int)
      requires Valid() && Enabled(View(), Fail(i, at))
      modifies this, loginAttempts, accountAttempts
      ensures View() == Apply(old(View()), Fail(i, at))
    {
      var token := inFlight[i];
      loginAttempts.BumpAttempts(token.ipKey, WindowMs(Ip), at);
      accountAttempts.BumpAttempts(token.accountKey, WindowMs(Account), at);
      inFlight := Without(inFlight, i);
      clock := at;
    }

    /** `clearLoginThrottle`, when it accepts. */
    method ClearLoginThrottle(i: nat, at: int)
      requires Valid() && Enabled(View(), Succeed(i, at))
      modifies this, loginAttempts, accountAttempts
      ensures View() == Apply(old(View()), Succeed(i, at))
    {
      var token := inFlight[i];
      loginAttempts.slots := Delete(loginAttempts.slots, token.ipKey);
      if token.accountKey != "" {
        accountAttempts.slots := Delete(accountAttempts.slots, token.accountKey);
      }
      inFlight := Without(inFlight, i);
      clock := at;
    }
  }
}
