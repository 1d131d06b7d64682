/**
 The login throttle in numbers: which logins are admitted, read off the times
 of the failures, and the rates a sequential guesser reaches.
 */
module ThrottleLimits {
  import opened Wrappers
  import opened LoginThrottle
  import opened ThrottleLaws
  import opened ThrottleBounds

  // ---------- the count of a fixed window, from the times alone ----------

  /** How many of the times come before the first one that is not below the limit. */
  function Leading(times: seq<int>, limit: int): (n: nat)
    ensures n <= |times|
  {
    if times == [] || times[0] >= limit then 0 else 1 + Leading(times[1..], limit)
  }

  /**
   Failures in the window that is open at the given time: the first failure opens a
   window of length w, and the first one after its end opens the next.
   */
  function Counted(times: seq<int>, w: nat, now: int): (n: nat)
    requires w > 0
    decreases |times|
  {
    if times == [] then 0
    else
      var n := Leading(times, times[0] + w);
      if n < |times| then Counted(times[n..], w, now)
      else if now < times[0] + w then n
      else 0
  }

  lemma {:induction false} LeadingBelow(times: seq<int>, limit: int)
    ensures var n := Leading(times, limit);
            && (forall i :: 0 <= i < n ==> times[i] < limit)
            && (n < |times| ==> times[n] >= limit)
  {
    if times == [] || times[0] >= limit {
    } else {
      LeadingBelow(times[1..], limit);
    }
  }

  lemma {:induction false} FoldWindow(times: seq<int>, w: nat, k: nat)
    requires 0 < k <= |times| && w > 0 && forall i :: 0 <= i < k ==> times[i] < times[0] + w
    ensures Fold(times[..k], w) == Some(Entry(k, times[0] + w))
  {
    var part := times[..k];
    assert part[..k - 1] == times[..k - 1] && part[k - 1] == times[k - 1];
    if k == 1 {
    } else {
      FoldWindow(times, w, k - 1);
    }
  }

  /** Once a window is over, what came before the next failure no longer matters. */
  lemma {:induction false} FoldRestarts(a: seq<int>, b: seq<int>, w: nat)
    requires b != [] && LiveOf(Fold(a, w), b[0]) == None
    ensures Fold(a + b, w) == Fold(b, w)
  {
    var init, last := b[..|b| - 1], b[|b| - 1];
    assert (a + b)[..|a + b| - 1] == a + init && (a + b)[|a + b| - 1] == last;
    if init == [] {
      assert a + init == a;
    } else {
      FoldRestarts(a, init, w);
    }
  }

  lemma {:induction false} FoldCounts(times: seq<int>, w: nat, now: int)
    requires w > 0
    ensures CountOf(LiveOf(Fold(times, w), now)) == Counted(times, w, now)
    decreases |times|
  {
    if times == [] {
    } else {
      var n := Leading(times, times[0] + w);
      LeadingBelow(times, times[0] + w);
      FoldWindow(times, w, n);
      assert times == times[..n] + times[n..];
      if n < |times| {
        FoldRestarts(times[..n], times[n..], w);
        FoldCounts(times[n..], w, now);
      } else {
        assert times[..n] == times;
      }
    }
  }

  // ---------- admission ----------

  /** The cap never evicts the key's own live entry, in the run and at the next check; keyless sides have none. */
  ghost predicate Unevicted(start: int, run: seq<Event>, side: Side, token: Token, at: int)
    requires Legal(Start(start), run)
  {
    var key := Key(token, side);
    key != "" ==> && AlwaysKeeps(Start(start), run, side, key)
                  && Keeps(After(Start(start), run), side, key, Event.Arrive(token, at))
  }

  function FailureTimes(start: int, run: seq<Event>, side: Side, key: string): seq<int>
    requires Legal(Start(start), run)
  {
    Log([], Start(start), run, side, key)
  }

  lemma {:induction false} RunSane(s: State, run: seq<Event>)
    requires Sane(s) && Legal(s, run)
    ensures Sane(After(s, run))
    decreases |run|
  {
    if run == [] {
    } else {
      StepSane(s, run[0]);
      RunSane(Apply(s, run[0]), run[1..]);
    }
  }

  lemma SideAnswer(start: int, run: seq<Event>, side: Side, token: Token, at: int, max: nat)
    requires Legal(Start(start), run) && Unevicted(start, run, side, token, at) && Key(token, side) != ""
    requires at >= After(Start(start), run).now && max > 0
    ensures AttemptsOver(Prune(Table(After(Start(start), run), side), at), Key(token, side), max, at)
        <==> Counted(FailureTimes(start, run, side, Key(token, side)), WindowMs(side), at) >= max
  {
    var s, key := After(Start(start), run), Key(token, side);
    RunSane(Start(start), run);
    PruneKeepsOrDrops(Table(s, side), at, key);
    RunAgrees(Start(start), run, side, key, []);
    FoldCounts(FailureTimes(start, run, side, key), WindowMs(side), at);
  }

  /**
   A login is admitted exactly when fewer than 5 failures count against its IP in the
   current minute and fewer than 10 against its account in the current quarter of an
   hour, out of the failures since the last success on that key.
   */
  lemma AdmittedIff(start: int, run: seq<Event>, token: Token, at: int)
    requires Legal(Start(start), run) && at >= After(Start(start), run).now
    requires Unevicted(start, run, Ip, token, at) && Unevicted(start, run, Account, token, at)
    ensures !Blocked(After(Start(start), run), token, at)
       <==> && (token.ipKey == "" || Counted(FailureTimes(start, run, Ip, token.ipKey), 60_000, at) < 5)
            && (token.accountKey == "" || Counted(FailureTimes(start, run, Account, token.accountKey), 900_000, at) < 10)
  {
    if token.ipKey != "" {
      SideAnswer(start, run, Ip, token, at, 5);
    }
    if token.accountKey != "" {
      SideAnswer(start, run, Account, token, at, 10);
    }
  }

  // ---------- the rates of a sequential guesser ----------

  /** A run of one login at a time on the key, all of them failing. */
  ghost predicate Guesses(run: seq<Event>, side: Side, key: string) {
    && Legal(Start(0), run) && Overlap(Start(0), run, side, key, 1) && Hostile(Start(0), run, side, key)
  }

  /** Nine failures in one minute on one IP and nineteen in a quarter of an hour on one account are reached. */
  lemma GuesserRates(key: string)
    requires key != ""
    ensures exists run: seq<Event> :: Guesses(run, Ip, key) && CountIn(FailureTimes(0, run, Ip, key), 59_999, 119_999) == 9
    ensures exists run: seq<Event> :: Guesses(run, Account, key) && CountIn(FailureTimes(0, run, Account, key), 899_999, 1_799_999) == 19
  {
    var r := MetRate(Ip, key, 59_999, 119_999, 9);
    var q := MetRate(Account, key, 899_999, 1_799_999, 19);
  }

  lemma MetRate(side: Side, key: string, lo: int, hi: int, n: nat) returns (run: seq<Event>)
    requires key != "" && lo == WindowMs(side) - 1 && hi == 2 * WindowMs(side) - 1 && n == 2 * Max(side) - 1
    ensures Guesses(run, side, key) && CountIn(FailureTimes(0, run, side, key), lo, hi) == n
  {
    BoundIsMet(side, key, 1);
    run :| Legal(Start(0), run) && Overlap(Start(0), run, side, key, 1) && Hostile(Start(0), run, side, key)
           && CountIn(Log([], Start(0), run, side, key), WindowMs(side) - 1, 2 * WindowMs(side) - 1)
              == 2 * (Max(side) - 1 + 1) - 1;
  }

  // ---------- insertion order ----------

  /** A new key goes to the end of the map; a present one keeps its place. */
  lemma {:induction false} SetPlace(a: Slots, k: string, e0: Entry, b: Slots, e: Entry)
    requires forall i :: 0 <= i < |a| ==> a[i].0 != k
    ensures Set(a, k, e) == a + [(k, e)]
    ensures Set(a + ([(k, e0)] + b), k, e) == a + ([(k, e)] + b)
    ensures Delete(a + ([(k, e0)] + b), k) == a + b
  {
    var slots := a + ([(k, e0)] + b);
    if a == [] {
      assert slots[0] == (k, e0) && slots[1..] == b && a + b == b;
    } else {
      SetPlace(a[1..], k, e0, b, e);
      assert slots[0] == a[0] && slots[1..] == a[1..] + ([(k, e0)] + b);
      assert [a[0]] + (a[1..] + b) == a + b;
    }
  }

  /** With 10000 live entries in the map, the next failure of a new key pushes out the entry inserted first. */
  lemma OldestEvicted(slots: Slots, key: string, w: nat, now: int)
    requires |slots| == 10_000 && key != "" && w > 0
    requires forall i :: 0 <= i < |slots| ==> slots[i].0 != key && slots[i].1.resetAt > now
    ensures Prune(slots, now) == slots
    ensures Prune(Bump(slots, key, w, now), now) == slots[1..] + [(key, Entry(1, now + w))]
  {
    GetAbsent(slots, key);
    AllLive(slots, now);
    SetPlace(slots, key, Entry(0, 0), [], Entry(1, now + w));
    AllLive(slots + [(key, Entry(1, now + w))], now);
  }

  lemma {:induction false} AllLive(slots: Slots, now: int)
    requires forall i :: 0 <= i < |slots| ==> slots[i].1.resetAt > now
    ensures Live(slots, now) == slots
  {
    if slots == [] {
    } else {
      AllLive(slots[1..], now);
    }
  }
}
