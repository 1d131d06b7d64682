/**
 The numbers behind the login throttle: how many failures one key can collect in
 its current window, and in any interval of one window length.
 */
module ThrottleBounds {
  import opened Wrappers
  import opened LoginThrottle
  import opened ThrottleLaws

  // ---------- the count plus the logins in flight ----------

  /** Logins on this key that have passed the check and not yet been recorded. */
  function Pending(tokens: seq<Token>, side: Side, key: string): nat {
    if tokens == [] then 0
    else (if Key(tokens[0], side) == key then 1 else 0) + Pending(tokens[1..], side, key)
  }

  function CountOf(entry: Option<Entry>): nat {
    if entry.Some? then entry.value.count else 0
  }

  function LiveCount(s: State, side: Side, key: string): nat {
    CountOf(LiveOf(Get(Table(s, side), key), s.now))
  }

  /** At most m logins on this key are between check and record, all along the run. */
  predicate Overlap(s: State, run: seq<Event>, side: Side, key: string, m: nat)
    requires Legal(s, run)
    decreases |run|
  {
    && Pending(s.inFlight, side, key) <= m
    && (run == [] || Overlap(Apply(s, run[0]), run[1..], side, key, m))
  }

  lemma {:induction false} PendingAppend(tokens: seq<Token>, t: Token, side: Side, key: string)
    ensures Pending(tokens + [t], side, key) == Pending(tokens, side, key) + if Key(t, side) == key then 1 else 0
  {
    if tokens == [] {
      assert tokens + [t] == [t];
      assert Pending([], side, key) == 0;
    } else {
      assert (tokens + [t])[1..] == tokens[1..] + [t];
      PendingAppend(tokens[1..], t, side, key);
    }
  }

  lemma {:induction false} PendingWithout(tokens: seq<Token>, i: nat, side: Side, key: string)
    requires i < |tokens|
    ensures Pending(Without(tokens, i), side, key)
         == Pending(tokens, side, key) - if Key(tokens[i], side) == key then 1 else 0
  {
    if i == 0 {
      assert Without(tokens, i) == tokens[1..];
    } else {
      assert Without(tokens, i)[1..] == Without(tokens[1..], i - 1);
      PendingWithout(tokens[1..], i - 1, side, key);
    }
  }

  lemma StepCount(s: State, e: Event, side: Side, key: string, m: nat)
    requires Sane(s) && Enabled(s, e) && key != ""
    requires LiveCount(s, side, key) + Pending(s.inFlight, side, key) <= Max(side) - 1 + m
    requires Pending(Apply(s, e).inFlight, side, key) <= m
    ensures LiveCount(Apply(s, e), side, key) + Pending(Apply(s, e).inFlight, side, key) <= Max(side) - 1 + m
  {
    var slots := Table(s, side);
    match e
    case Arrive(token, at) =>
      PruneKeepsOrDrops(slots, at, key);
      PendingAppend(s.inFlight, token, side, key);
    case Fail(i, at) =>
      var k := Key(s.inFlight[i], side);
      PendingWithout(s.inFlight, i, side, key);
      GetSet(slots, k, Next(Get(slots, k), WindowMs(side), at), key);
    case Succeed(i, at) =>
      PendingWithout(s.inFlight, i, side, key);
      GetDelete(slots, Key(s.inFlight[i], side), key);
    case Abandon(i, at) =>
      PendingWithout(s.inFlight, i, side, key);
  }

  lemma {:induction false} RunCount(s: State, run: seq<Event>, side: Side, key: string, m: nat)
    requires Sane(s) && Legal(s, run) && Overlap(s, run, side, key, m) && key != ""
    requires LiveCount(s, side, key) + Pending(s.inFlight, side, key) <= Max(side) - 1 + m
    ensures LiveCount(After(s, run), side, key) + Pending(After(s, run).inFlight, side, key) <= Max(side) - 1 + m
    decreases |run|
  {
    if run == [] {
    } else {
      StepSane(s, run[0]);
      StepCount(s, run[0], side, key, m);
      RunCount(Apply(s, run[0]), run[1..], side, key, m);
    }
  }

  /**
   With at most m logins on a key between check and record, the key's live count
   plus those logins never exceeds Max - 1 + m. Successes and evictions on the
   key are allowed: they only lower the count.
   */
  lemma CountBound(start: int, run: seq<Event>, side: Side, key: string, m: nat)
    requires Legal(Start(start), run) && Overlap(Start(start), run, side, key, m) && key != ""
    ensures var s := After(Start(start), run);
            LiveCount(s, side, key) + Pending(s.inFlight, side, key) <= Max(side) - 1 + m
  {
    RunCount(Start(start), run, side, key, m);
  }

  // ---------- lists of failure times ----------

  predicate Sorted(times: seq<int>) {
    times == [] || (Sorted(times[..|times| - 1])
                    && (|times| > 1 ==> times[|times| - 2] <= times[|times| - 1]))
  }

  /** At no point does the window's count exceed most. */
  predicate Small(times: seq<int>, windowMs: nat, most: nat) {
    times == [] || (Small(times[..|times| - 1], windowMs, most) && CountOf(Fold(times, windowMs)) <= most)
  }

  /** How many of the times lie in the half-open interval from lo to hi. */
  function CountIn(times: seq<int>, lo: int, hi: int): nat {
    if times == [] then 0
    else CountIn(times[..|times| - 1], lo, hi) + if lo <= times[|times| - 1] < hi then 1 else 0
  }

  lemma {:induction false} CountInWider(times: seq<int>, lo: int, hi: int, lo': int, hi': int)
    requires lo' <= lo && hi <= hi'
    ensures CountIn(times, lo, hi) <= CountIn(times, lo', hi')
  {
    if times == [] {
    } else {
      CountInWider(times[..|times| - 1], lo, hi, lo', hi');
    }
  }

  lemma {:induction false} CountInSplit(times: seq<int>, lo: int, mid: int, hi: int)
    requires lo <= mid <= hi
    ensures CountIn(times, lo, hi) == CountIn(times, lo, mid) + CountIn(times, mid, hi)
  {
    if times == [] {
    } else {
      CountInSplit(times[..|times| - 1], lo, mid, hi);
    }
  }

  /** All entries lie below hi. */
  predicate Below(times: seq<int>, hi: int) {
    forall i :: 0 <= i < |times| ==> times[i] < hi
  }

  lemma {:induction false} SortedBelow(times: seq<int>, hi: int)
    requires Sorted(times) && (times == [] || times[|times| - 1] < hi)
    ensures Below(times, hi)
  {
    if times == [] {
    } else {
      SortedBelow(times[..|times| - 1], hi);
    }
  }

  lemma {:induction false} CountInBeyond(times: seq<int>, lo: int, hi: int)
    requires Below(times, lo)
    ensures CountIn(times, lo, hi) == 0
  {
    if times == [] {
    } else {
      CountInBeyond(times[..|times| - 1], lo, hi);
    }
  }

  /** Where the current window starts. */
  function WindowStart(times: seq<int>, windowMs: nat): int
    requires times != []
  {
    Fold(times, windowMs).value.resetAt - windowMs
  }

  /** The current window holds the counted times, at most all but one after its start. */
  ghost predicate InWindow(times: seq<int>, w: nat) {
    times != [] ==>
      var start, n := WindowStart(times, w), Fold(times, w).value.count;
      && start <= times[|times| - 1] < start + w
      && CountIn(times, start, start + w) == n
      && CountIn(times, start + 1, start + w) <= n - 1
  }

  lemma {:induction false} WindowHolds(times: seq<int>, w: nat)
    requires Sorted(times) && w > 0
    ensures InWindow(times, w)
  {
    if times == [] {
    } else {
      var before, x := times[..|times| - 1], times[|times| - 1];
      WindowHolds(before, w);
      if LiveOf(Fold(before, w), x).None? {
        assert before != [] ==> before[|before| - 1] < x;
        SortedBelow(before, x);
        CountInBeyond(before, x, x + w);
        CountInBeyond(before, x + 1, x + w);
      } else {
        assert before[|before| - 1] <= x;
      }
    }
  }

  /** Fewer than most times of the window before the current one come after t. */
  lemma {:induction false} BeforeWindow(times: seq<int>, w: nat, most: nat, t: int)
    requires Sorted(times) && Small(times, w, most) && w > 0 && times != []
    requires WindowStart(times, w) - w < t <= WindowStart(times, w)
    ensures CountIn(times, t, WindowStart(times, w)) <= most - 1
  {
    var before, x := times[..|times| - 1], times[|times| - 1];
    WindowHolds(times, w);
    if before == [] {
    } else {
      WindowHolds(before, w);
      var start := WindowStart(before, w);
      if LiveOf(Fold(before, w), x).None? {
        SortedBelow(before, start + w);
        CountInSplit(before, start + 1, start + w, x);
        CountInSplit(before, start + 1, t, x);
        CountInBeyond(before, start + w, x);
        CountInSplit(before, start, start + w, x);
      } else {
        BeforeWindow(before, w, most, t);
      }
    }
  }

  /** Any half-open interval of one window length holds fewer than twice that many. */
  lemma {:induction false} AnyInterval(times: seq<int>, w: nat, most: nat, t: int)
    requires Sorted(times) && Small(times, w, most) && w > 0 && most > 0
    ensures CountIn(times, t, t + w) <= 2 * most - 1
  {
    if times == [] {
    } else {
      var x := times[|times| - 1];
      AnyInterval(times[..|times| - 1], w, most, t);
      WindowHolds(times, w);
      var start := WindowStart(times, w);
      if t <= x < t + w {
        SortedBelow(times, start + w);
        if t <= start {
          BeforeWindow(times, w, most, t);
          CountInSplit(times, t, start, t + w);
          CountInWider(times, start, t + w, start, start + w);
        } else {
          CountInSplit(times, t, start + w, t + w);
          CountInBeyond(times, start + w, t + w);
          CountInWider(times, t, start + w, start, start + w);
        }
      }
    }
  }

  // ---------- runs without a success or an eviction on the key ----------

  /** No login on the key succeeds and the cap does not evict the key's live entry. */
  predicate Hostile(s: State, run: seq<Event>, side: Side, key: string)
    requires Legal(s, run)
    decreases |run|
  {
    run == [] || (&& Keeps(s, side, key, run[0])
                  && !(run[0].Succeed? && Key(s.inFlight[run[0].i], side) == key)
                  && Hostile(Apply(s, run[0]), run[1..], side, key))
  }

  ghost predicate Recorded(s: State, side: Side, key: string, times: seq<int>, m: nat) {
    && Sane(s) && Agrees(s, side, key, times)
    && LiveCount(s, side, key) + Pending(s.inFlight, side, key) <= Max(side) - 1 + m
    && Sorted(times) && Small(times, WindowMs(side), Max(side) - 1 + m)
    && (times != [] ==> times[|times| - 1] <= s.now)
  }

  lemma StepRecorded(s: State, e: Event, side: Side, key: string, times: seq<int>, m: nat)
    requires Recorded(s, side, key, times, m) && Enabled(s, e) && Keeps(s, side, key, e) && key != ""
    requires !(e.Succeed? && Key(s.inFlight[e.i], side) == key)
    requires Pending(Apply(s, e).inFlight, side, key) <= m
    ensures Recorded(Apply(s, e), side, key, StepLog(times, s, e, side, key), m)
  {
    StepSane(s, e);
    StepAgrees(s, e, side, key, times);
    StepCount(s, e, side, key, m);
    if e.Fail? && Key(s.inFlight[e.i], side) == key {
      var after := times + [e.at];
      assert after[..|after| - 1] == times;
      assert LiveOf(Fold(after, WindowMs(side)), e.at) == Fold(after, WindowMs(side));
    }
  }

  lemma {:induction false} RunRecorded(s: State, run: seq<Event>, side: Side, key: string, times: seq<int>, m: nat)
    requires Recorded(s, side, key, times, m) && key != ""
    requires Legal(s, run) && Overlap(s, run, side, key, m) && Hostile(s, run, side, key)
    ensures Recorded(After(s, run), side, key, Log(times, s, run, side, key), m)
    decreases |run|
  {
    if run == [] {
    } else {
      StepRecorded(s, run[0], side, key, times, m);
      RunRecorded(Apply(s, run[0]), run[1..], side, key, StepLog(times, s, run[0], side, key), m);
    }
  }

  /**
   On every run with no success and no eviction on the key, a half-open interval
   of one window length holds at most 2 * (Max - 1 + m) - 1 recorded failures.
   */
  lemma IntervalBound(start: int, run: seq<Event>, side: Side, key: string, m: nat, t: int)
    requires Legal(Start(start), run) && key != "" && m > 0
    requires Overlap(Start(start), run, side, key, m) && Hostile(Start(start), run, side, key)
    ensures CountIn(Log([], Start(start), run, side, key), t, t + WindowMs(side)) <= 2 * (Max(side) - 1 + m) - 1
  {
    RunRecorded(Start(start), run, side, key, [], m);
    AnyInterval(Log([], Start(start), run, side, key), WindowMs(side), Max(side) - 1 + m, t);
  }

  /** One login at a time: 9 failures per minute and IP, 19 per quarter hour and account. */
  lemma SequentialBound(start: int, run: seq<Event>, key: string, t: int)
    requires Legal(Start(start), run) && key != ""
    ensures Overlap(Start(start), run, Ip, key, 1) && Hostile(Start(start), run, Ip, key) ==>
              CountIn(Log([], Start(start), run, Ip, key), t, t + 60_000) <= 9
    ensures Overlap(Start(start), run, Account, key, 1) && Hostile(Start(start), run, Account, key) ==>
              CountIn(Log([], Start(start), run, Account, key), t, t + 900_000) <= 19
  {
    if Overlap(Start(start), run, Ip, key, 1) && Hostile(Start(start), run, Ip, key) {
      IntervalBound(start, run, Ip, key, 1, t);
    }
    if Overlap(Start(start), run, Account, key, 1) && Hostile(Start(start), run, Account, key) {
      IntervalBound(start, run, Account, key, 1, t);
    }
  }

  // ---------- the bounds are met ----------

  /** A token that touches one of the two maps only. */
  function Single(side: Side, key: string): Token {
    if side.Ip? then Token(key, "") else Token("", key)
  }

  /** One login after the other, each failing the moment it arrives. */
  function Attack(side: Side, key: string, times: seq<int>): seq<Event> {
    if times == [] then []
    else Attack(side, key, times[..|times| - 1])
         + [Event.Arrive(Single(side, key), times[|times| - 1]), Fail(0, times[|times| - 1])]
  }

  lemma {:induction false} RunAppend(s: State, run: seq<Event>, e: Event, side: Side, key: string, log: seq<int>, m: nat)
    requires Legal(s, run) && Enabled(After(s, run), e)
    ensures Legal(s, run + [e])
    ensures After(s, run + [e]) == Apply(After(s, run), e)
    ensures Log(log, s, run + [e], side, key)
         == StepLog(Log(log, s, run, side, key), After(s, run), e, side, key)
    ensures Overlap(s, run, side, key, m) && Pending(Apply(After(s, run), e).inFlight, side, key) <= m ==>
              Overlap(s, run + [e], side, key, m)
    ensures Hostile(s, run, side, key) && Keeps(After(s, run), side, key, e) && !e.Succeed? ==>
              Hostile(s, run + [e], side, key)
    decreases |run|
  {
    if run == [] {
      assert run + [e] == [e];
      assert [e][1..] == [];
    } else {
      assert (run + [e])[1..] == run[1..] + [e];
      RunAppend(Apply(s, run[0]), run[1..], e, side, key, StepLog(log, s, run[0], side, key), m);
    }
  }

  function Copies(token: Token, j: nat): seq<Token> {
    if j == 0 then [] else [token] + Copies(token, j - 1)
  }

  lemma {:induction false} CopiesAppend(token: Token, j: nat)
    ensures Copies(token, j) + [token] == Copies(token, j + 1)
  {
    if j == 0 {
    } else {
      CopiesAppend(token, j - 1);
      assert Copies(token, j) + [token] == [token] + (Copies(token, j - 1) + [token]);
    }
  }

  lemma {:induction false} CopiesPending(token: Token, j: nat, side: Side, key: string)
    ensures |Copies(token, j)| == j && Pending(Copies(token, j), side, key) <= j
  {
    if j == 0 {
    } else {
      CopiesPending(token, j - 1, side, key);
      assert Copies(token, j)[1..] == Copies(token, j - 1);
    }
  }

  /** Only this key's slot is in use. */
  ghost predicate Quiet(s: State, side: Side, key: string, times: seq<int>) {
    && Table(s, if side.Ip? then Account else Ip) == []
    && (Table(s, side) == [] || (|Table(s, side)| == 1 && Table(s, side)[0].0 == key))
    && Agrees(s, side, key, times)
  }

  lemma AttackArrives(s: State, side: Side, key: string, times: seq<int>, x: int)
    requires Quiet(s, side, key, times) && key != "" && s.now <= x
    requires CountOf(LiveOf(Fold(times, WindowMs(side)), x)) < Max(side)
    ensures var e := Event.Arrive(Single(side, key), x);
            var a := Apply(s, e);
            && !Blocked(s, Single(side, key), x) && a.inFlight == s.inFlight + [Single(side, key)]
            && Quiet(a, side, key, times) && Keeps(s, side, key, e)
  {
    var slots := Table(s, side);
    LiveEntries(slots, x);
    DistinctLive(slots, x);
    PruneGet(slots, x, key);
    var other: Slots := [];
    assert Live(other, x) == [];
  }

  lemma AttackFails(s: State, side: Side, key: string, times: seq<int>, x: int)
    requires s.inFlight != [] && s.inFlight[0] == Single(side, key) && Quiet(s, side, key, times) && key != "" && s.now == x
    ensures Quiet(Apply(s, Fail(0, x)), side, key, times + [x])
    ensures Apply(s, Fail(0, x)).inFlight == s.inFlight[1..]
  {
    var slots, w := Table(s, side), WindowMs(side);
    assert (times + [x])[..|times|] == times;
    GetSet(slots, key, Next(Get(slots, key), w, x), key);
    assert slots == [] || slots[1..] == [];
    assert Without(s.inFlight, 0) == s.inFlight[1..];
  }

  /**
   The run records these times with at most m logins between check and record, and
   ends at time now with j of them there, all on this key.
   */
  ghost predicate Records(start: int, run: seq<Event>, side: Side, key: string, times: seq<int>, m: nat, j: nat, now: int) {
    && Legal(Start(start), run) && Overlap(Start(start), run, side, key, m)
    && Hostile(Start(start), run, side, key)
    && Log([], Start(start), run, side, key) == times
    && var s := After(Start(start), run);
       Quiet(s, side, key, times) && s.inFlight == Copies(Single(side, key), j) && s.now == now
  }

  lemma RecordArrival(start: int, run: seq<Event>, side: Side, key: string, times: seq<int>, m: nat, j: nat, now: int, x: int)
    requires Records(start, run, side, key, times, m, j, now) && key != "" && now <= x && j < m
    requires CountOf(LiveOf(Fold(times, WindowMs(side)), x)) < Max(side)
    ensures Records(start, run + [Event.Arrive(Single(side, key), x)], side, key, times, m, j + 1, x)
  {
    var s := After(Start(start), run);
    AttackArrives(s, side, key, times, x);
    CopiesAppend(Single(side, key), j);
    CopiesPending(Single(side, key), j + 1, side, key);
    RunAppend(Start(start), run, Event.Arrive(Single(side, key), x), side, key, [], m);
  }

  lemma RecordFailure(start: int, run: seq<Event>, side: Side, key: string, times: seq<int>, m: nat, j: nat, x: int)
    requires Records(start, run, side, key, times, m, j + 1, x) && key != "" && j < m
    ensures Records(start, run + [Fail(0, x)], side, key, times + [x], m, j, x)
  {
    var s := After(Start(start), run);
    AttackFails(s, side, key, times, x);
    assert s.inFlight[1..] == Copies(Single(side, key), j);
    CopiesPending(Single(side, key), j, side, key);
    RunAppend(Start(start), run, Fail(0, x), side, key, [], m);
  }

  lemma RecordsOneMore(start: int, run: seq<Event>, side: Side, key: string, before: seq<int>, m: nat, now: int, x: int)
    requires Records(start, run, side, key, before, m, 0, now) && key != "" && now <= x && m > 0
    requires CountOf(LiveOf(Fold(before, WindowMs(side)), x)) < Max(side)
    ensures Records(start, run + [Event.Arrive(Single(side, key), x)] + [Fail(0, x)], side, key, before + [x], m, 0, x)
  {
    RecordArrival(start, run, side, key, before, m, 0, now, x);
    RecordFailure(start, run + [Event.Arrive(Single(side, key), x)], side, key, before, m, 0, x);
  }

  /**
   Every list of failure times that stays within the limit window by window is
   what some run of one login at a time records.
   */
  lemma {:induction false} AttackRecords(start: int, side: Side, key: string, times: seq<int>)
    requires Sorted(times) && Small(times, WindowMs(side), Max(side)) && key != ""
    requires times != [] ==> start <= times[0]
    ensures Records(start, Attack(side, key, times), side, key, times, 1, 0, LastTime(start, times))
  {
    if times == [] {
    } else {
      AttackRecords(start, side, key, times[..|times| - 1]);
      AttackOneMore(start, side, key, times);
    }
  }

  function LastTime(start: int, times: seq<int>): int {
    if times == [] then start else times[|times| - 1]
  }

  lemma AttackOneMore(start: int, side: Side, key: string, times: seq<int>)
    requires times != [] && Sorted(times) && Small(times, WindowMs(side), Max(side)) && key != "" && start <= times[0]
    requires var before := times[..|times| - 1];
             Records(start, Attack(side, key, before), side, key, before, 1, 0, LastTime(start, before))
    ensures Records(start, Attack(side, key, times), side, key, times, 1, 0, LastTime(start, times))
  {
    var before, x := times[..|times| - 1], times[|times| - 1];
    RecordsOneMore(start, Attack(side, key, before), side, key, before, 1, LastTime(start, before), x);
    assert before + [x] == times;
    var arrive := Event.Arrive(Single(side, key), x);
    assert Attack(side, key, times) == Attack(side, key, before) + [arrive] + [Fail(0, x)];
  }

  /** The list with x appended k times. */
  function Again(times: seq<int>, x: int, k: nat): seq<int> {
    if k == 0 then times else Again(times, x, k - 1) + [x]
  }

  lemma {:induction false} AgainInWindow(times: seq<int>, x: int, k: nat, w: nat, e: Entry)
    requires times != [] && Fold(times, w) == Some(e) && x < e.resetAt
    ensures Again(times, x, k) != [] && Fold(Again(times, x, k), w) == Some(Entry(e.count + k, e.resetAt))
  {
    if k == 0 {
    } else {
      AgainInWindow(times, x, k - 1, w, e);
      var fewer := Again(times, x, k - 1);
      assert (fewer + [x])[..|fewer|] == fewer;
    }
  }

  lemma {:induction false} AgainCounted(times: seq<int>, x: int, k: nat, lo: int, hi: int)
    requires lo <= x < hi
    ensures CountIn(Again(times, x, k), lo, hi) == CountIn(times, lo, hi) + k
  {
    if k == 0 {
    } else {
      AgainCounted(times, x, k - 1, lo, hi);
      var fewer := Again(times, x, k - 1);
      assert (fewer + [x])[..|fewer|] == fewer;
    }
  }

  /** k logins after each other at time x, the window holding e before. */
  lemma {:induction false} Sequence(start: int, run: seq<Event>, side: Side, key: string, times: seq<int>, m: nat,
                                    now: int, x: int, k: nat, e: Entry) returns (longer: seq<Event>)
    requires Records(start, run, side, key, times, m, 0, now) && key != "" && now <= x && m > 0
    requires times != [] && Fold(times, WindowMs(side)) == Some(e) && x < e.resetAt && e.count + k <= Max(side) && k > 0
    ensures Records(start, longer, side, key, Again(times, x, k), m, 0, x)
  {
    if k == 1 {
      longer := run + [Event.Arrive(Single(side, key), x)] + [Fail(0, x)];
      RecordsOneMore(start, run, side, key, times, m, now, x);
      assert Again(times, x, 0) == times;
    } else {
      var fewer := Sequence(start, run, side, key, times, m, now, x, k - 1, e);
      AgainInWindow(times, x, k - 1, WindowMs(side), e);
      longer := fewer + [Event.Arrive(Single(side, key), x)] + [Fail(0, x)];
      RecordsOneMore(start, fewer, side, key, Again(times, x, k - 1), m, x, x);
    }
  }

  /** k logins pass the check at time x, all before the first of them is recorded. */
  lemma {:induction false} Arrivals(start: int, run: seq<Event>, side: Side, key: string, times: seq<int>, m: nat,
                                    now: int, x: int, k: nat) returns (longer: seq<Event>)
    requires Records(start, run, side, key, times, m, 0, now) && key != "" && now <= x && 0 < k <= m
    requires CountOf(LiveOf(Fold(times, WindowMs(side)), x)) < Max(side)
    ensures Records(start, longer, side, key, times, m, k, x)
  {
    if k == 1 {
      longer := run + [Event.Arrive(Single(side, key), x)];
      RecordArrival(start, run, side, key, times, m, 0, now, x);
    } else {
      var fewer := Arrivals(start, run, side, key, times, m, now, x, k - 1);
      longer := fewer + [Event.Arrive(Single(side, key), x)];
      RecordArrival(start, fewer, side, key, times, m, k - 1, x, x);
    }
  }

  /** k of the j logins that passed are recorded as failures. */
  lemma {:induction false} Failures(start: int, run: seq<Event>, side: Side, key: string, times: seq<int>, m: nat,
                                    x: int, j: nat, k: nat) returns (longer: seq<Event>)
    requires Records(start, run, side, key, times, m, j, x) && key != "" && k <= j <= m
    ensures Records(start, longer, side, key, Again(times, x, k), m, j - k, x)
  {
    if k == 0 {
      longer := run;
    } else {
      var fewer := Failures(start, run, side, key, times, m, x, j, k - 1);
      longer := fewer + [Fail(0, x)];
      RecordFailure(start, fewer, side, key, Again(times, x, k - 1), m, j - k, x);
    }
  }

  /** From one failure in the window to the most it can hold: all but one of the limit in sequence, then m at once. */
  lemma FillWindow(start: int, run: seq<Event>, side: Side, key: string, times: seq<int>, m: nat, now: int, x: int, e: Entry)
    returns (longer: seq<Event>)
    requires Records(start, run, side, key, times, m, 0, now) && key != "" && now <= x && m > 0
    requires times != [] && Fold(times, WindowMs(side)) == Some(e) && e.count == 1 && x < e.resetAt
    ensures Records(start, longer, side, key, Again(Again(times, x, Max(side) - 2), x, m), m, 0, x)
  {
    var n := Max(side) - 2;
    var some := Sequence(start, run, side, key, times, m, now, x, n, e);
    AgainInWindow(times, x, n, WindowMs(side), e);
    var passed := Arrivals(start, some, side, key, Again(times, x, n), m, x, x, m);
    longer := Failures(start, passed, side, key, Again(times, x, n), m, x, m, m);
  }

  /** One failure, a window filled just before it ends, and the next window filled as it begins. */
  function Peak(side: Side, m: nat): seq<int> {
    var w, n := WindowMs(side), Max(side) - 2;
    Again(Again(Again(Again([0], w - 1, n), w - 1, m) + [w], w, n), w, m)
  }

  lemma PeakCount(side: Side, m: nat)
    ensures CountIn(Peak(side, m), WindowMs(side) - 1, 2 * WindowMs(side) - 1) == 2 * (Max(side) - 1 + m) - 1
  {
    var w, n, lo, hi := WindowMs(side), Max(side) - 2, WindowMs(side) - 1, 2 * WindowMs(side) - 1;
    var one: seq<int> := [0];
    assert one[..0] == [];
    var first := Again(one, w - 1, n);
    var full := Again(first, w - 1, m);
    var next := full + [w];
    assert next[..|full|] == full;
    AgainCounted(one, w - 1, n, lo, hi);
    AgainCounted(first, w - 1, m, lo, hi);
    AgainCounted(next, w, n, lo, hi);
    AgainCounted(Again(next, w, n), w, m, lo, hi);
  }

  lemma OneFailure(side: Side, key: string, m: nat) returns (run: seq<Event>)
    requires key != "" && m > 0
    ensures Records(0, run, side, key, [0], m, 0, 0) && Fold([0], WindowMs(side)) == Some(Entry(1, WindowMs(side)))
  {
    var none: seq<int> := [];
    assert Fold(none, WindowMs(side)) == None;
    RecordsOneMore(0, [], side, key, none, m, 0, 0);
    run := [] + [Event.Arrive(Single(side, key), 0)] + [Fail(0, 0)];
    assert none + [0] == [0] && [0][..0] == none;
  }

  /** The last time of a full window expires with it: the next failure starts a new one. */
  lemma NextWindow(times: seq<int>, w: nat, e: Entry)
    requires Fold(times, w) == Some(e) && e.resetAt == w
    ensures CountOf(LiveOf(Fold(times, w), w)) == 0 && Fold(times + [w], w) == Some(Entry(1, 2 * w))
  {
    assert (times + [w])[..|times|] == times;
  }

  lemma PeakIsRecorded(side: Side, key: string, m: nat) returns (run: seq<Event>)
    requires key != "" && m > 0
    ensures Records(0, run, side, key, Peak(side, m), m, 0, WindowMs(side))
  {
    var w, n := WindowMs(side), Max(side) - 2;
    var one: seq<int> := [0];
    var r1 := OneFailure(side, key, m);
    var r2 := FillWindow(0, r1, side, key, one, m, 0, w - 1, Entry(1, w));
    var first := Again(one, w - 1, n);
    var full := Again(first, w - 1, m);
    AgainInWindow(one, w - 1, n, w, Entry(1, w));
    AgainInWindow(first, w - 1, m, w, Entry(1 + n, w));
    NextWindow(full, w, Entry(1 + n + m, w));
    RecordsOneMore(0, r2, side, key, full, m, w - 1, w);
    var r3 := r2 + [Event.Arrive(Single(side, key), w)] + [Fail(0, w)];
    run := FillWindow(0, r3, side, key, full + [w], m, w, w, Entry(1, 2 * w));
  }

  /** The interval bound is met, for every number of logins between check and record. */
  lemma BoundIsMet(side: Side, key: string, m: nat)
    requires key != "" && m > 0
    ensures exists run: seq<Event> ::
              && Legal(Start(0), run) && Overlap(Start(0), run, side, key, m) && Hostile(Start(0), run, side, key)
              && CountIn(Log([], Start(0), run, side, key), WindowMs(side) - 1, 2 * WindowMs(side) - 1)
                 == 2 * (Max(side) - 1 + m) - 1
  {
    PeakCount(side, m);
    var run := PeakIsRecorded(side, key, m);
    assert Log([], Start(0), run, side, key) == Peak(side, m);
  }
}
