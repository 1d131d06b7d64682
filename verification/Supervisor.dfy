/**
 The sing-box supervisor of singbox-core/src/subcommands/supervise.ts as a
 state machine over the steps between awaits: a writer replaces the config
 file, watch events and the mtime poller arm one debounce timer, and each timer
 callback validates the file, suspends while the old child dies, and spawns a
 new one. The class holds the module-level state; its methods are the source's
 functions, each proved to take exactly one step of the machine.

 A config file is identified by its mtime, which every write increases. Zero
 means that there is no file. The callbacks waiting for one process resume in the
 order in which they fired, in one go: no timer or watch event is handled before
 the last of them has resumed.
 */
module Supervisor {
  import opened Wrappers

  /** Which versions pass `sing-box check`, and which ones `prepareConfig` has to migrate first. */
  datatype Configs = Configs(ok: nat -> bool, legacy: nat -> bool)

  /** A restart callback suspended in `killChild`. */
  datatype Callback = Callback(victim: nat, version: nat)

  datatype State = State(
    file: nat,              // mtime of the config file now
    runtime: nat,           // version of which the runtime path holds the migrated copy
    newest: nat,            // the largest mtime written so far
    lastSeen: nat,          // lastSeenMtime of the poller
    restartPending: bool,   // the debounce timer is armed
    waiting: seq<Callback>, // callbacks suspended in killChild, in firing order
    child: Option<nat>,     // state.child
    alive: set<nat>,        // running sing-box processes
    spawned: nat,           // processes started so far; they are numbered from 0
    read: nat,              // version the last validation read
    validated: nat,         // version validated by the callback that started state.child
    running: nat)           // version state.child itself read when it started

  /** The state after the boot step: the validated file v is running, watched and polled. */
  function Boot(w: Configs, v: nat): State {
    State(v, if w.legacy(v) then v else 0, v, v, false, [], Some(0), {0}, 1, v, v, v)
  }

  datatype Event =
    | Write(v: nat)   // the panel replaces the file
    | Remove          // the file disappears
    | Watch           // a directory event for the file, real or spurious
    | Poll            // the mtime poller ticks
    | Fire            // the debounce timer fires
    | Exit(c: nat)    // a process ends, killed or on its own
    | Complete        // the longest-suspended callback resumes

  /** `prepareAndValidateConfig` succeeds. */
  predicate Prepares(w: Configs, file: nat) {
    file > 0 && w.ok(file)
  }

  /** `shouldPollConfigRestart`. */
  predicate ShouldPollConfigRestart(lastSeenMtime: nat, currentMtime: nat) {
    currentMtime > 0 && currentMtime != lastSeenMtime
  }

  /** `prepareConfig` writes the migrated copy, whether or not the check then passes. */
  function Prepared(w: Configs, s: State): State {
    if s.file > 0 && w.legacy(s.file) then s.(read := s.file, runtime := s.file) else s.(read := s.file)
  }

  /** What a process finds at the path its callback prepared. */
  function Loads(w: Configs, s: State, version: nat): nat {
    if w.legacy(version) then s.runtime else s.file
  }

  /** `spawnSingbox`. */
  function Spawn(w: Configs, s: State, version: nat): State {
    s.(child := Some(s.spawned), alive := s.alive + {s.spawned}, spawned := s.spawned + 1,
       validated := version, running := Loads(w, s, version))
  }

  /** One callback of a batch has replaced the child, the others are about to resume. */
  predicate Flushing(s: State) {
    s.waiting != [] && s.child != Some(s.waiting[0].victim)
  }

  predicate Enabled(s: State, e: Event) {
    match e
    case Write(v) => v > s.newest
    case Remove => true
    case Watch => !Flushing(s)
    case Poll => !Flushing(s)
    case Fire => s.restartPending && !Flushing(s)
    case Exit(c) => c in s.alive
    case Complete => s.waiting != [] && s.waiting[0].victim !in s.alive
  }

  function Apply(w: Configs, s: State, e: Event): State
    requires Enabled(s, e)
  {
    match e
    case Write(v) => s.(file := v, newest := v)
    case Remove => s.(file := 0)
    case Watch => s.(restartPending := true)
    case Poll =>
      if ShouldPollConfigRestart(s.lastSeen, s.file) then s.(lastSeen := s.file, restartPending := true) else s
    case Fire =>
      var t := Prepared(w, s.(restartPending := false));
      if !Prepares(w, s.file) then t
      else if s.child.Some? then t.(waiting := s.waiting + [Callback(s.child.value, s.file)])
      else Spawn(w, t, s.file)
    case Exit(c) => s.(alive := s.alive - {c})
    case Complete => Spawn(w, s.(waiting := s.waiting[1..]), s.waiting[0].version)
  }

  // ---------- the code ----------

  class Supervisor {
    // module-level state, the closures' variables and the queue of suspended callbacks
    var child: Option<nat>
    var restartPending: bool
    var lastSeenMtime: nat
    var waiting: seq<Callback>
    // the outside world
    var file: nat
    var runtime: nat
    var newest: nat
    var alive: set<nat>
    var spawned: nat
    // what the last validation read, and what the last spawn meant to run and did run
    var read: nat
    var validated: nat
    var running: nat

    ghost function View(): State
      reads this
    {
      State(file, runtime, newest, lastSeenMtime, restartPending, waiting, child, alive, spawned, read, validated, running)
    }

    /**
     The boot step of `runSupervise` once a validated config v exists, the file being at
     a when the process is spawned, at b when it is watched and at c when it is first polled.
     */
    constructor (w: Configs, v: nat, a: nat, b: nat, c: nat)
      requires v > 0
      ensures View() == BootThrough(w, v, a, b, c)
    {
      // prepareAndValidateConfig
      read, restartPending, waiting := v, false, [];
      runtime := if w.legacy(v) then v else 0;
      // spawnSingbox
      child, alive, spawned, validated := Some(0), {} + {0}, 1, v;
      running := if w.legacy(v) then v else a;
      // watch and startConfigPoller
      file, newest, lastSeenMtime := c, c, c;
      restartPending := c != b;
    }

    /** `scheduleRestart`: any armed timer is cleared, so at most one is pending. */
    method ScheduleRestart()
      modifies this
      ensures View() == old(View()).(restartPending := true)
    {
      if restartPending { restartPending := false; }
      restartPending := true;
    }

    /** The tick of `startConfigPoller`. */
    method PollTick()
      requires Enabled(View(), Poll)
      modifies this
      ensures forall w: Configs :: View() == Apply(w, old(View()), Poll)
    {
      var currentMtime := file;
      if !ShouldPollConfigRestart(lastSeenMtime, currentMtime) {
        return;
      }
      lastSeenMtime := currentMtime;
      ScheduleRestart();
    }

    /** `prepareAndValidateConfig`. */
    method PrepareAndValidateConfig(w: Configs) returns (valid: bool)
      modifies this
      ensures View() == Prepared(w, old(View()))
      ensures valid <==> Prepares(w, old(file))
    {
      read := file;
      if file == 0 {
        return false;
      }
      if w.legacy(file) {
        runtime := file;
      }
      valid := w.ok(file);
    }

    /** `spawnSingbox`: the process opens the prepared path, whatever is there now. */
    method SpawnSingbox(w: Configs, version: nat)
      modifies this
      ensures View() == Spawn(w, old(View()), version)
    {
      running := if w.legacy(version) then runtime else file;
      validated := version;
      child := Some(spawned);
      alive := alive + {spawned};
      spawned := spawned + 1;
    }

    /** The timer callback of `scheduleRestart` up to its await. */
    method FireTimer(w: Configs)
      requires Enabled(View(), Fire)
      modifies this
      ensures View() == Apply(w, old(View()), Fire)
    {
      restartPending := false;
      var version := file;
      var valid := PrepareAndValidateConfig(w);
      if !valid {
        return;
      }
      if child.Some? {
        waiting := waiting + [Callback(child.value, version)];
      } else {
        SpawnSingbox(w, version);
      }
    }

    /** The rest of the callback, once `killChild` has seen its victim exit. */
    method ResumeCallback(w: Configs)
      requires Enabled(View(), Complete)
      modifies this
      ensures View() == Apply(w, old(View()), Complete)
    {
      var callback := waiting[0];
      waiting := waiting[1..];
      child := None;
      SpawnSingbox(w, callback.version);
    }
  }

  // ---------- runs ----------

  predicate Legal(w: Configs, s: State, run: seq<Event>)
    decreases |run|
  {
    run == [] || (Enabled(s, run[0]) && Legal(w, Apply(w, s, run[0]), run[1..]))
  }

  function After(w: Configs, s: State, run: seq<Event>): State
    requires Legal(w, s, run)
    decreases |run|
  {
    if run == [] then s else After(w, Apply(w, s, run[0]), run[1..])
  }

  lemma {:induction false} Concatenate(w: Configs, s: State, a: seq<Event>, b: seq<Event>)
    requires Legal(w, s, a) && Legal(w, After(w, s, a), b)
    ensures Legal(w, s, a + b) && After(w, s, a + b) == After(w, After(w, s, a), b)
    decreases |a|
  {
    if a == [] {
      assert a + b == b;
    } else {
      Concatenate(w, Apply(w, s, a[0]), a[1..], b);
      assert (a + b)[1..] == a[1..] + b;
    }
  }

  lemma Unroll(w: Configs, s: State, e: Event, rest: seq<Event>)
    requires Enabled(s, e) && Legal(w, Apply(w, s, e), rest)
    ensures Legal(w, s, [e] + rest)
    ensures After(w, s, [e] + rest) == After(w, Apply(w, s, e), rest)
  {
    assert ([e] + rest)[1..] == rest;
  }

  lemma ThreeSteps(w: Configs, s: State, a: Event, b: Event, c: Event)
    requires Enabled(s, a)
    requires Enabled(Apply(w, s, a), b)
    requires Enabled(Apply(w, Apply(w, s, a), b), c)
    ensures Legal(w, s, [a, b, c])
    ensures After(w, s, [a, b, c]) == Apply(w, Apply(w, Apply(w, s, a), b), c)
  {
    var s1 := Apply(w, s, a);
    var s2 := Apply(w, s1, b);
    Unroll(w, s2, c, []);
    assert [c] + [] == [c];
    Unroll(w, s1, b, [c]);
    Unroll(w, s, a, [b] + [c]);
    assert [a] + ([b] + [c]) == [a, b, c];
  }

  // ---------- the queue of callbacks ----------

  /** All suspended callbacks wait for one process, which is `state.child` until the first of them resumes. */
  predicate OneVictim(s: State) {
    forall i :: 0 <= i < |s.waiting| ==>
      s.waiting[i].victim == s.waiting[0].victim && (Flushing(s) || s.child == Some(s.waiting[i].victim))
  }

  lemma StepOneVictim(w: Configs, s: State, e: Event)
    requires s.child.Some? && OneVictim(s) && Enabled(s, e)
    ensures OneVictim(Apply(w, s, e))
  {
    var t := Apply(w, s, e);
    if e.Complete? && t.waiting != [] {
      assert t.waiting[0] == s.waiting[1];
    }
  }

  lemma {:induction false} OneVictimAlways(w: Configs, s: State, run: seq<Event>)
    requires s.child.Some? && OneVictim(s) && Legal(w, s, run)
    ensures OneVictim(After(w, s, run))
    decreases |run|
  {
    if run == [] {
    } else {
      StepOneVictim(w, s, run[0]);
      OneVictimAlways(w, Apply(w, s, run[0]), run[1..]);
    }
  }

  function Completions(run: seq<Event>): nat {
    if run == [] then 0 else (if run[0].Complete? then 1 else 0) + Completions(run[1..])
  }

  /** Callbacks resume in firing order: the first k resumptions take the k longest suspended. */
  lemma {:induction false} QueueAfter(w: Configs, s: State, run: seq<Event>)
    requires s.child.Some? && Legal(w, s, run) && Completions(run) <= |s.waiting|
    ensures var k, t := Completions(run), After(w, s, run);
            |s.waiting| - k <= |t.waiting| && t.waiting[..|s.waiting| - k] == s.waiting[k..]
    decreases |run|
  {
    if run == [] {
    } else {
      var t := Apply(w, s, run[0]);
      QueueAfter(w, t, run[1..]);
      if run[0].Complete? {
        assert s.waiting[1..][Completions(run[1..])..] == s.waiting[Completions(run)..];
      } else {
        var k, u := Completions(run), After(w, s, run);
        assert t.waiting[..|s.waiting|] == s.waiting;
        assert u.waiting[..|t.waiting| - k][..|s.waiting| - k] == u.waiting[..|s.waiting| - k];
        assert t.waiting[k..][..|s.waiting| - k] == s.waiting[k..];
      }
    }
  }

  // ---------- conservation of processes ----------

  /** A callback resumes when `state.child` is no longer the child it killed. */
  predicate Orphans(s: State, e: Event)
    requires Enabled(s, e)
  {
    e.Complete? && s.child != Some(s.waiting[0].victim)
  }

  function Orphanings(w: Configs, s: State, run: seq<Event>): nat
    requires Legal(w, s, run)
    decreases |run|
  {
    if run == [] then 0
    else (if Orphans(s, run[0]) then 1 else 0) + Orphanings(w, Apply(w, s, run[0]), run[1..])
  }

  ghost predicate Numbered(s: State) {
    && s.child.Some? && s.child.value < s.spawned
    && (forall c :: c in s.alive ==> c < s.spawned)
    && (forall i :: 0 <= i < |s.waiting| ==> s.waiting[i].victim < s.spawned)
  }

  /** Running processes other than `state.child`. */
  function Strays(s: State): set<nat> {
    if s.child.Some? then s.alive - {s.child.value} else s.alive
  }

  lemma StepNumbered(w: Configs, s: State, e: Event)
    requires Numbered(s) && Enabled(s, e)
    ensures Numbered(Apply(w, s, e))
  {}

  /** A resuming callback strays from the child it does not kill, and from nothing else. */
  lemma StraysComplete(w: Configs, s: State)
    requires Numbered(s) && Enabled(s, Complete)
    ensures Strays(Apply(w, s, Complete)) == s.alive
    ensures s.alive == Strays(s) + if Orphans(s, Complete) && s.child.value in s.alive then {s.child.value} else {}
  {
    assert s.spawned !in s.alive;
  }

  lemma StraysOther(w: Configs, s: State, e: Event)
    requires Numbered(s) && Enabled(s, e) && !e.Complete?
    ensures var t := Apply(w, s, e); t.child == s.child && t.alive <= s.alive
  {
  }

  lemma StepStrays(w: Configs, s: State, e: Event)
    requires Numbered(s) && Enabled(s, e)
    ensures |Strays(Apply(w, s, e))| <= |Strays(s)| + if Orphans(s, e) then 1 else 0
  {
    var t := Apply(w, s, e);
    if e.Complete? {
      StraysComplete(w, s);
      StraysGrow(s.alive, Strays(s), s.child.value);
    } else {
      StraysOther(w, s, e);
      SubsetSize(Strays(t), Strays(s));
    }
  }

  lemma StraysGrow(a: set<nat>, b: set<nat>, c: nat)
    requires a == b || a == b + {c}
    ensures |a| <= |b| + 1 && (a == b ==> |a| == |b|)
  {
    SubsetSize(a, b + {c});
  }

  lemma SubsetSize(a: set<nat>, b: set<nat>)
    requires a <= b
    ensures |a| <= |b|
  {
    assert b == a + (b - a);
  }

  lemma {:induction false} StraysBound(w: Configs, s: State, run: seq<Event>)
    requires Numbered(s) && Legal(w, s, run)
    ensures Numbered(After(w, s, run))
    ensures |Strays(After(w, s, run))| <= |Strays(s)| + Orphanings(w, s, run)
    decreases |run|
  {
    if run == [] {
    } else {
      StepNumbered(w, s, run[0]);
      StepStrays(w, s, run[0]);
      StraysBound(w, Apply(w, s, run[0]), run[1..]);
    }
  }

  /**
   On every interleaving the running processes are at most one plus the number
   of callbacks that resumed after another callback had replaced their victim.
   */
  lemma Conservation(w: Configs, v: nat, run: seq<Event>)
    requires Legal(w, Boot(w, v), run)
    ensures var s := After(w, Boot(w, v), run);
            |s.alive| <= 1 + Orphanings(w, Boot(w, v), run)
  {
    StraysBound(w, Boot(w, v), run);
    var s := After(w, Boot(w, v), run);
    assert Strays(Boot(w, v)) == {};
    SubsetSize(s.alive, Strays(s) + {s.child.value});
  }

  // ---------- exactly when a child is orphaned ----------

  /** No timer finds a valid file while a callback is suspended in `killChild`. */
  predicate NoEffectiveOverlap(w: Configs, s: State, run: seq<Event>)
    requires Legal(w, s, run)
    decreases |run|
  {
    run == []
    || ((run[0].Fire? && Prepares(w, s.file) ==> s.waiting == []) && NoEffectiveOverlap(w, Apply(w, s, run[0]), run[1..]))
  }

  /** At most one callback is suspended, and it is killing the present child. */
  predicate AtMostOneKill(s: State) {
    s.waiting == [] || (|s.waiting| == 1 && s.child == Some(s.waiting[0].victim))
  }

  lemma {:induction false} OrphaningsFrom(w: Configs, s: State, run: seq<Event>)
    requires Numbered(s) && Legal(w, s, run) && After(w, s, run).waiting == []
    ensures Orphanings(w, s, run) == 0 <==> NoEffectiveOverlap(w, s, run) && AtMostOneKill(s)
    decreases |run|
  {
    if run == [] {
    } else {
      StepNumbered(w, s, run[0]);
      var t := Apply(w, s, run[0]);
      OrphaningsFrom(w, t, run[1..]);
      KillsAfter(w, s, run[0]);
    }
  }

  lemma KillsAfter(w: Configs, s: State, e: Event)
    requires Numbered(s) && Enabled(s, e)
    ensures var t := Apply(w, s, e);
            !Orphans(s, e) && (e.Fire? && Prepares(w, s.file) ==> s.waiting == []) && AtMostOneKill(t)
            <==> (e.Fire? && Prepares(w, s.file) ==> s.waiting == []) && AtMostOneKill(s)
  {
    if e.Complete? && |s.waiting| > 1 {
      assert Apply(w, s, e).waiting[0] == s.waiting[1];
    }
  }

  /**
   On every run at whose end no callback is suspended, some child was orphaned
   exactly when some timer found a valid file while a callback was in `killChild`.
   */
  lemma OrphanedIffOverlap(w: Configs, v: nat, run: seq<Event>)
    requires Legal(w, Boot(w, v), run) && After(w, Boot(w, v), run).waiting == []
    ensures Orphanings(w, Boot(w, v), run) == 0 <==> NoEffectiveOverlap(w, Boot(w, v), run)
  {
    OrphaningsFrom(w, Boot(w, v), run);
  }

  ghost predicate Single(s: State) {
    Numbered(s) && s.alive <= {s.child.value} && AtMostOneKill(s)
  }

  lemma StepSingle(w: Configs, s: State, e: Event)
    requires Single(s) && Enabled(s, e) && (e.Fire? && Prepares(w, s.file) ==> s.waiting == [])
    ensures Single(Apply(w, s, e)) && !Orphans(s, e)
  {
    StepNumbered(w, s, e);
    KillsAfter(w, s, e);
  }

  lemma {:induction false} SingleRun(w: Configs, s: State, run: seq<Event>)
    requires Single(s) && Legal(w, s, run) && NoEffectiveOverlap(w, s, run)
    ensures Single(After(w, s, run)) && Orphanings(w, s, run) == 0
    decreases |run|
  {
    if run == [] {
    } else {
      StepSingle(w, s, run[0]);
      SingleRun(w, Apply(w, s, run[0]), run[1..]);
    }
  }

  /** On such runs, callbacks suspended at the end or not, only `state.child` can be running. */
  lemma OneChild(w: Configs, v: nat, run: seq<Event>)
    requires Legal(w, Boot(w, v), run) && NoEffectiveOverlap(w, Boot(w, v), run)
    ensures var s := After(w, Boot(w, v), run);
            s.child.Some? && s.alive <= {s.child.value} && Orphanings(w, Boot(w, v), run) == 0
  {
    SingleRun(w, Boot(w, v), run);
  }

  /** A second valid write within the kill grace period leaves two processes running. */
  lemma OverlapRunsTwo(w: Configs)
    requires w.ok(2) && w.ok(3)
    ensures var run := [Write(2), Watch, Fire] + ([Write(3), Watch, Fire] + [Exit(0), Complete, Complete]);
            && Legal(w, Boot(w, 1), run)
            && After(w, Boot(w, 1), run).alive == {1, 2}
            && After(w, Boot(w, 1), run).child == Some(2)
  {
    var boot := Boot(w, 1);
    ThreeSteps(w, boot, Write(2), Watch, Fire);
    var s1 := After(w, boot, [Write(2), Watch, Fire]);
    assert s1.waiting == [Callback(0, 2)] && s1.child == Some(0) && s1.alive == {0};
    ThreeSteps(w, s1, Write(3), Watch, Fire);
    var s2 := After(w, s1, [Write(3), Watch, Fire]);
    assert s2.waiting == [Callback(0, 2), Callback(0, 3)] && s2.child == Some(0) && s2.alive == {0} && s2.spawned == 1;
    BothResume(w, s2);
    Concatenate(w, s1, [Write(3), Watch, Fire], [Exit(0), Complete, Complete]);
    Concatenate(w, boot, [Write(2), Watch, Fire], [Write(3), Watch, Fire] + [Exit(0), Complete, Complete]);
  }

  lemma BothResume(w: Configs, s: State)
    requires s.waiting == [Callback(0, 2), Callback(0, 3)] && s.child == Some(0) && s.alive == {0} && s.spawned == 1
    ensures Legal(w, s, [Exit(0), Complete, Complete])
    ensures var t := After(w, s, [Exit(0), Complete, Complete]); t.alive == {1, 2} && t.child == Some(2)
  {
    var s1 := Apply(w, s, Exit(0));
    assert s1.alive == {};
    var s2 := Apply(w, s1, Complete);
    assert s2.waiting == [Callback(0, 3)] && s2.alive == {1} && s2.spawned == 2;
    ThreeSteps(w, s, Exit(0), Complete, Complete);
  }

  // ---------- no lost update ----------

  /** The present file is not polled yet, or a restart is armed, or a validation has read it. */
  predicate Covered(s: State) {
    s.file <= s.newest && s.lastSeen <= s.newest
    && (s.file > 0 ==> s.file != s.lastSeen || s.restartPending || s.read == s.file)
  }

  lemma {:induction false} NoLostUpdate(w: Configs, s: State, run: seq<Event>)
    requires Covered(s) && Legal(w, s, run)
    ensures Covered(After(w, s, run))
    decreases |run|
  {
    if run == [] {
    } else {
      NoLostUpdate(w, Apply(w, s, run[0]), run[1..]);
    }
  }

  /** The version the last suspended callback has validated, or the one last started. */
  function Latest(s: State): nat {
    if s.waiting == [] then s.validated else s.waiting[|s.waiting| - 1].version
  }

  /**
   The last validation is what the last callback will start, its migrated copy is in
   place, and if the file has not changed since, the child runs it.
   */
  predicate Consistent(w: Configs, s: State) {
    && s.child.Some? && s.read <= s.newest
    && (Prepares(w, s.read) ==> Latest(s) == s.read)
    && (s.read > 0 && w.legacy(s.read) ==> s.runtime == s.read)
    && (Prepares(w, s.read) && s.read == s.file && s.waiting == [] ==> s.running == s.read)
  }

  lemma StepConsistent(w: Configs, s: State, e: Event)
    requires Covered(s) && Consistent(w, s) && Enabled(s, e)
    ensures Consistent(w, Apply(w, s, e))
  {
    if e.Complete? && |s.waiting| > 1 {
      assert s.waiting[1..][|s.waiting| - 2] == s.waiting[|s.waiting| - 1];
    }
  }

  lemma {:induction false} ConsistentRun(w: Configs, s: State, run: seq<Event>)
    requires Covered(s) && Consistent(w, s) && Legal(w, s, run)
    ensures Covered(After(w, s, run)) && Consistent(w, After(w, s, run))
    decreases |run|
  {
    if run == [] {
    } else {
      StepConsistent(w, s, run[0]);
      NoLostUpdate(w, s, [run[0]]);
      ConsistentRun(w, Apply(w, s, run[0]), run[1..]);
    }
  }

  /** Nothing is armed or suspended and the poller has seen the file. */
  predicate Quiescent(s: State) {
    !s.restartPending && s.waiting == [] && s.lastSeen == s.file
  }

  /** Whenever the supervisor is quiescent, a valid present config is the one the child read. */
  lemma QuiescentIsCurrent(w: Configs, v: nat, run: seq<Event>)
    requires Legal(w, Boot(w, v), run)
    requires Quiescent(After(w, Boot(w, v), run)) && Prepares(w, After(w, Boot(w, v), run).file)
    ensures var s := After(w, Boot(w, v), run);
            s.running == s.file && s.validated == s.file
  {
    ConsistentRun(w, Boot(w, v), run);
  }

  // ---------- catching up ----------

  /** The suspended callbacks run out: their victims exit and they resume. */
  function Drain(w: Configs, s: State): seq<Event>
    decreases |s.waiting|, s.waiting != [] && s.waiting[0].victim in s.alive
  {
    if s.waiting == [] then []
    else
      var e := if s.waiting[0].victim in s.alive then Exit(s.waiting[0].victim) else Complete;
      [e] + Drain(w, Apply(w, s, e))
  }

  lemma {:induction false} DrainEnds(w: Configs, s: State)
    ensures Legal(w, s, Drain(w, s))
    ensures var t := After(w, s, Drain(w, s)); t.waiting == [] && t.file == s.file
    decreases |s.waiting|, s.waiting != [] && s.waiting[0].victim in s.alive
  {
    if s.waiting == [] {
    } else {
      var e := if s.waiting[0].victim in s.alive then Exit(s.waiting[0].victim) else Complete;
      DrainEnds(w, Apply(w, s, e));
      Unroll(w, s, e, Drain(w, Apply(w, s, e)));
    }
  }

  /** One poll and, if a restart is due, one timer and one kill. */
  function Restart(s: State): seq<Event>
    requires s.child.Some?
  {
    [Poll]
    + (if s.restartPending || ShouldPollConfigRestart(s.lastSeen, s.file) then
         [Fire] + ((if s.child.value in s.alive then [Exit(s.child.value)] else []) + [Complete])
       else [])
  }

  /** The continuation that brings a written config into service. */
  function CatchUp(w: Configs, s: State): seq<Event>
    requires Legal(w, s, Drain(w, s)) && After(w, s, Drain(w, s)).child.Some?
  {
    Drain(w, s) + Restart(After(w, s, Drain(w, s)))
  }

  /**
   From every reachable state with a valid file, the suspended callbacks, then one
   poll and if needed one timer and one kill, put the file into service.
   */
  lemma CatchesUp(w: Configs, v: nat, run: seq<Event>)
    requires Legal(w, Boot(w, v), run) && Prepares(w, After(w, Boot(w, v), run).file)
    ensures var s := After(w, Boot(w, v), run);
            && Legal(w, s, Drain(w, s)) && After(w, s, Drain(w, s)).child.Some?
            && Legal(w, s, CatchUp(w, s))
            && var t := After(w, s, CatchUp(w, s));
               Quiescent(t) && t.running == t.file == s.file
  {
    var s := After(w, Boot(w, v), run);
    ConsistentRun(w, Boot(w, v), run);
    DrainEnds(w, s);
    ConsistentRun(w, s, Drain(w, s));
    var u := After(w, s, Drain(w, s));
    RestartFrom(w, u);
    Concatenate(w, s, Drain(w, s), Restart(u));
  }

  lemma RestartFrom(w: Configs, s: State)
    requires Covered(s) && Consistent(w, s) && s.waiting == [] && Prepares(w, s.file)
    ensures Legal(w, s, Restart(s))
    ensures var t := After(w, s, Restart(s)); Quiescent(t) && t.running == t.file == s.file
  {
    var s1 := Apply(w, s, Poll);
    if s1.restartPending {
      KillAndStart(w, s1);
      Unroll(w, s, Poll, [Fire] + ((if s.child.value in s.alive then [Exit(s.child.value)] else []) + [Complete]));
    } else {
      Unroll(w, s, Poll, []);
    }
  }

  lemma KillAndStart(w: Configs, s: State)
    requires s.child.Some? && s.waiting == [] && s.restartPending && Prepares(w, s.file)
    ensures var run := [Fire] + ((if s.child.value in s.alive then [Exit(s.child.value)] else []) + [Complete]);
            && Legal(w, s, run)
            && var t := After(w, s, run);
               t.running == t.file == s.file && !t.restartPending && t.waiting == [] && t.lastSeen == s.lastSeen
  {
    var c, s1 := s.child.value, Apply(w, s, Fire);
    assert s1.waiting == [Callback(c, s.file)];
    if c in s.alive {
      ThreeSteps(w, s, Fire, Exit(c), Complete);
      assert [Fire] + ([Exit(c)] + [Complete]) == [Fire, Exit(c), Complete];
    } else {
      Unroll(w, s1, Complete, []);
      Unroll(w, s, Fire, [Complete] + []);
      assert [Fire] + ([Complete] + []) == [Fire] + ([] + [Complete]);
    }
  }

  // ---------- what a started process reads ----------

  /** The panel leaves the file alone. */
  predicate FileUntouched(run: seq<Event>) {
    forall i :: 0 <= i < |run| ==> !run[i].Write? && !run[i].Remove?
  }

  /** No validation replaces the migrated copy of v by that of another version. */
  predicate CopyUntouched(w: Configs, s: State, run: seq<Event>, v: nat)
    requires Legal(w, s, run)
    decreases |run|
  {
    run == []
    || ((run[0].Fire? && s.file > 0 && w.legacy(s.file) ==> s.file == v) && CopyUntouched(w, Apply(w, s, run[0]), run[1..], v))
  }

  lemma {:induction false} NeverAgain(w: Configs, s: State, run: seq<Event>, v: nat)
    requires 0 < v <= s.newest && s.file != v && Legal(w, s, run)
    ensures After(w, s, run).file != v
    decreases |run|
  {
    if run == [] {
    } else {
      NeverAgain(w, Apply(w, s, run[0]), run[1..], v);
    }
  }

  lemma {:induction false} FileKept(w: Configs, s: State, run: seq<Event>)
    requires 0 < s.file <= s.newest && Legal(w, s, run)
    ensures After(w, s, run).file == s.file <==> FileUntouched(run)
    decreases |run|
  {
    if run == [] {
    } else {
      var t := Apply(w, s, run[0]);
      if run[0].Write? || run[0].Remove? {
        NeverAgain(w, t, run[1..], s.file);
      } else {
        FileKept(w, t, run[1..]);
        assert FileUntouched(run) <==> FileUntouched(run[1..]) by {
          assert forall i :: 0 <= i < |run[1..]| ==> run[1..][i] == run[i + 1];
          assert forall i :: 0 < i < |run| ==> run[i] == run[1..][i - 1];
        }
      }
    }
  }

  lemma {:induction false} CopyStaysNewer(w: Configs, s: State, run: seq<Event>, v: nat)
    requires v < s.runtime <= s.newest && (s.file == 0 || s.runtime <= s.file <= s.newest) && Legal(w, s, run)
    ensures v < After(w, s, run).runtime
    decreases |run|
  {
    if run == [] {
    } else {
      CopyStaysNewer(w, Apply(w, s, run[0]), run[1..], v);
    }
  }

  lemma {:induction false} CopyKept(w: Configs, s: State, run: seq<Event>, v: nat)
    requires s.runtime == v <= s.newest && (s.file == 0 || v <= s.file <= s.newest) && Legal(w, s, run)
    ensures After(w, s, run).runtime == v <==> CopyUntouched(w, s, run, v)
    decreases |run|
  {
    if run == [] {
    } else {
      var t := Apply(w, s, run[0]);
      if run[0].Fire? && s.file > 0 && w.legacy(s.file) && s.file != v {
        CopyStaysNewer(w, t, run[1..], v);
      } else {
        CopyKept(w, t, run[1..], v);
      }
    }
  }

  /**
   A timer that finds a valid file starts a process, once the callbacks before it
   have resumed and its victim is gone. The process reads the version that was
   validated exactly when, in between, the panel left the file alone or, for a version
   that had to be migrated, no validation replaced the migrated copy.
   */
  lemma StartsWhatItValidated(w: Configs, v: nat, before: seq<Event>, mid: seq<Event>)
    requires Legal(w, Boot(w, v), before)
    requires var s := After(w, Boot(w, v), before);
             && Enabled(s, Fire) && Prepares(w, s.file)
             && Legal(w, Apply(w, s, Fire), mid) && Completions(mid) == |s.waiting|
             && Enabled(After(w, Apply(w, s, Fire), mid), Complete)
    ensures var s := After(w, Boot(w, v), before);
            var s1 := Apply(w, s, Fire);
            var t := Apply(w, After(w, s1, mid), Complete);
            && t.validated == s.file
            && (t.running == s.file <==> if w.legacy(s.file) then CopyUntouched(w, s1, mid, s.file) else FileUntouched(mid))
  {
    ConsistentRun(w, Boot(w, v), before);
    var s := After(w, Boot(w, v), before);
    var s1 := Apply(w, s, Fire);
    QueueAfter(w, s1, mid);
    var u := After(w, s1, mid);
    assert u.waiting[..1][0] == s1.waiting[|s.waiting|..][0] == Callback(s.child.value, s.file);
    if w.legacy(s.file) {
      CopyKept(w, s1, mid, s.file);
    } else {
      FileKept(w, s1, mid);
    }
  }

  /** So a config that never passed the check is started when it is written during a kill. */
  lemma UnvalidatedStart(w: Configs)
    requires w.ok(2) && !w.legacy(2) && !w.ok(3)
    ensures var run := [Write(2), Watch, Fire] + [Write(3), Exit(0), Complete];
            Legal(w, Boot(w, 1), run) && After(w, Boot(w, 1), run).running == 3
  {
    var boot := Boot(w, 1);
    ThreeSteps(w, boot, Write(2), Watch, Fire);
    var s := After(w, boot, [Write(2), Watch, Fire]);
    assert s.waiting == [Callback(0, 2)] && s.alive == {0} && s.newest == 2;
    ThreeSteps(w, s, Write(3), Exit(0), Complete);
    Concatenate(w, boot, [Write(2), Watch, Fire], [Write(3), Exit(0), Complete]);
  }

  // ---------- what arms the timer ----------

  function Fires(run: seq<Event>): nat {
    if run == [] then 0 else (if run[0].Fire? then 1 else 0) + Fires(run[1..])
  }

  /** Directory events, and polls that find a file with an mtime other than the last one seen. */
  function Triggers(w: Configs, s: State, run: seq<Event>): nat
    requires Legal(w, s, run)
    decreases |run|
  {
    if run == [] then 0
    else
      (if run[0].Watch? || (run[0].Poll? && s.file > 0 && s.file != s.lastSeen) then 1 else 0)
      + Triggers(w, Apply(w, s, run[0]), run[1..])
  }

  /** The timer fires at most once for each of them, whatever the validations say. */
  lemma {:induction false} FiresNeedTriggers(w: Configs, s: State, run: seq<Event>)
    requires Legal(w, s, run)
    ensures Fires(run) + (if After(w, s, run).restartPending then 1 else 0)
         <= Triggers(w, s, run) + if s.restartPending then 1 else 0
    decreases |run|
  {
    if run == [] {
    } else {
      FiresNeedTriggers(w, Apply(w, s, run[0]), run[1..]);
    }
  }

  /** From boot on, the timer fires at most as often as it was triggered. */
  lemma FiresFromBoot(w: Configs, v: nat, run: seq<Event>)
    requires Legal(w, Boot(w, v), run)
    ensures Fires(run) <= Triggers(w, Boot(w, v), run)
  {
    FiresNeedTriggers(w, Boot(w, v), run);
  }

  /** After the timer has fired, on a valid file or not, it does not fire again before the next trigger. */
  lemma NoFireWithoutTrigger(w: Configs, s: State, rest: seq<Event>)
    requires Enabled(s, Fire) && Legal(w, Apply(w, s, Fire), rest) && Triggers(w, Apply(w, s, Fire), rest) == 0
    ensures Fires(rest) == 0 && !Enabled(After(w, Apply(w, s, Fire), rest), Fire)
  {
    FiresNeedTriggers(w, Apply(w, s, Fire), rest);
  }

  // ---------- invalid configs ----------

  predicate InvalidWrites(w: Configs, run: seq<Event>) {
    forall i :: 0 <= i < |run| && run[i].Write? ==> !w.ok(run[i].v)
  }

  /** What a run without a valid write can do: let callbacks already suspended resume. */
  ghost predicate OnlyResumed(s: State, t: State) {
    && s.spawned <= t.spawned && t.spawned - s.spawned <= |s.waiting|
    && t.waiting == s.waiting[t.spawned - s.spawned..]
    && (t.spawned == s.spawned ==>
          t.child == s.child && t.running == s.running && t.validated == s.validated && t.alive <= s.alive)
  }

  lemma OnlyResumedStep(w: Configs, s: State, e: Event)
    requires s.child.Some? && !Prepares(w, s.file) && Enabled(s, e) && (e.Write? ==> !w.ok(e.v))
    ensures var t := Apply(w, s, e); OnlyResumed(s, t) && t.child.Some? && !Prepares(w, t.file)
  {
  }

  lemma OnlyResumedTrans(s: State, t: State, u: State)
    requires OnlyResumed(s, t) && OnlyResumed(t, u)
    ensures OnlyResumed(s, u)
  {
    assert s.waiting[t.spawned - s.spawned..][u.spawned - t.spawned..] == s.waiting[u.spawned - s.spawned..];
  }

  /**
   While the file is invalid and only invalid versions are written, no callback is added:
   the processes started are those of callbacks already suspended, in their order.
   */
  lemma {:induction false} InvalidWritesAddNothing(w: Configs, s: State, run: seq<Event>)
    requires s.child.Some? && !Prepares(w, s.file) && Legal(w, s, run) && InvalidWrites(w, run)
    ensures OnlyResumed(s, After(w, s, run))
    decreases |run|
  {
    if run == [] {
    } else {
      var t := Apply(w, s, run[0]);
      assert InvalidWrites(w, run[1..]) by {
        assert forall i :: 0 <= i < |run[1..]| ==> run[1..][i] == run[i + 1];
      }
      OnlyResumedStep(w, s, run[0]);
      InvalidWritesAddNothing(w, t, run[1..]);
      OnlyResumedTrans(s, t, After(w, s, run));
    }
  }

  /**
   From any state without a suspended callback, valid file or not, an invalid write and
   whatever follows it, up to the next valid write, leaves the child as it is.
   */
  lemma InvalidWritesChangeNothing(w: Configs, s: State, v: nat, rest: seq<Event>)
    requires s.child.Some? && s.waiting == [] && Legal(w, s, [Write(v)] + rest) && InvalidWrites(w, [Write(v)] + rest)
    ensures var t := After(w, s, [Write(v)] + rest);
            && t.waiting == [] && t.child == s.child && t.spawned == s.spawned
            && t.running == s.running && t.validated == s.validated && t.alive <= s.alive
  {
    var run := [Write(v)] + rest;
    assert run[1..] == rest && run[0] == Write(v);
    assert InvalidWrites(w, rest) by {
      assert forall i :: 0 <= i < |rest| ==> rest[i] == run[i + 1];
    }
    InvalidWritesAddNothing(w, Apply(w, s, Write(v)), rest);
  }

  // ---------- the boot step ----------

  /**
   The boot step with a writer at work: the file is at v when it is validated, at a when
   the process is spawned, at b when the watch is registered and at c when the poller
   takes its first look. A write after the watch is registered arms the timer.
   */
  function BootThrough(w: Configs, v: nat, a: nat, b: nat, c: nat): State {
    var validated := Prepared(w, State(v, 0, v, 0, false, [], None, {}, 0, 0, 0, 0));
    var spawned := Spawn(w, validated.(file := a, newest := a), v);
    spawned.(file := c, newest := c, lastSeen := c, restartPending := c != b)
  }

  /** Without writes in between this is the boot state all runs start from. */
  lemma BootUndisturbed(w: Configs, v: nat)
    requires v > 0
    ensures BootThrough(w, v, v, v, v) == Boot(w, v)
  {
    assert {} + {0} == {0};
  }

  /**
   An update is missed, the supervisor being idle with a child that has not read the file,
   exactly when nothing was written once the watch was registered and the file then
   is not what the child read: v for a migrated config, else the file at the
   spawn. The validation, or a pending restart, covers the file exactly when it is
   the one validated or was written under the watch.
   */
  lemma BootGap(w: Configs, v: nat, a: nat, b: nat, c: nat)
    requires 0 < v <= a <= b <= c
    ensures var s := BootThrough(w, v, a, b, c);
            && (Quiescent(s) && s.running != s.file <==> b == c && c != if w.legacy(v) then v else a)
            && (Covered(s) <==> c == v || b < c)
  {
    var s := BootThrough(w, v, a, b, c);
    assert s.running == (if w.legacy(v) then v else a) && s.read == v && s.waiting == [];
  }

  /** An unmigrated config written between the validation and the spawn is started without ever being validated. */
  lemma BootUnvalidated(w: Configs, v: nat, a: nat)
    requires 0 < v < a && !w.legacy(v)
    ensures var s := BootThrough(w, v, a, a, a);
            Quiescent(s) && s.running == s.file == a && s.validated == s.read == v
  {
  }

  predicate NoFileEvent(run: seq<Event>) {
    forall i :: 0 <= i < |run| ==> !run[i].Write? && !run[i].Remove? && !run[i].Watch?
  }

  /** What an idle supervisor runs it runs until the next write or directory event, missed update or not. */
  lemma {:induction false} IdleUntilEvent(w: Configs, s: State, run: seq<Event>)
    requires Quiescent(s) && Legal(w, s, run) && NoFileEvent(run)
    ensures var t := After(w, s, run); Quiescent(t) && t.file == s.file && t.running == s.running && t.child == s.child
    decreases |run|
  {
    if run == [] {
    } else {
      assert NoFileEvent(run[1..]) by {
        assert forall i :: 0 <= i < |run[1..]| ==> run[1..][i] == run[i + 1];
      }
      IdleUntilEvent(w, Apply(w, s, run[0]), run[1..]);
    }
  }
}
