/**
 What runs of the `.env` migrator do to the five keys it manages: exactly which
 definitions the parser finds afterwards. PANEL_DOMAIN can lose definitions, and
 in a file without a DOMAIN= line all of them.
 */
module EnvManaged {
  import opened Wrappers
  import opened Dotenv
  import opened EnvMigrate
  import opened EnvMigrateLaws
  import opened EnvMigrateRuns
  import opened EnvMeaning

  // ---------- iterating ----------

  lemma {:induction false} FirstStepFirst<T>(step: T -> T, x: T, n: nat)
    requires n > 0
    ensures Iterate(step, x, n) == Iterate(step, step(x), n - 1)
  {
    if n == 1 {
    } else {
      FirstStepFirst(step, x, n - 1);
    }
  }

  /** What holds after the first k steps and is kept holds from then on. */
  lemma {:induction false} InvariantFrom<T(!new)>(step: T -> T, inv: T -> bool, x: T, k: nat, n: nat)
    requires k <= n && inv(Iterate(step, x, k)) && forall y :: inv(y) ==> inv(step(y))
    ensures inv(Iterate(step, x, n))
  {
    if n == k {
    } else {
      InvariantFrom(step, inv, x, k, n - 1);
    }
  }

  lemma FirstTwo<T>(step: T -> T, x: T)
    ensures Iterate(step, x, 1) == step(x) && Iterate(step, x, 2) == step(step(x))
  {
    assert Iterate(step, x, 0) == x;
  }

  // ---------- one run, seen through the values ----------

  /** The values phases 1, 2 and the rewrites of 3 and 4 do not touch. */
  ghost predicate Blind(f: string -> seq<string>) {
    && (forall l :: IsPanel(l) || l == "" || l[0] == '#' ==> f(l) == [])
    && (forall l :: IsLegacyUrl(l) ==> f(FixUrl(l)) == f(l))
    && (forall l :: IsPreferIpv4(l) ==> f(ToIpv4Only(l)) == f(l))
  }

  function DefaultOf(test: string -> bool, lines: seq<string>, line: string): seq<string> {
    if Has(lines, test) then [] else [line]
  }

  /** The lines phase 4 adds, for the tests that fail. */
  function Defaults(lines: seq<string>): seq<string> {
    DefaultOf(IsStrategy, lines, "SINGBOX_DIRECT_DOMAIN_STRATEGY=ipv4_only")
    + DefaultOf(IsTimeout, lines, "SINGBOX_DIRECT_CONNECT_TIMEOUT=2s")
    + DefaultOf(IsDelay, lines, "SINGBOX_DIRECT_FALLBACK_DELAY=100ms")
  }

  lemma {:induction false} StrategyStays(lines: seq<string>)
    ensures Has(Canonical(lines), IsStrategy) == Has(lines, IsStrategy)
  {
    if lines == [] {
    } else if IsPreferIpv4(lines[0]) {
      Kinds(lines[0]);
      assert Canonical(lines)[0] == ToIpv4Only(lines[0]);
    } else {
      StrategyStays(lines[1..]);
      assert Canonical(lines)[1..] == Canonical(lines[1..]);
    }
  }

  lemma KindsOfDefault(l: string)
    ensures IsStrategy(l) || IsTimeout(l) || IsDelay(l) ==> !IsPanel(l) && !IsLegacyUrl(l) && l != "" && l[0] == 'S'
    ensures IsLegacyUrl(l) ==> !IsStrategy(FixUrl(l)) && !IsTimeout(FixUrl(l)) && !IsDelay(FixUrl(l))
    ensures IsPreferIpv4(l) ==> !IsTimeout(l) && !IsDelay(l)
    ensures !IsTimeout(ToIpv4Only(l)) && !IsDelay(ToIpv4Only(l))
    ensures IsStrategy(l) ==> !IsTimeout(l) && !IsDelay(l)
  {
    Kinds(l);
    if IsLegacyUrl(l) {
      FixedUrlKind(l);
    }
    TimingKinds(l);
    TimingKinds(ToIpv4Only(l));
  }

  lemma TimingKinds(l: string)
    ensures IsStrategy(l) ==> |l| > 15 && l[15] == 'D'
    ensures IsTimeout(l) ==> |l| > 15 && l[15] == 'C'
    ensures IsDelay(l) ==> |l| > 15 && l[15] == 'F'
  {}

  lemma BackfillCommented(domain: string)
    ensures BackfillLines(domain)[0] != "" && BackfillLines(domain)[0][0] == '#'
  {
  }

  lemma CountBackfill(lines: seq<string>, test: string -> bool)
    requires forall l :: IsPanel(l) || (l != "" && l[0] == '#') ==> !test(l)
    ensures Count(Backfill(lines), test) == Count(lines, test)
  {
    if ExtractDomain(lines).Some? {
      var domain := ExtractDomain(lines).value;
      BackfillKinds(domain);
      BackfillCommented(domain);
      CountPair(BackfillLines(domain)[0], BackfillLines(domain)[1], test);
      CountInsert(lines, BackfillLines(domain), test);
    }
  }

  lemma HasThroughInserts(lines: seq<string>, test: string -> bool)
    requires forall l :: IsPanel(l) || (l != "" && l[0] == '#') ==> !test(l)
    ensures Has(Relocate(Backfill(lines)), test) == Has(lines, test)
  {
    var after1 := Backfill(lines);
    HasCount(lines, test);
    HasCount(Relocate(after1), test);
    CountBackfill(lines, test);
    HasCount(after1, IsPanel);
    var d := First(after1, IsPanel);
    if d.Some? {
      CountStrip(after1, test);
      CountInsert(StripPanel(after1), [d.value], test);
      assert [d.value][1..] == [];
    }
  }

  /** The phases before the append keep what its tests ask for. */
  lemma TestsStay(lines: seq<string>)
    ensures var c := Canonical(FixLegacyAppUrl(Relocate(Backfill(lines))));
            && Has(c, IsStrategy) == Has(lines, IsStrategy)
            && Has(c, IsTimeout) == Has(lines, IsTimeout)
            && Has(c, IsDelay) == Has(lines, IsDelay)
  {
    var r := Relocate(Backfill(lines));
    var f := FixLegacyAppUrl(r);
    forall l
      ensures IsStrategy(l) || IsTimeout(l) || IsDelay(l) ==> !IsPanel(l) && !IsLegacyUrl(l) && l != "" && l[0] == 'S'
      ensures IsLegacyUrl(l) ==> !IsStrategy(FixUrl(l)) && !IsTimeout(FixUrl(l)) && !IsDelay(FixUrl(l))
      ensures IsPreferIpv4(l) ==> !IsTimeout(l) && !IsDelay(l)
      ensures !IsTimeout(ToIpv4Only(l)) && !IsDelay(ToIpv4Only(l))
    {
      KindsOfDefault(l);
    }
    HasThroughInserts(lines, IsStrategy);
    HasThroughInserts(lines, IsTimeout);
    HasThroughInserts(lines, IsDelay);
    FirstReplace(r, IsLegacyUrl, FixUrl, IsStrategy);
    FirstReplace(r, IsLegacyUrl, FixUrl, IsTimeout);
    FirstReplace(r, IsLegacyUrl, FixUrl, IsDelay);
    StrategyStays(f);
    FirstReplace(f, IsPreferIpv4, ToIpv4Only, IsTimeout);
    FirstReplace(f, IsPreferIpv4, ToIpv4Only, IsDelay);
  }

  lemma GatherBackfill(lines: seq<string>, f: string -> seq<string>)
    requires Blind(f)
    ensures Gather(Backfill(lines), f) == Gather(lines, f)
  {
    if ExtractDomain(lines).Some? {
      var domain := ExtractDomain(lines).value;
      BackfillKinds(domain);
      BackfillCommented(domain);
      GatherPair(BackfillLines(domain)[0], BackfillLines(domain)[1], f);
      GatherInsert(lines, BackfillLines(domain), f);
    }
  }

  lemma GatherPair(a: string, b: string, f: string -> seq<string>)
    ensures Gather([a], f) == f(a) && Gather([a, b], f) == f(a) + f(b)
  {
    assert [a][1..] == [] && [a, b][1..] == [b] && [b][1..] == [];
  }

  lemma GatherRelocate(lines: seq<string>, f: string -> seq<string>)
    requires Blind(f)
    ensures Gather(Relocate(lines), f) == Gather(lines, f)
  {
    HasCount(lines, IsPanel);
    var d := First(lines, IsPanel);
    if d.Some? {
      GatherStrip(lines, f);
      GatherPair(d.value, d.value, f);
      GatherInsert(StripPanel(lines), [d.value], f);
    }
  }

  lemma GatherEmpty(lines: seq<string>, f: string -> seq<string>)
    requires f("") == []
    ensures Gather(lines + [""], f) == Gather(lines, f)
  {
    GatherPair("", "", f);
    GatherAppend(lines, [""], f);
  }

  lemma GatherBody(c: seq<string>, f: string -> seq<string>)
    requires f("") == []
    ensures Gather(Body(c), f) == Gather(c, f)
  {
    if EndsWithNewline(c) {
      assert c == Body(c) + [""];
      GatherEmpty(Body(c), f);
    }
  }

  lemma GatherAdditions(c: seq<string>, f: string -> seq<string>)
    requires Blind(f)
    ensures Gather(Additions(c), f) == Gather(Defaults(c), f)
  {
    AdditionsSplit(c);
    CommentGathers(DEFAULTS_COMMENT, Defaults(c), f);
  }

  lemma AdditionsSplit(c: seq<string>)
    ensures Additions(c) == [DEFAULTS_COMMENT] + Defaults(c) && DEFAULTS_COMMENT[0] == '#'
  {
  }

  lemma CommentGathers(comment: string, lines: seq<string>, f: string -> seq<string>)
    requires f(comment) == []
    ensures Gather([comment] + lines, f) == Gather(lines, f)
  {
    GatherPair(comment, "", f);
    GatherAppend([comment], lines, f);
  }

  lemma GatherDefaults(c: seq<string>, f: string -> seq<string>)
    requires Blind(f)
    ensures Gather(AppendDefaults(c), f) == Gather(c, f) + Gather(Defaults(c), f)
  {
    if HasDefaults(c) {
      assert Defaults(c) == [];
    } else {
      GatherAdditions(c, f);
      GatherBody(c, f);
      GatherAppend(Body(c), Additions(c), f);
      GatherEmpty(Body(c) + Additions(c), f);
    }
  }

  lemma GatherMigrate(lines: seq<string>, f: string -> seq<string>)
    requires Blind(f)
    ensures Gather(Migrate(lines), f) == Gather(lines, f) + Gather(Defaults(lines), f)
  {
    var b := Backfill(lines);
    var r := Relocate(b);
    GatherBackfill(lines, f);
    GatherRelocate(b, f);
    GatherReplace(r, IsLegacyUrl, FixUrl, f);
    GatherReplace(FixLegacyAppUrl(r), IsPreferIpv4, ToIpv4Only, f);
    GatherDefaults(Canonical(FixLegacyAppUrl(r)), f);
    TestsStay(lines);
  }

  /** Such values are as before, plus those of the lines the first run adds, after any number of runs. */
  lemma GatherRuns(lines: seq<string>, f: string -> seq<string>, n: nat)
    requires Blind(f) && n >= 1
    ensures Gather(Run(lines, n), f) == Gather(lines, f) + Gather(Defaults(lines), f)
  {
    var values := Gather(lines, f) + Gather(Defaults(lines), f);
    var inv := (y: seq<string>) => HasDefaults(y) && Gather(y, f) == values;
    forall y | inv(y)
      ensures inv(Migrate(y))
    {
      MigrateTally(y);
      GatherMigrate(y, f);
      assert Defaults(y) == [];
    }
    MigrateTally(lines);
    GatherMigrate(lines, f);
    FirstTwo(Migrate, lines);
    InvariantFrom(Migrate, inv, lines, 1, n);
  }

  lemma GatherLast(lines: seq<string>, f: string -> seq<string>, n: nat) returns (last: seq<string>)
    requires Blind(f) && n >= 1
    ensures last == Run(lines, n)
    ensures Gather(last, f) == Gather(lines, f) + Gather(Defaults(lines), f)
    ensures n >= PreferLines(lines) ==> PreferLines(last) == 0
    ensures n >= LegacyUrls(lines) ==> LegacyUrls(last) == 0
  {
    GatherRuns(lines, f, n);
    RunCounts(lines, n);
    last := Run(lines, n);
  }

  // ---------- the direct-outbound keys ----------

  lemma {:induction false} HasDefinition(lines: seq<string>, key: string, test: string -> bool)
    requires Has(lines, test) && forall l :: test(l) ==> KeyOf(l) == Some(key)
    ensures Definitions(lines, key) != []
  {
    if !test(lines[0]) {
      HasDefinition(lines[1..], key, test);
    }
  }

  /** After any run the parser finds all three direct-outbound keys. */
  lemma DefaultsDefined(lines: seq<string>, key: string)
    requires key == "SINGBOX_DIRECT_DOMAIN_STRATEGY" || key == "SINGBOX_DIRECT_CONNECT_TIMEOUT"
          || key == "SINGBOX_DIRECT_FALLBACK_DELAY"
    ensures key in Meaning(Migrate(lines))
  {
    MigrateTally(lines);
    MeaningIsLast(Migrate(lines), key);
    DefaultKey(Migrate(lines), key);
  }

  lemma DefaultKey(after: seq<string>, key: string)
    requires HasDefaults(after)
    requires key == "SINGBOX_DIRECT_DOMAIN_STRATEGY" || key == "SINGBOX_DIRECT_CONNECT_TIMEOUT"
          || key == "SINGBOX_DIRECT_FALLBACK_DELAY"
    ensures Definitions(after, key) != []
  {
    forall l
      ensures IsStrategy(l) ==> KeyOf(l) == Some("SINGBOX_DIRECT_DOMAIN_STRATEGY")
      ensures IsTimeout(l) ==> KeyOf(l) == Some("SINGBOX_DIRECT_CONNECT_TIMEOUT")
      ensures IsDelay(l) ==> KeyOf(l) == Some("SINGBOX_DIRECT_FALLBACK_DELAY")
    {
      StrategyKey(l);
      TimeoutKey(l);
      DelayKey(l);
    }
    if key == "SINGBOX_DIRECT_DOMAIN_STRATEGY" {
      HasDefinition(after, key, IsStrategy);
    } else if key == "SINGBOX_DIRECT_CONNECT_TIMEOUT" {
      HasDefinition(after, key, IsTimeout);
    } else {
      HasDefinition(after, key, IsDelay);
    }
  }

  /** The default a key gets when no line at column 0 starts with it. */
  lemma DefaultValues(lines: seq<string>, key: string, f: string -> seq<string>)
    requires forall l :: IsDefault(l) ==> f(l) == Own(l, key)
    ensures Gather(Defaults(lines), f)
         == (if key == "SINGBOX_DIRECT_DOMAIN_STRATEGY" && !Has(lines, IsStrategy) then ["ipv4_only"] else [])
          + (if key == "SINGBOX_DIRECT_CONNECT_TIMEOUT" && !Has(lines, IsTimeout) then ["2s"] else [])
          + (if key == "SINGBOX_DIRECT_FALLBACK_DELAY" && !Has(lines, IsDelay) then ["100ms"] else [])
  {
    DefaultsAre(lines);
    GatherOwn(Defaults(lines), key, f);
    AdditionsSplit(lines);
    CommentFirst(DEFAULTS_COMMENT, Defaults(lines), key);
    AdditionsMeaning(lines, key);
  }

  lemma DefaultsAre(lines: seq<string>)
    ensures forall i :: 0 <= i < |Defaults(lines)| ==> IsDefault(Defaults(lines)[i])
  {
  }

  predicate IsDefault(l: string) {
    || l == "SINGBOX_DIRECT_DOMAIN_STRATEGY=ipv4_only"
    || l == "SINGBOX_DIRECT_CONNECT_TIMEOUT=2s"
    || l == "SINGBOX_DIRECT_FALLBACK_DELAY=100ms"
  }

  /** The lines phases 3 and 4 rewrite give values to their own keys only. */
  lemma RewrittenLine(l: string, key: string)
    ensures key != "APP_URL" && IsLegacyUrl(l) ==> Own(l, key) == [] && Own(FixUrl(l), key) == []
    ensures key != "SINGBOX_DIRECT_DOMAIN_STRATEGY" && IsPreferIpv4(l) ==> Own(l, key) == [] && Own(ToIpv4Only(l), key) == []
  {
    if IsLegacyUrl(l) {
      LegacyKey(l);
    }
    if IsPreferIpv4(l) && key != "SINGBOX_DIRECT_DOMAIN_STRATEGY" {
      StrategyLine(l, key);
    }
  }

  lemma StrategyLine(l: string, key: string)
    requires IsPreferIpv4(l) && key != "SINGBOX_DIRECT_DOMAIN_STRATEGY"
    ensures Own(l, key) == [] && Own(ToIpv4Only(l), key) == []
  {
    PreferIsStrategy(l);
    StrategyKey(l);
    StrategyKey(ToIpv4Only(l));
  }

  lemma PreferIsStrategy(l: string)
    ensures IsPreferIpv4(l) ==> IsStrategy(l)
    ensures IsStrategy(ToIpv4Only(l))
  {
    Kinds(l);
  }

  /** Its lines are not among those the migrator rewrites or moves. */
  predicate Unrewritten(key: string) {
    key != "PANEL_DOMAIN" && key != "APP_URL" && key != "SINGBOX_DIRECT_DOMAIN_STRATEGY"
  }

  lemma OwnIsBlind(key: string, f: string -> seq<string>)
    requires Unrewritten(key)
    requires forall l :: f(l) == Own(l, key)
    ensures Blind(f)
  {
    forall l
      ensures IsPanel(l) || l == "" || l[0] == '#' ==> f(l) == []
      ensures IsLegacyUrl(l) ==> f(FixUrl(l)) == f(l)
      ensures IsPreferIpv4(l) ==> f(ToIpv4Only(l)) == f(l)
    {
      SilentLine(l, key);
      RewrittenLine(l, key);
    }
  }

  lemma SilentLine(l: string, key: string)
    requires key != "PANEL_DOMAIN"
    ensures IsPanel(l) || l == "" || l[0] == '#' ==> Own(l, key) == []
  {
    PanelKey(l);
    if l == "" || l[0] == '#' {
      NothingDefined(l);
    }
  }

  /** After n >= 1 runs a timeout definition is only ever added, at the end, and only when column 0 had none. */
  lemma TimeoutAfterRuns(lines: seq<string>, key: string, n: nat)
    requires key == "SINGBOX_DIRECT_CONNECT_TIMEOUT" && n >= 1
    ensures Definitions(Run(lines, n), key) == Definitions(lines, key) + if Has(lines, IsTimeout) then [] else ["2s"]
  {
    var added := OwnAdded(lines, key, n);
  }

  /** The same for the fallback delay. */
  lemma DelayAfterRuns(lines: seq<string>, key: string, n: nat)
    requires key == "SINGBOX_DIRECT_FALLBACK_DELAY" && n >= 1
    ensures Definitions(Run(lines, n), key) == Definitions(lines, key) + if Has(lines, IsDelay) then [] else ["100ms"]
  {
    var added := OwnAdded(lines, key, n);
  }

  lemma OwnAdded(lines: seq<string>, key: string, n: nat) returns (added: seq<string>)
    requires Unrewritten(key) && n >= 1
    ensures Definitions(Run(lines, n), key) == Definitions(lines, key) + added
    ensures added == (if key == "SINGBOX_DIRECT_CONNECT_TIMEOUT" && !Has(lines, IsTimeout) then ["2s"] else [])
                   + (if key == "SINGBOX_DIRECT_FALLBACK_DELAY" && !Has(lines, IsDelay) then ["100ms"] else [])
  {
    var f := (l: string) => Own(l, key);
    added := Gather(Defaults(lines), f);
    DefaultValues(lines, key, f);
    OwnRuns(lines, key, f, n);
  }

  lemma OwnRuns(lines: seq<string>, key: string, f: string -> seq<string>, n: nat)
    requires Unrewritten(key) && n >= 1
    requires forall l :: f(l) == Own(l, key)
    ensures Definitions(Run(lines, n), key) == Definitions(lines, key) + Gather(Defaults(lines), f)
  {
    OwnIsBlind(key, f);
    GatherRuns(lines, f, n);
    GatherOwn(lines, key, f);
    GatherOwn(Run(lines, n), key, f);
  }

  // ---------- the domain strategy ----------

  /** What a line says once it is canonical. */
  function CanonicalLine(l: string): string {
    if IsPreferIpv4(l) then ToIpv4Only(l) else l
  }

  /** The file with every prefer_ipv4 line at column 0 made canonical. */
  function AllCanonical(lines: seq<string>): seq<string> {
    seq(|lines|, i requires 0 <= i < |lines| => CanonicalLine(lines[i]))
  }

  lemma {:induction false} GatherEdited(lines: seq<string>, edited: seq<string>, key: string, f: string -> seq<string>)
    requires |edited| == |lines| && forall i :: 0 <= i < |lines| ==> f(lines[i]) == Own(edited[i], key)
    ensures Gather(lines, f) == Definitions(edited, key)
  {
    if lines == [] {
    } else {
      GatherEdited(lines[1..], edited[1..], key, f);
    }
  }

  lemma CanonicalIsBlind(key: string, f: string -> seq<string>)
    requires key == "SINGBOX_DIRECT_DOMAIN_STRATEGY" && forall l :: f(l) == Own(CanonicalLine(l), key)
    ensures Blind(f)
  {
    forall l
      ensures IsPanel(l) || l == "" || l[0] == '#' ==> f(l) == []
      ensures IsLegacyUrl(l) ==> f(FixUrl(l)) == f(l)
      ensures IsPreferIpv4(l) ==> f(ToIpv4Only(l)) == f(l)
    {
      SilentLine(l, key);
      Kinds(l);
      if IsLegacyUrl(l) {
        LegacyKey(l);
        AllKinds();
      }
    }
  }

  lemma NoPreferLeft(lines: seq<string>, key: string, f: string -> seq<string>)
    requires PreferLines(lines) == 0 && forall l :: f(l) == Own(CanonicalLine(l), key)
    ensures Gather(lines, f) == Definitions(lines, key)
  {
    forall i | 0 <= i < |lines|
      ensures f(lines[i]) == Own(lines[i], key)
    {
      NoneCounted(lines, IsPreferIpv4, i);
    }
    GatherOwn(lines, key, f);
  }

  lemma {:induction false} NoneCounted(lines: seq<string>, test: string -> bool, i: nat)
    requires Count(lines, test) == 0 && i < |lines|
    ensures !test(lines[i])
  {
    if i == 0 {
    } else {
      NoneCounted(lines[1..], test, i - 1);
    }
  }

  /**
   After n >= 1 runs, n at least the number of prefer_ipv4 lines, the parser finds the
   strategies of the canonical lines, and ipv4_only at the end if column 0 had none.
   */
  lemma StrategyAfterRuns(lines: seq<string>, key: string, n: nat)
    requires key == "SINGBOX_DIRECT_DOMAIN_STRATEGY" && n >= 1 && n >= PreferLines(lines)
    ensures Definitions(Run(lines, n), key)
         == Definitions(AllCanonical(lines), key) + if Has(lines, IsStrategy) then [] else ["ipv4_only"]
  {
    var f := (l: string) => Own(CanonicalLine(l), key);
    StrategyRuns(lines, key, f, n);
  }

  lemma StrategyRuns(lines: seq<string>, key: string, f: string -> seq<string>, n: nat)
    requires key == "SINGBOX_DIRECT_DOMAIN_STRATEGY" && forall l :: f(l) == Own(CanonicalLine(l), key)
    requires n >= 1
    ensures n >= PreferLines(lines) ==>
              Definitions(Run(lines, n), key)
              == Definitions(AllCanonical(lines), key) + if Has(lines, IsStrategy) then [] else ["ipv4_only"]
  {
    CanonicalIsBlind(key, f);
    var last := GatherLast(lines, f, n);
    if n >= PreferLines(lines) {
      StrategyLast(lines, last, key, f);
    }
  }

  lemma StrategyLast(lines: seq<string>, last: seq<string>, key: string, f: string -> seq<string>)
    requires key == "SINGBOX_DIRECT_DOMAIN_STRATEGY" && forall l :: f(l) == Own(CanonicalLine(l), key)
    requires PreferLines(last) == 0 && Gather(last, f) == Gather(lines, f) + Gather(Defaults(lines), f)
    ensures Definitions(last, key)
         == Definitions(AllCanonical(lines), key) + if Has(lines, IsStrategy) then [] else ["ipv4_only"]
  {
    NoPreferLeft(last, key, f);
    CanonicalGather(lines, key, f);
  }

  lemma CanonicalGather(lines: seq<string>, key: string, f: string -> seq<string>)
    requires key == "SINGBOX_DIRECT_DOMAIN_STRATEGY" && forall l :: f(l) == Own(CanonicalLine(l), key)
    ensures Gather(lines, f) == Definitions(AllCanonical(lines), key)
    ensures Gather(Defaults(lines), f) == if Has(lines, IsStrategy) then [] else ["ipv4_only"]
  {
    GatherEdited(lines, AllCanonical(lines), key, f);
    forall l | IsDefault(l)
      ensures f(l) == Own(l, key)
    {
      DefaultKept(l);
    }
    DefaultValues(lines, key, f);
  }

  lemma DefaultKept(l: string)
    requires IsDefault(l)
    ensures CanonicalLine(l) == l
  {
  }

  // ---------- APP_URL ----------

  /** The file with every legacy URL rewritten. */
  function AllFixed(lines: seq<string>): seq<string> {
    seq(|lines|, i requires 0 <= i < |lines| => FixUrl(lines[i]))
  }

  lemma FixedLine(l: string)
    ensures IsLegacyUrl(l) ==> FixUrl(FixUrl(l)) == FixUrl(l)
    ensures IsPanel(l) || l == "" || l[0] == '#' || IsPreferIpv4(l) ==> FixUrl(l) == l
    ensures FixUrl(ToIpv4Only(l)) == ToIpv4Only(l)
  {
    Kinds(l);
    Kinds(ToIpv4Only(l));
  }

  lemma FixedIsBlind(key: string, f: string -> seq<string>)
    requires key == "APP_URL" && forall l :: f(l) == Own(FixUrl(l), key)
    ensures Blind(f)
  {
    forall l
      ensures IsPanel(l) || l == "" || l[0] == '#' ==> f(l) == []
      ensures IsLegacyUrl(l) ==> f(FixUrl(l)) == f(l)
      ensures IsPreferIpv4(l) ==> f(ToIpv4Only(l)) == f(l)
    {
      FixedLine(l);
      SilentLine(l, key);
      RewrittenLine(l, key);
    }
  }

  lemma NoLegacyLeft(lines: seq<string>, key: string, f: string -> seq<string>)
    requires LegacyUrls(lines) == 0 && forall l :: f(l) == Own(FixUrl(l), key)
    ensures Gather(lines, f) == Definitions(lines, key)
  {
    forall i | 0 <= i < |lines|
      ensures f(lines[i]) == Own(lines[i], key)
    {
      NoneCounted(lines, IsLegacyUrl, i);
    }
    GatherOwn(lines, key, f);
  }

  /** After n >= 1 runs, n at least the number of legacy URLs, the parser finds the URLs of the rewritten lines. */
  lemma AppUrlAfterRuns(lines: seq<string>, key: string, n: nat)
    requires key == "APP_URL" && n >= 1 && n >= LegacyUrls(lines)
    ensures Definitions(Run(lines, n), key) == Definitions(AllFixed(lines), key)
  {
    var f := (l: string) => Own(FixUrl(l), key);
    AppUrlRuns(lines, key, f, n);
  }

  lemma AppUrlRuns(lines: seq<string>, key: string, f: string -> seq<string>, n: nat)
    requires key == "APP_URL" && forall l :: f(l) == Own(FixUrl(l), key)
    requires n >= 1
    ensures n >= LegacyUrls(lines) ==> Definitions(Run(lines, n), key) == Definitions(AllFixed(lines), key)
  {
    FixedIsBlind(key, f);
    var last := GatherLast(lines, f, n);
    if n >= LegacyUrls(lines) {
      AppUrlLast(lines, last, key, f);
    }
  }

  lemma AppUrlLast(lines: seq<string>, last: seq<string>, key: string, f: string -> seq<string>)
    requires key == "APP_URL" && forall l :: f(l) == Own(FixUrl(l), key)
    requires LegacyUrls(last) == 0 && Gather(last, f) == Gather(lines, f) + Gather(Defaults(lines), f)
    ensures Definitions(last, key) == Definitions(AllFixed(lines), key)
  {
    NoLegacyLeft(last, key, f);
    FixedGather(lines, key, f);
  }

  lemma FixedGather(lines: seq<string>, key: string, f: string -> seq<string>)
    requires key == "APP_URL" && forall l :: f(l) == Own(FixUrl(l), key)
    ensures Gather(lines, f) == Definitions(AllFixed(lines), key) && Gather(Defaults(lines), f) == []
  {
    GatherEdited(lines, AllFixed(lines), key, f);
    DefaultsNotUrls(lines, key, f);
  }

  /** The rewrite changes the variable in the value the parser reads, and nothing else. */
  lemma FixedValue(scheme: string, rest: string, key: string)
    requires (scheme == "APP_URL=http://" || scheme == "APP_URL=https://") && key == "APP_URL"
    ensures var line, url := scheme + "${DOMAIN}" + rest, scheme[8..];
            && IsLegacyUrl(line)
            && ParseLine(line) == Some((key, url + "${DOMAIN}" + Rest(rest)))
            && ParseLine(FixUrl(line)) == Some((key, url + "${PANEL_DOMAIN}" + Rest(rest)))
  {
    FixOne(scheme, rest);
    SchemeSplit(scheme, key);
    SchemeValue(scheme, key, scheme[8..], "${DOMAIN}", rest);
    SchemeValue(scheme, key, scheme[8..], "${PANEL_DOMAIN}", rest);
  }

  lemma SchemeSplit(scheme: string, key: string)
    requires (scheme == "APP_URL=http://" || scheme == "APP_URL=https://") && key == "APP_URL"
    ensures scheme == key + "=" + scheme[8..] && PlainFront(scheme[8..])
  {
    assert scheme[..8] == "APP_URL=" == key + "=";
  }

  lemma SchemeValue(scheme: string, key: string, url: string, variable: string, rest: string)
    requires key != "" && IdentStart(key[0]) && forall i :: 0 <= i < |key| ==> IdentPart(key[i])
    requires scheme == key + "=" + url && PlainFront(url) && forall i :: 0 <= i < |variable| ==> !Space(variable[i]) && variable[i] != '#'
    ensures ParseLine(scheme + variable + rest) == Some((key, url + variable + Rest(rest)))
  {
    var front := url + variable;
    assert scheme + variable + rest == key + "=" + front + rest;
    PlainValueOf(scheme + variable + rest, key, front, rest);
  }

  lemma DefaultsNotUrls(lines: seq<string>, key: string, f: string -> seq<string>)
    requires key == "APP_URL" && forall l :: f(l) == Own(FixUrl(l), key)
    ensures Gather(Defaults(lines), f) == []
  {
    forall l | IsDefault(l)
      ensures f(l) == Own(l, key)
    {
      DefaultFixed(l);
    }
    DefaultValues(lines, key, f);
  }

  lemma DefaultFixed(l: string)
    requires IsDefault(l)
    ensures FixUrl(l) == l
  {
    DefaultStart(l);
    Kinds(l);
  }

  lemma DefaultStart(l: string)
    requires IsDefault(l)
    ensures l != "" && l[0] == 'S'
  {
  }

  // ---------- PANEL_DOMAIN ----------

  lemma {:induction false} PanelDefinitions(lines: seq<string>)
    ensures |Definitions(lines, "PANEL_DOMAIN")|
         == |Definitions(StripPanel(lines), "PANEL_DOMAIN")| + Count(lines, IsPanel)
  {
    if lines == [] {
    } else {
      PanelDefinitions(lines[1..]);
      PanelKey(lines[0]);
      if IsPanel(lines[0]) {
        assert StripPanel(lines) == StripPanel(lines[1..]);
      } else {
        assert StripPanel(lines)[1..] == StripPanel(lines[1..]);
      }
    }
  }

  lemma {:induction false} InsertedDefinition(lines: seq<string>, extra: seq<string>, key: string)
    requires Count(lines, IsDomain) > 0 && Definitions(lines, key) == []
    ensures Definitions(InsertAfterDomain(lines, extra), key) == Definitions(extra, key)
  {
    if IsDomain(lines[0]) {
      DefinitionsAppend(extra, lines[1..], key);
      assert InsertAfterDomain(lines, extra) == [lines[0]] + (extra + lines[1..]);
      assert InsertAfterDomain(lines, extra)[1..] == extra + lines[1..];
    } else {
      InsertedDefinition(lines[1..], extra, key);
      assert InsertAfterDomain(lines, extra)[1..] == InsertAfterDomain(lines[1..], extra);
    }
  }

  /** Phases 3 and 4 leave the definitions of PANEL_DOMAIN alone. */
  lemma PanelLaterPhases(r: seq<string>, key: string)
    requires key == "PANEL_DOMAIN"
    ensures var after := SingboxDefaults(FixLegacyAppUrl(r));
            && Definitions(after, key) == Definitions(r, key)
            && Count(after, IsPanel) == Count(r, IsPanel) && Count(after, IsDomain) == Count(r, IsDomain)
  {
    var f := FixLegacyAppUrl(r);
    FixTally(r);
    FixMeaning(r, key);
    CanonicalTally(f);
    CanonicalMeaning(f, key);
    AppendTally(Canonical(f));
    AppendMeaning(Canonical(f), key);
    AdditionsMeaning(Canonical(f), key);
    assert TallyOf(SingboxDefaults(f)).domains == TallyOf(r).domains;
  }

  /**
   A run takes away the last definition at column 0 exactly when the first one comes
   after a use and there is no DOMAIN= line to move it to.
   */
  lemma PanelLostIff(lines: seq<string>)
    requires Count(lines, IsPanel) > 0
    ensures Count(Migrate(lines), IsPanel) == 0 <==> DefinedAfterUse(lines) && Count(lines, IsDomain) == 0
  {
    HasCount(lines, IsPanel);
    PanelLaterPhases(Relocate(lines), "PANEL_DOMAIN");
    RelocatedTally(lines, First(lines, IsPanel).value);
  }

  /** Every definition of PANEL_DOMAIN the parser sees starts at column 0. */
  predicate AtColumnZero(lines: seq<string>) {
    |Definitions(lines, "PANEL_DOMAIN")| == Count(lines, IsPanel)
  }

  lemma {:induction false} FirstDefinition(lines: seq<string>, key: string)
    requires key == "PANEL_DOMAIN" && AtColumnZero(lines) && Has(lines, IsPanel)
    ensures Definitions(lines, key) != []
    ensures Definitions([First(lines, IsPanel).value], key) == [Definitions(lines, key)[0]]
  {
    PanelKey(lines[0]);
    DefinitionsOne(lines[0], key);
    PanelDefinitions(lines);
    PanelDefinitions(lines[1..]);
    if IsPanel(lines[0]) {
    } else {
      assert StripPanel(lines)[1..] == StripPanel(lines[1..]);
      FirstDefinition(lines[1..], key);
    }
  }

  /** What relocation leaves: the first definition, if there is a line to put it after. */
  function Moved(values: seq<string>, hasDomain: bool): seq<string>
    requires values != []
  {
    if hasDomain then [values[0]] else []
  }

  lemma RelocatedDefinitions(lines: seq<string>, key: string)
    requires key == "PANEL_DOMAIN" && AtColumnZero(lines) && Has(lines, IsPanel)
    ensures Definitions(lines, key) != []
    ensures Definitions(Relocated(lines, First(lines, IsPanel).value), key)
         == Moved(Definitions(lines, key), Count(lines, IsDomain) > 0)
  {
    var d, stripped := First(lines, IsPanel).value, StripPanel(lines);
    FirstDefinition(lines, key);
    PanelDefinitions(lines);
    HasCount(lines, IsPanel);
    AllKinds();
    CountStrip(lines, IsDomain);
    if Count(lines, IsDomain) > 0 {
      InsertedDefinition(stripped, [d], key);
    } else {
      InsertNowhere(stripped, [d]);
    }
  }

  lemma RelocateDefinitions(lines: seq<string>, key: string)
    requires key == "PANEL_DOMAIN" && AtColumnZero(lines) && Has(lines, IsPanel)
    ensures Definitions(lines, key) != []
    ensures Definitions(Relocate(lines), key)
         == if DefinedAfterUse(lines) then Moved(Definitions(lines, key), Count(lines, IsDomain) > 0) else Definitions(lines, key)
  {
    FirstDefinition(lines, key);
    RelocatedDefinitions(lines, key);
  }

  /** One run, on a file with a definition. */
  lemma PanelOneRun(lines: seq<string>, key: string)
    requires key == "PANEL_DOMAIN" && AtColumnZero(lines) && Has(lines, IsPanel)
    ensures Definitions(lines, key) != []
    ensures Definitions(Migrate(lines), key)
         == if DefinedAfterUse(lines) then Moved(Definitions(lines, key), Count(lines, IsDomain) > 0) else Definitions(lines, key)
    ensures !DefinedAfterUse(lines) ==> AtColumnZero(Migrate(lines)) && Has(Migrate(lines), IsPanel)
    ensures Count(Migrate(lines), IsDomain) == Count(lines, IsDomain)
  {
    RelocateDefinitions(lines, key);
    PanelLaterPhases(Relocate(lines), key);
    RelocateTally(lines);
    assert TallyOf(Relocate(lines)).domains == TallyOf(lines).domains;
    HasCount(lines, IsPanel);
    HasCount(Migrate(lines), IsPanel);
  }

  /** Phases 1 and 2 have nothing to do, now or after later runs. */
  predicate Idle(lines: seq<string>) {
    Backfill(lines) == lines && Relocate(lines) == lines && !NeedsSecondRun(lines)
  }

  lemma IdleStep(lines: seq<string>, key: string)
    requires key == "PANEL_DOMAIN" && Idle(lines)
    ensures Idle(Migrate(lines)) && Definitions(Migrate(lines), key) == Definitions(lines, key)
  {
    PanelLaterPhases(lines, key);
    IdleAfterRun(lines);
  }

  /** A run leaves them nothing to do exactly when the file does not need a second run. */
  lemma IdleAfterRun(lines: seq<string>)
    ensures Idle(Migrate(lines)) <==> !NeedsSecondRun(lines)
  {
    MigrateTally(lines);
    BackfillSettled(Migrate(lines));
    RelocateAfterRun(lines);
    UpsetReadOff(lines);
    NeverAfterRun(lines);
  }

  /** What an idle file, after k runs, defines, all later ones do. */
  lemma AfterIdle(lines: seq<string>, idle: seq<string>, key: string, k: nat, n: nat)
    requires key == "PANEL_DOMAIN" && k <= n && Idle(idle)
    requires (k == 0 && idle == lines) || (k == 1 && idle == Migrate(lines)) || (k == 2 && idle == Migrate(Migrate(lines)))
    ensures Definitions(Run(lines, n), key) == Definitions(idle, key)
  {
    var values := Definitions(idle, key);
    var inv := (y: seq<string>) => Idle(y) && Definitions(y, key) == values;
    forall y | inv(y)
      ensures inv(Migrate(y))
    {
      IdleStep(y, key);
    }
    FirstTwo(Migrate, lines);
    InvariantFrom(Migrate, inv, lines, k, n);
  }

  lemma AfterFirstRun(lines: seq<string>, key: string, n: nat)
    requires key == "PANEL_DOMAIN" && n >= 1 && !NeedsSecondRun(lines)
    ensures Definitions(Run(lines, n), key) == Definitions(Migrate(lines), key)
  {
    IdleAfterRun(lines);
    AfterIdle(lines, Migrate(lines), key, 1, n);
  }

  lemma AfterSecondRun(lines: seq<string>, key: string, n: nat)
    requires key == "PANEL_DOMAIN" && n >= 2
    ensures Definitions(Run(lines, n), key) == Definitions(Migrate(Migrate(lines)), key)
  {
    NeverAfterRun(lines);
    IdleAfterRun(Migrate(lines));
    AfterIdle(lines, Migrate(Migrate(lines)), key, 2, n);
  }

  /** Within n runs phase 2 moves the definition. */
  predicate Relocates(lines: seq<string>, n: nat) {
    DefinedAfterUse(lines) || (n >= 2 && NeedsSecondRun(lines))
  }

  /**
   The definitions of PANEL_DOMAIN after n >= 1 runs, in a file that has some, all at
   column 0: all of them as before, unless phase 2 moves the definition; then the
   first one only, or none if there is no DOMAIN= line.
   */
  lemma PanelAfterRuns(lines: seq<string>, key: string, n: nat)
    requires key == "PANEL_DOMAIN" && AtColumnZero(lines) && Has(lines, IsPanel) && n >= 1
    ensures Definitions(lines, key) != []
    ensures Definitions(Run(lines, n), key)
         == if Relocates(lines, n) then Moved(Definitions(lines, key), Count(lines, IsDomain) > 0) else Definitions(lines, key)
  {
    PanelOneRun(lines, key);
    if n == 1 {
      assert Run(lines, 1) == Migrate(Iterate(Migrate, lines, 0));
    } else if NeedsSecondRun(lines) {
      AfterSecondRun(lines, key, n);
      PanelOneRun(Migrate(lines), key);
      RelocateAfterRun(lines);
      UpsetReadOff(lines);
    } else {
      AfterFirstRun(lines, key, n);
    }
  }

  /**
   What the parser reads: the last definition before; after n >= 1 runs the same value
   exactly when nothing is moved, or there is a DOMAIN= line and the first and the last
   definition agree. The key disappears exactly when the definition is moved and
   there is no DOMAIN= line.
   */
  lemma PanelValueKept(lines: seq<string>, key: string, n: nat)
    requires key == "PANEL_DOMAIN" && AtColumnZero(lines) && Has(lines, IsPanel) && n >= 1
    ensures var before, after, values := Meaning(lines), Meaning(Run(lines, n)), Definitions(lines, key);
            && values != [] && key in before
            && (key !in after <==> Relocates(lines, n) && Count(lines, IsDomain) == 0)
            && (key in after && after[key] == before[key]
                <==> !Relocates(lines, n) || (Count(lines, IsDomain) > 0 && values[0] == values[|values| - 1]))
  {
    PanelAfterRuns(lines, key, n);
    LastIsFirst(lines, Run(lines, n), key, Relocates(lines, n), Count(lines, IsDomain) > 0);
  }

  lemma LastIsFirst(lines: seq<string>, after: seq<string>, key: string, moved: bool, hasDomain: bool)
    requires key != "__proto__" && Definitions(lines, key) != []
    requires var values := Definitions(lines, key); Definitions(after, key) == if moved then Moved(values, hasDomain) else values
    ensures var values := Definitions(lines, key);
            && key in Meaning(lines)
            && (key !in Meaning(after) <==> moved && !hasDomain)
            && (key in Meaning(after) && Meaning(after)[key] == Meaning(lines)[key]
                <==> !moved || (hasDomain && values[0] == values[|values| - 1]))
  {
    MeaningIsLast(lines, key);
    MeaningIsLast(after, key);
  }

  lemma BackfilledOnce(lines: seq<string>, comment: string, d: string, key: string)
    requires key == "PANEL_DOMAIN" && Definitions(lines, key) == [] && Count(lines, IsPanel) == 0 && Count(lines, IsDomain) > 0
    requires comment != "" && comment[0] == '#' && IsPanel(d)
    ensures var b := InsertAfterDomain(lines, [comment, d]);
            && Definitions(b, key) == Definitions([d], key) && |Definitions([d], key)| == 1
            && Count(b, IsPanel) == 1 && Count(b, IsDomain) > 0
  {
    var extra := [comment, d];
    assert extra == [comment] + [d];
    InsertedDefinition(lines, extra, key);
    CommentFirst(comment, [d], key);
    PanelKey(d);
    DefinitionsOne(d, key);
    AllKinds();
    Kinds(comment);
    CountInsert(lines, extra, IsPanel);
    CountInsert(lines, extra, IsDomain);
    CountPair(comment, d, IsPanel);
  }

  /** Without a definition, the first run of a file with a DOMAIN value adds one and later runs keep it. */
  lemma PanelBackfilled(lines: seq<string>, key: string, n: nat)
    requires key == "PANEL_DOMAIN" && Definitions(lines, key) == [] && !NoDomainValue(lines) && n >= 1
    ensures Definitions(Run(lines, n), key) == Definitions(["PANEL_DOMAIN=panel." + ExtractDomain(lines).value], key)
    ensures |Definitions(Run(lines, n), key)| == 1
  {
    PanelDefinitions(lines);
    HasCount(lines, IsPanel);
    HasCount(lines, IsDomain);
    var b, d := Backfill(lines), ExtractDomain(lines).value;
    assert BACKFILL_COMMENT[0] == '#';
    PanelLine(d);
    BackfilledOnce(lines, BACKFILL_COMMENT, "PANEL_DOMAIN=panel." + d, key);
    SameFirstRun(lines, n);
    HasCount(b, IsPanel);
    PanelAfterRuns(b, key, n);
  }

  lemma SameFirstRun(lines: seq<string>, n: nat)
    requires n >= 1
    ensures Run(lines, n) == Run(Backfill(lines), n)
  {
    BackfillIdempotent(lines);
    FirstStepFirst(Migrate, lines, n);
    FirstStepFirst(Migrate, Backfill(lines), n);
  }

  /** Without a definition and without a DOMAIN value there never is one. */
  lemma PanelNeverAdded(lines: seq<string>, key: string, n: nat)
    requires key == "PANEL_DOMAIN" && !Has(lines, IsPanel) && NoDomainValue(lines)
    ensures Definitions(Run(lines, n), key) == Definitions(lines, key)
  {
    AfterIdle(lines, lines, key, 0, n);
  }
}
