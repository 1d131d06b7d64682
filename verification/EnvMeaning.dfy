/**
 The `.env` migrator does not change what the file says: `parseDotenv` gives
 every key outside the five the migrator manages the same value before and
 after any number of runs, on lines and on whole file contents.
 */
module EnvMeaning {
  import opened Wrappers
  import opened Dotenv
  import opened EnvMigrate
  import opened EnvMigrateLaws
  import opened EnvMigrateRuns

  predicate Managed(key: string) {
    || key == "PANEL_DOMAIN" || key == "APP_URL" || key == "SINGBOX_DIRECT_DOMAIN_STRATEGY"
    || key == "SINGBOX_DIRECT_CONNECT_TIMEOUT" || key == "SINGBOX_DIRECT_FALLBACK_DELAY"
  }

  // ---------- the key of every line the migrator touches ----------

  lemma PanelKey(l: string)
    ensures IsPanel(l) ==> KeyOf(l) == Some("PANEL_DOMAIN")
  {
    if IsPanel(l) {
      var key := "PANEL_DOMAIN";
      assert key + "=" == "PANEL_DOMAIN=";
      KeyAtColumnZero(l, key);
    }
  }

  lemma UrlKey(l: string)
    ensures "APP_URL=" <= l ==> KeyOf(l) == Some("APP_URL")
  {
    if "APP_URL=" <= l {
      var key := "APP_URL";
      assert key + "=" == "APP_URL=";
      KeyAtColumnZero(l, key);
    }
  }

  lemma LegacyKey(l: string)
    requires IsLegacyUrl(l)
    ensures KeyOf(l) == Some("APP_URL") && KeyOf(FixUrl(l)) == Some("APP_URL")
  {
    assert "APP_URL=" == "APP_URL=http://${DOMAIN}"[..8] == "APP_URL=https://${DOMAIN}"[..8];
    assert "APP_URL=" == "APP_URL=http://${PANEL_DOMAIN}"[..8] == "APP_URL=https://${PANEL_DOMAIN}"[..8];
    UrlKey(l);
    UrlKey(FixUrl(l));
  }

  lemma StrategyKey(l: string)
    ensures IsStrategy(l) ==> KeyOf(l) == Some("SINGBOX_DIRECT_DOMAIN_STRATEGY")
  {
    if IsStrategy(l) {
      var key := "SINGBOX_DIRECT_DOMAIN_STRATEGY";
      assert key + "=" == "SINGBOX_DIRECT_DOMAIN_STRATEGY=";
      KeyAtColumnZero(l, key);
    }
  }

  lemma TimeoutKey(l: string)
    ensures IsTimeout(l) ==> KeyOf(l) == Some("SINGBOX_DIRECT_CONNECT_TIMEOUT")
  {
    if IsTimeout(l) {
      var key := "SINGBOX_DIRECT_CONNECT_TIMEOUT";
      assert key + "=" == "SINGBOX_DIRECT_CONNECT_TIMEOUT=";
      KeyAtColumnZero(l, key);
    }
  }

  lemma DelayKey(l: string)
    ensures IsDelay(l) ==> KeyOf(l) == Some("SINGBOX_DIRECT_FALLBACK_DELAY")
  {
    if IsDelay(l) {
      var key := "SINGBOX_DIRECT_FALLBACK_DELAY";
      assert key + "=" == "SINGBOX_DIRECT_FALLBACK_DELAY=";
      KeyAtColumnZero(l, key);
    }
  }

  // ---------- definitions through the edits ----------

  lemma DefinitionsOne(l: string, key: string)
    ensures Definitions([l], key) == if KeyOf(l) == Some(key) then [ParseLine(l).value.1] else []
  {
    assert [l][1..] == [];
  }

  lemma {:induction false} GatherInsert(lines: seq<string>, extra: seq<string>, f: string -> seq<string>)
    requires Gather(extra, f) == []
    ensures Gather(InsertAfterDomain(lines, extra), f) == Gather(lines, f)
  {
    if lines == [] {
    } else if IsDomain(lines[0]) {
      GatherAppend(extra, lines[1..], f);
      assert InsertAfterDomain(lines, extra) == [lines[0]] + (extra + lines[1..]);
      assert InsertAfterDomain(lines, extra)[1..] == extra + lines[1..];
    } else {
      GatherInsert(lines[1..], extra, f);
      assert InsertAfterDomain(lines, extra)[1..] == InsertAfterDomain(lines[1..], extra);
    }
  }

  lemma {:induction false} GatherStrip(lines: seq<string>, f: string -> seq<string>)
    requires forall l :: IsPanel(l) ==> f(l) == []
    ensures Gather(StripPanel(lines), f) == Gather(lines, f)
  {
    if lines == [] {
    } else {
      GatherStrip(lines[1..], f);
      if IsPanel(lines[0]) {
        assert StripPanel(lines) == StripPanel(lines[1..]);
      } else {
        assert StripPanel(lines)[1..] == StripPanel(lines[1..]);
      }
    }
  }

  lemma {:induction false} GatherReplace(lines: seq<string>, hit: string -> bool, edit: string -> string, f: string -> seq<string>)
    requires forall l :: hit(l) ==> f(edit(l)) == f(l)
    ensures Gather(ReplaceFirst(lines, hit, edit), f) == Gather(lines, f)
  {
    if lines == [] {
    } else if hit(lines[0]) {
      assert ReplaceFirst(lines, hit, edit)[1..] == lines[1..];
    } else {
      GatherReplace(lines[1..], hit, edit, f);
      assert ReplaceFirst(lines, hit, edit)[1..] == ReplaceFirst(lines[1..], hit, edit);
    }
  }

  lemma DefinitionsInsert(lines: seq<string>, extra: seq<string>, key: string)
    requires Definitions(extra, key) == []
    ensures Definitions(InsertAfterDomain(lines, extra), key) == Definitions(lines, key)
  {
    var f := (l: string) => Own(l, key);
    GatherOwn(extra, key, f);
    GatherOwn(lines, key, f);
    GatherOwn(InsertAfterDomain(lines, extra), key, f);
    GatherInsert(lines, extra, f);
  }

  lemma DefinitionsStrip(lines: seq<string>, key: string)
    requires key != "PANEL_DOMAIN"
    ensures Definitions(StripPanel(lines), key) == Definitions(lines, key)
  {
    var f := (l: string) => Own(l, key);
    forall l | IsPanel(l)
      ensures f(l) == []
    {
      PanelKey(l);
    }
    GatherOwn(lines, key, f);
    GatherOwn(StripPanel(lines), key, f);
    GatherStrip(lines, f);
  }

  lemma DefinitionsReplace(lines: seq<string>, hit: string -> bool, edit: string -> string, key: string)
    requires forall l :: hit(l) ==> KeyOf(l) != Some(key) && KeyOf(edit(l)) != Some(key)
    ensures Definitions(ReplaceFirst(lines, hit, edit), key) == Definitions(lines, key)
  {
    var f := (l: string) => Own(l, key);
    GatherOwn(lines, key, f);
    GatherOwn(ReplaceFirst(lines, hit, edit), key, f);
    GatherReplace(lines, hit, edit, f);
  }

  // ---------- each phase ----------

  lemma BackfillMeaning(lines: seq<string>, key: string)
    requires key != "PANEL_DOMAIN"
    ensures Definitions(Backfill(lines), key) == Definitions(lines, key)
  {
    if ExtractDomain(lines).Some? {
      var c, p := BACKFILL_COMMENT, "PANEL_DOMAIN=panel." + ExtractDomain(lines).value;
      assert BackfillLines(ExtractDomain(lines).value) == [c] + [p];
      assert c[0] == '#' && IsPanel(p);
      NothingDefined(c);
      PanelKey(p);
      DefinitionsOne(c, key);
      DefinitionsOne(p, key);
      DefinitionsAppend([c], [p], key);
      DefinitionsInsert(lines, [c] + [p], key);
    }
  }

  lemma RelocateMeaning(lines: seq<string>, key: string)
    requires key != "PANEL_DOMAIN"
    ensures Definitions(Relocate(lines), key) == Definitions(lines, key)
  {
    HasCount(lines, IsPanel);
    var d := First(lines, IsPanel);
    if d.Some? {
      PanelKey(d.value);
      DefinitionsOne(d.value, key);
      DefinitionsStrip(lines, key);
      DefinitionsInsert(StripPanel(lines), [d.value], key);
    }
  }

  lemma FixMeaning(lines: seq<string>, key: string)
    requires key != "APP_URL"
    ensures Definitions(FixLegacyAppUrl(lines), key) == Definitions(lines, key)
  {
    forall l | IsLegacyUrl(l)
      ensures KeyOf(l) != Some(key) && KeyOf(FixUrl(l)) != Some(key)
    {
      LegacyKey(l);
    }
    DefinitionsReplace(lines, IsLegacyUrl, FixUrl, key);
  }

  lemma CanonicalMeaning(lines: seq<string>, key: string)
    requires key != "SINGBOX_DIRECT_DOMAIN_STRATEGY"
    ensures Definitions(Canonical(lines), key) == Definitions(lines, key)
  {
    forall l | IsPreferIpv4(l)
      ensures KeyOf(l) != Some(key) && KeyOf(ToIpv4Only(l)) != Some(key)
    {
      Kinds(l);
      StrategyKey(l);
      StrategyKey(ToIpv4Only(l));
    }
    DefinitionsReplace(lines, IsPreferIpv4, ToIpv4Only, key);
  }

  /** The definitions the appended block adds. */
  function Added(lines: seq<string>, key: string): seq<string> {
    if HasDefaults(lines) then [] else Definitions(Additions(lines), key)
  }

  lemma AppendMeaning(lines: seq<string>, key: string)
    ensures Definitions(AppendDefaults(lines), key) == Definitions(lines, key) + Added(lines, key)
  {
    if !HasDefaults(lines) {
      AppendEmpty(Body(lines) + Additions(lines), key);
      DefinitionsAppend(Body(lines), Additions(lines), key);
      BodyMeaning(lines, key);
    }
  }

  lemma BodyMeaning(lines: seq<string>, key: string)
    ensures Definitions(Body(lines), key) == Definitions(lines, key)
  {
    if EndsWithNewline(lines) {
      assert lines == Body(lines) + [""];
      AppendEmpty(Body(lines), key);
    }
  }

  lemma AppendEmpty(lines: seq<string>, key: string)
    ensures Definitions(lines + [""], key) == Definitions(lines, key)
  {
    NothingDefined("");
    DefinitionsOne("", key);
    DefinitionsAppend(lines, [""], key);
  }

  function Optional(absent: bool, line: string): seq<string> {
    if absent then [line] else []
  }

  lemma AdditionsMeaning(lines: seq<string>, key: string)
    ensures Definitions(Additions(lines), key)
         == (if key == "SINGBOX_DIRECT_DOMAIN_STRATEGY" && !Has(lines, IsStrategy) then ["ipv4_only"] else [])
          + (if key == "SINGBOX_DIRECT_CONNECT_TIMEOUT" && !Has(lines, IsTimeout) then ["2s"] else [])
          + (if key == "SINGBOX_DIRECT_FALLBACK_DELAY" && !Has(lines, IsDelay) then ["100ms"] else [])
  {
    var s := Optional(!Has(lines, IsStrategy), "SINGBOX_DIRECT_DOMAIN_STRATEGY=ipv4_only");
    var t := Optional(!Has(lines, IsTimeout), "SINGBOX_DIRECT_CONNECT_TIMEOUT=2s");
    var d := Optional(!Has(lines, IsDelay), "SINGBOX_DIRECT_FALLBACK_DELAY=100ms");
    assert Additions(lines) == [DEFAULTS_COMMENT] + s + t + d;
    CommentThen(DEFAULTS_COMMENT, s, t, d, key);
    StrategyDefault("SINGBOX_DIRECT_DOMAIN_STRATEGY=ipv4_only", key);
    TimeoutDefault("SINGBOX_DIRECT_CONNECT_TIMEOUT=2s", key);
    DelayDefault("SINGBOX_DIRECT_FALLBACK_DELAY=100ms", key);
  }

  lemma CommentThen(c: string, s: seq<string>, t: seq<string>, d: seq<string>, key: string)
    requires c != "" && c[0] == '#'
    ensures Definitions([c] + s + t + d, key) == Definitions(s, key) + Definitions(t, key) + Definitions(d, key)
  {
    CommentFirst(c, s, key);
    DefinitionsAppend([c] + s, t, key);
    DefinitionsAppend([c] + s + t, d, key);
  }

  lemma CommentFirst(c: string, s: seq<string>, key: string)
    requires c != "" && c[0] == '#'
    ensures Definitions([c] + s, key) == Definitions(s, key)
  {
    NothingDefined(c);
    DefinitionsOne(c, key);
    DefinitionsAppend([c], s, key);
  }

  lemma StrategyDefault(line: string, key: string)
    requires line == "SINGBOX_DIRECT_DOMAIN_STRATEGY=ipv4_only"
    ensures Definitions([line], key) == if key == "SINGBOX_DIRECT_DOMAIN_STRATEGY" then ["ipv4_only"] else []
  {
    assert line[..30] == "SINGBOX_DIRECT_DOMAIN_STRATEGY" && line[31..] == "ipv4_only";
    DefaultLine(line, 30, line[..30], line[31..], key);
  }

  lemma TimeoutDefault(line: string, key: string)
    requires line == "SINGBOX_DIRECT_CONNECT_TIMEOUT=2s"
    ensures Definitions([line], key) == if key == "SINGBOX_DIRECT_CONNECT_TIMEOUT" then ["2s"] else []
  {
    assert line[..30] == "SINGBOX_DIRECT_CONNECT_TIMEOUT" && line[31..] == "2s";
    DefaultLine(line, 30, line[..30], line[31..], key);
  }

  lemma DelayDefault(line: string, key: string)
    requires line == "SINGBOX_DIRECT_FALLBACK_DELAY=100ms"
    ensures Definitions([line], key) == if key == "SINGBOX_DIRECT_FALLBACK_DELAY" then ["100ms"] else []
  {
    assert line[..29] == "SINGBOX_DIRECT_FALLBACK_DELAY" && line[30..] == "100ms";
    DefaultLine(line, 29, line[..29], line[30..], key);
  }

  lemma DefaultLine(line: string, n: nat, k: string, v: string, key: string)
    requires 0 < n < |line| - 1 && line[n] == '=' && IdentStart(line[0])
    requires forall i :: 0 <= i < |line| && i != n ==> IdentPart(line[i])
    requires k == line[..n] && v == line[n + 1..]
    ensures Definitions([line], key) == if key == k then [v] else []
  {
    PlainDefinition(line, n);
    DefinitionsOne(line, key);
  }

  /** `KEY=value` without blanks, quotes or hashes assigns exactly value to KEY. */
  lemma PlainDefinition(line: string, n: nat)
    requires 0 < n < |line| - 1 && line[n] == '=' && IdentStart(line[0])
    requires forall i :: 0 <= i < |line| && i != n ==> IdentPart(line[i])
    ensures ParseLine(line) == Some((line[..n], line[n + 1..]))
  {
    var value := line[n + 1..];
    assert TrimStart(line) == line && TrimEnd(line) == line;
    IdentPrefixOf(line, n);
    assert line[n..][1..] == value && TrimStart(line[n..]) == line[n..];
    assert TrimStart(value) == value;
    PlainValue(value);
  }

  lemma PlainValue(value: string)
    requires value != "" && forall i :: 0 <= i < |value| ==> IdentPart(value[i])
    ensures Value(value) == value
  {
    CutNothing(value);
  }

  lemma {:induction false} CutNothing(value: string)
    requires forall i :: 0 <= i < |value| ==> IdentPart(value[i])
    ensures CutComment(value) == value && TrimEnd(value) == value
  {
    if value == "" {
    } else {
      CutNothing(value[1..]);
    }
  }

  // ---------- the composition ----------

  /** Every definition of an unmanaged key survives a run, in order and number. */
  lemma MigrateMeaning(lines: seq<string>, key: string)
    requires !Managed(key)
    ensures Definitions(Migrate(lines), key) == Definitions(lines, key)
  {
    var after2 := Relocate(Backfill(lines));
    BackfillMeaning(lines, key);
    RelocateMeaning(Backfill(lines), key);
    FixMeaning(after2, key);
    CanonicalMeaning(FixLegacyAppUrl(after2), key);
    AppendMeaning(Canonical(FixLegacyAppUrl(after2)), key);
    AdditionsMeaning(Canonical(FixLegacyAppUrl(after2)), key);
  }

  lemma {:induction false} Preserved<T(!new), U(!new)>(step: T -> T, view: T -> U, x: T, n: nat)
    requires forall y :: view(step(y)) == view(y)
    ensures view(Iterate(step, x, n)) == view(x)
  {
    if n == 0 {
    } else {
      Preserved(step, view, x, n - 1);
    }
  }

  /** After any number of runs the parser gives an unmanaged key the value it gave before. */
  lemma MeaningPreserved(lines: seq<string>, key: string, n: nat)
    requires !Managed(key)
    ensures Definitions(Run(lines, n), key) == Definitions(lines, key)
    ensures key in Meaning(Run(lines, n)) <==> key in Meaning(lines)
    ensures key in Meaning(lines) ==> Meaning(Run(lines, n))[key] == Meaning(lines)[key]
  {
    var view := (y: seq<string>) => Definitions(y, key);
    forall y
      ensures view(Migrate(y)) == view(y)
    {
      MigrateMeaning(y, key);
    }
    Preserved(Migrate, view, lines, n);
    if key != "__proto__" {
      MeaningIsLast(lines, key);
      MeaningIsLast(Run(lines, n), key);
    } else {
      NoProto(lines);
      NoProto(Run(lines, n));
    }
  }

  lemma {:induction false} NoProto(lines: seq<string>)
    ensures "__proto__" !in Meaning(lines)
  {
    if lines == [] {
    } else {
      NoProto(lines[..|lines| - 1]);
    }
  }

  // ---------- whole file contents ----------

  /** The content `MigrateEnv` returns. */
  function MigrateText(content: string): string {
    Join(Migrate(Split(content)))
  }

  function RunText(content: string, n: nat): string {
    Iterate(MigrateText, content, n)
  }

  /** Rerunning on the text is rerunning on its lines, and stays within plain text. */
  lemma RunTextLines(content: Text, n: nat)
    ensures IsText(RunText(content, n))
    ensures CleanLines(Run(Split(content), n))
    ensures Split(RunText(content, n)) == Run(Split(content), n)
  {
    SplitClean(content);
    var rel := (t: string, lines: seq<string>) => IsText(t) && CleanLines(lines) && Split(t) == lines;
    forall t, lines | rel(t, lines)
      ensures rel(MigrateText(t), Migrate(lines))
    {
      MigratedText(lines);
    }
    Simulates(MigrateText, Migrate, rel, content, Split(content), n);
  }

  lemma MigratedText(lines: seq<string>)
    requires CleanLines(lines)
    ensures CleanLines(Migrate(lines)) && IsText(Join(Migrate(lines))) && Split(Join(Migrate(lines))) == Migrate(lines)
  {
    MigrateClean(lines);
    JoinIsText(Migrate(lines));
    SplitJoin(Migrate(lines));
  }

  /** Another run leaves the text as it is exactly when it leaves the lines as they are. */
  lemma StableText(content: Text, n: nat)
    ensures MigrateText(RunText(content, n)) == RunText(content, n)
       <==> Migrate(Run(Split(content), n)) == Run(Split(content), n)
  {
    RunTextLines(content, n);
    MigratedText(Run(Split(content), n));
    JoinSplit(RunText(content, n));
  }

  /**
   The number of runs a file needs, exactly: n >= 1 runs leave content that a further run
   does not change if and only if the file has at most n legacy APP_URL lines and at
   most n prefer_ipv4 lines and, for n = 1, does not need a second run. So
   max(L, S, 2) runs are always enough.
   */
  lemma RunsNeeded(content: Text, n: nat)
    requires n >= 1
    ensures MigrateText(RunText(content, n)) == RunText(content, n) <==> Enough(Split(content), n)
  {
    StableText(content, n);
    RunsExact(Split(content), n);
  }

  /** No run at all is needed exactly by the settled files. */
  lemma NoRunNeeded(content: Text)
    ensures MigrateText(content) == content <==> Settled(Split(content))
  {
    StableText(content, 0);
    FixedIffSettled(Split(content));
  }

  /** What `parseDotenv` reads for an unmanaged key is the same after any number of runs. */
  lemma ValuesPreserved(content: Text, key: string, n: nat)
    requires !Managed(key)
    ensures var before, after := Meaning(Split(content)), Meaning(Split(RunText(content, n)));
            (key in after <==> key in before) && (key in before ==> after[key] == before[key])
  {
    RunTextLines(content, n);
    MeaningPreserved(Split(content), key, n);
  }
}
