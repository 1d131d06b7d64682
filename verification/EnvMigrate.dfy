/**
 operator/src/util/env-migrate.ts: four rewrites of a `.env` file, run in
 sequence. The functions give each phase on the lines of the file; the methods
 are the source's loops over text, proved equal to them.
 */
module EnvMigrate {
  import opened Wrappers
  import opened Dotenv

  // ---------- the line tests (regular expressions with the m flag) ----------

  predicate IsDomain(line: string) { "DOMAIN=" <= line }

  predicate IsPanel(line: string) { "PANEL_DOMAIN=" <= line }

  predicate Contains(s: string, part: string) {
    part <= s || (s != "" && Contains(s[1..], part))
  }

  /** `/^\s*#/` */
  predicate IsComment(line: string) { "#" <= TrimStart(line) }

  /** A non-comment line that mentions ${PANEL_DOMAIN}. */
  predicate IsRef(line: string) { !IsComment(line) && Contains(line, "${PANEL_DOMAIN}") }

  predicate IsLegacyUrl(line: string) {
    "APP_URL=http://${DOMAIN}" <= line || "APP_URL=https://${DOMAIN}" <= line
  }

  predicate IsPreferIpv4(line: string) {
    line == "SINGBOX_DIRECT_DOMAIN_STRATEGY=prefer_ipv4"
  }

  predicate IsStrategy(line: string) { "SINGBOX_DIRECT_DOMAIN_STRATEGY=" <= line }

  predicate IsTimeout(line: string) { "SINGBOX_DIRECT_CONNECT_TIMEOUT=" <= line }

  predicate IsDelay(line: string) { "SINGBOX_DIRECT_FALLBACK_DELAY=" <= line }

  /** The first line that passes the test, as `content.match(re)` finds it. */
  function First(lines: seq<string>, test: string -> bool): Option<string> {
    if lines == [] then None
    else if test(lines[0]) then Some(lines[0])
    else First(lines[1..], test)
  }

  /** `re.test(content)` for a line test. */
  predicate Has(lines: seq<string>, test: string -> bool) {
    First(lines, test).Some?
  }

  // ---------- edits ----------

  function InsertAfterDomain(lines: seq<string>, extra: seq<string>): seq<string> {
    if lines == [] then []
    else if IsDomain(lines[0]) then [lines[0]] + extra + lines[1..]
    else [lines[0]] + InsertAfterDomain(lines[1..], extra)
  }

  function StripPanel(lines: seq<string>): seq<string> {
    if lines == [] then []
    else (if IsPanel(lines[0]) then [] else [lines[0]]) + StripPanel(lines[1..])
  }

  /** `content.replace(re, ...)` without the g flag. */
  function ReplaceFirst(lines: seq<string>, test: string -> bool, edit: string -> string): seq<string> {
    if lines == [] then []
    else if test(lines[0]) then [edit(lines[0])] + lines[1..]
    else [lines[0]] + ReplaceFirst(lines[1..], test, edit)
  }

  // ---------- phase 1: backfill ----------

  function Unquote(s: string, quote: char): string {
    if |s| >= 2 && s[0] == quote && s[|s| - 1] == quote then s[1..|s| - 1] else s
  }

  /** `extractDomain`; None when there is no DOMAIN= line. */
  function ExtractDomain(lines: seq<string>): Option<string> {
    match First(lines, IsDomain)
    case None => None
    case Some(line) => Some(Unquote(Unquote(line[if |line| < 7 then |line| else 7..], '"'), '\''))
  }

  predicate NoDomainValue(lines: seq<string>) {
    var d := ExtractDomain(lines);
    d.None? || d.value == ""
  }

  const BACKFILL_COMMENT: string :=
    "# v0.0.54 auto-migration \U{2014} PANEL_DOMAIN" + " added (was missing in pre-v0.0.33 .env)"

  function BackfillLines(domain: string): seq<string> {
    [BACKFILL_COMMENT, "PANEL_DOMAIN=panel." + domain]
  }

  function Backfill(lines: seq<string>): seq<string> {
    if Has(lines, IsPanel) || NoDomainValue(lines) then lines
    else InsertAfterDomain(lines, BackfillLines(ExtractDomain(lines).value))
  }

  // ---------- phase 2: relocate ----------

  /** The first definition of PANEL_DOMAIN exists and comes after the first reference. */
  predicate DefinedAfterUse(lines: seq<string>) {
    if lines == [] || IsPanel(lines[0]) then false
    else if IsRef(lines[0]) then Has(lines[1..], IsPanel)
    else DefinedAfterUse(lines[1..])
  }

  function Relocated(lines: seq<string>, definition: string): seq<string> {
    InsertAfterDomain(StripPanel(lines), [definition])
  }

  function Relocate(lines: seq<string>): seq<string> {
    var definition := First(lines, IsPanel);
    if DefinedAfterUse(lines) && definition.Some? then Relocated(lines, definition.value) else lines
  }

  // ---------- phase 3: APP_URL ----------

  /** `$1${PANEL_DOMAIN}` in place of the matched prefix. */
  function FixUrl(line: string): string {
    if "APP_URL=http://${DOMAIN}" <= line then "APP_URL=http://${PANEL_DOMAIN}" + line[24..]
    else if "APP_URL=https://${DOMAIN}" <= line then "APP_URL=https://${PANEL_DOMAIN}" + line[25..]
    else line
  }

  function FixLegacyAppUrl(lines: seq<string>): seq<string> {
    ReplaceFirst(lines, IsLegacyUrl, FixUrl)
  }

  // ---------- phase 4: sing-box defaults ----------

  function ToIpv4Only(line: string): string { "SINGBOX_DIRECT_DOMAIN_STRATEGY=ipv4_only" }

  function Canonical(lines: seq<string>): seq<string> {
    ReplaceFirst(lines, IsPreferIpv4, ToIpv4Only)
  }

  predicate HasDefaults(lines: seq<string>) {
    Has(lines, IsStrategy) && Has(lines, IsTimeout) && Has(lines, IsDelay)
  }

  const DEFAULTS_COMMENT: string :=
    "# v0.4.17 auto-migration \U{2014} sing-box" + " direct outbound IPv4-only policy"

  function Additions(lines: seq<string>): seq<string> {
    [DEFAULTS_COMMENT]
    + (if Has(lines, IsStrategy) then [] else ["SINGBOX_DIRECT_DOMAIN_STRATEGY=ipv4_only"])
    + (if Has(lines, IsTimeout) then [] else ["SINGBOX_DIRECT_CONNECT_TIMEOUT=2s"])
    + (if Has(lines, IsDelay) then [] else ["SINGBOX_DIRECT_FALLBACK_DELAY=100ms"])
  }

  /** The text ends with a line feed exactly when its last line is empty and not its only line. */
  predicate EndsWithNewline(lines: seq<string>) {
    |lines| >= 2 && lines[|lines| - 1] == ""
  }

  function Body(lines: seq<string>): seq<string> {
    if EndsWithNewline(lines) then lines[..|lines| - 1] else lines
  }

  function AppendDefaults(lines: seq<string>): seq<string> {
    if HasDefaults(lines) then lines else Body(lines) + Additions(lines) + [""]
  }

  function SingboxDefaults(lines: seq<string>): seq<string> {
    AppendDefaults(Canonical(lines))
  }

  // ---------- the composition ----------

  function Migrate(lines: seq<string>): seq<string> {
    SingboxDefaults(FixLegacyAppUrl(Relocate(Backfill(lines))))
  }

  // ---------- the code, over text ----------

  datatype Phase = PanelDomainBackfill | PanelDomainRelocate | AppUrlFix | SingboxDirectDefaults

  datatype PhaseResult = PhaseResult(content: string, change: Option<Phase>, warning: bool)

  datatype MigrationResult = MigrationResult(content: string, changes: seq<Phase>, warning: bool)

  /** `backfillPanelDomain`. */
  method BackfillPanelDomain(content: string) returns (r: PhaseResult)
    ensures r.content == Join(Backfill(Split(content)))
    ensures r.change == if Has(Split(content), IsPanel) || NoDomainValue(Split(content))
                        then None else Some(PanelDomainBackfill)
    ensures r.warning <==> !Has(Split(content), IsPanel) && NoDomainValue(Split(content))
  {
    var lines := Split(content);
    JoinSplit(content);
    if Has(lines, IsPanel) {
      return PhaseResult(content, None, false);
    }
    var domain := ExtractDomain(lines);
    if domain.None? || domain.value == "" {
      return PhaseResult(content, None, true);
    }
    var out := [];
    var inserted := false;
    var extra := BackfillLines(domain.value);
    ghost var target := InsertAfterDomain(lines, extra);
    for i := 0 to |lines|
      invariant out + (if inserted then lines[i..] else InsertAfterDomain(lines[i..], extra)) == target
    {
      assert lines[i..] == [lines[i]] + lines[i + 1..];
      InsertStep(lines[i], lines[i + 1..], out, extra);
      out := out + [lines[i]];
      if !inserted && IsDomain(lines[i]) {
        out := out + extra;
        inserted := true;
      }
    }
    assert out == target;
    r := PhaseResult(Join(out), Some(PanelDomainBackfill), false);
  }

  lemma InsertStep(line: string, rest: seq<string>, out: seq<string>, extra: seq<string>)
    ensures out + ([line] + rest) == (out + [line]) + rest
    ensures IsDomain(line) ==>
              out + InsertAfterDomain([line] + rest, extra) == (out + [line] + extra) + rest
    ensures !IsDomain(line) ==>
              out + InsertAfterDomain([line] + rest, extra) == (out + [line]) + InsertAfterDomain(rest, extra)
  {
    assert ([line] + rest)[1..] == rest;
  }

  /** `firstPanelDomainRefLine`: 1-based, 0 for none. */
  method FirstPanelDomainRefLine(content: string) returns (n: nat)
    ensures n == LineNumber(Split(content), IsRef)
  {
    var lines := Split(content);
    for i := 0 to |lines|
      invariant forall j :: 0 <= j < i ==> !IsRef(lines[j])
    {
      if !IsComment(lines[i]) && Contains(lines[i], "${PANEL_DOMAIN}") {
        LineNumberAt(lines, IsRef, i);
        return i + 1;
      }
    }
    LineNumberNone(lines, IsRef);
    n := 0;
  }

  /** `panelDomainDefLine`: 1-based, 0 for none. */
  method PanelDomainDefLine(content: string) returns (n: nat)
    ensures n == LineNumber(Split(content), IsPanel)
  {
    var lines := Split(content);
    for i := 0 to |lines|
      invariant forall j :: 0 <= j < i ==> !IsPanel(lines[j])
    {
      if IsPanel(lines[i]) {
        LineNumberAt(lines, IsPanel, i);
        return i + 1;
      }
    }
    LineNumberNone(lines, IsPanel);
    n := 0;
  }

  function LineNumber(lines: seq<string>, test: string -> bool): nat {
    if lines == [] then 0
    else if test(lines[0]) then 1
    else
      var n := LineNumber(lines[1..], test);
      if n == 0 then 0 else n + 1
  }

  lemma {:induction false} LineNumberAt(lines: seq<string>, test: string -> bool, i: nat)
    requires i < |lines| && test(lines[i]) && forall j :: 0 <= j < i ==> !test(lines[j])
    ensures LineNumber(lines, test) == i + 1
  {
    if i == 0 {
    } else {
      LineNumberAt(lines[1..], test, i - 1);
    }
  }

  lemma {:induction false} LineNumberNone(lines: seq<string>, test: string -> bool)
    requires forall j :: 0 <= j < |lines| ==> !test(lines[j])
    ensures LineNumber(lines, test) == 0
  {
    if lines == [] {
    } else {
      LineNumberNone(lines[1..], test);
    }
  }

  lemma {:induction false} LineNumberHas(lines: seq<string>, test: string -> bool)
    ensures LineNumber(lines, test) != 0 <==> Has(lines, test)
    ensures Has(lines, test) ==> test(First(lines, test).value)
  {
    if lines == [] {
    } else {
      LineNumberHas(lines[1..], test);
    }
  }

  /** The line numbers the source compares decide `DefinedAfterUse`. */
  lemma {:induction false} DefinedAfterUseByNumber(lines: seq<string>)
    ensures var def, ref := LineNumber(lines, IsPanel), LineNumber(lines, IsRef);
            DefinedAfterUse(lines) <==> def != 0 && ref != 0 && def > ref
  {
    if lines == [] {
    } else {
      DefinedAfterUseByNumber(lines[1..]);
      LineNumberHas(lines[1..], IsPanel);
    }
  }

  /** `relocatePanelDomain`. */
  method RelocatePanelDomain(content: string) returns (r: PhaseResult)
    ensures r.content == Join(Relocate(Split(content))) && !r.warning
    ensures r.change == if DefinedAfterUse(Split(content)) then Some(PanelDomainRelocate) else None
  {
    var lines := Split(content);
    JoinSplit(content);
    DefinedAfterUseByNumber(lines);
    LineNumberHas(lines, IsPanel);
    var defLine := PanelDomainDefLine(content);
    var refLine := FirstPanelDomainRefLine(content);
    if defLine == 0 || refLine == 0 || defLine <= refLine {
      return PhaseResult(content, None, false);
    }
    var definition := First(lines, IsPanel).value;
    var value := definition[13..];
    var out := StripAndInsert(lines, "PANEL_DOMAIN=" + value);
    assert "PANEL_DOMAIN=" + value == definition;
    r := PhaseResult(Join(out), Some(PanelDomainRelocate), false);
  }

  /** The loop of `relocatePanelDomain`. */
  method StripAndInsert(lines: seq<string>, definition: string) returns (out: seq<string>)
    ensures out == Relocated(lines, definition)
  {
    out := [];
    var inserted := false;
    ghost var target := Relocated(lines, definition);
    for i := 0 to |lines|
      invariant out + (if inserted then StripPanel(lines[i..])
                       else InsertAfterDomain(StripPanel(lines[i..]), [definition])) == target
    {
      StripStep(lines, i);
      if IsPanel(lines[i]) {
        continue;
      }
      InsertStep(lines[i], StripPanel(lines[i + 1..]), out, [definition]);
      out := out + [lines[i]];
      if !inserted && IsDomain(lines[i]) {
        out := out + [definition];
        inserted := true;
      }
    }
    assert out == target;
  }

  lemma StripStep(lines: seq<string>, i: nat)
    requires i < |lines|
    ensures IsPanel(lines[i]) ==> StripPanel(lines[i..]) == StripPanel(lines[i + 1..])
    ensures !IsPanel(lines[i]) ==> StripPanel(lines[i..]) == [lines[i]] + StripPanel(lines[i + 1..])
  {
    assert lines[i..][0] == lines[i] && lines[i..][1..] == lines[i + 1..];
  }

  /** `fixLegacyAppUrl`. */
  function FixLegacyAppUrlText(content: string): PhaseResult {
    if !Has(Split(content), IsLegacyUrl) then PhaseResult(content, None, false)
    else PhaseResult(Join(FixLegacyAppUrl(Split(content))), Some(AppUrlFix), false)
  }

  /** `backfillSingboxDirectDefaults`. */
  method BackfillSingboxDirectDefaults(content: Text) returns (r: PhaseResult)
    ensures r.content == Join(SingboxDefaults(Split(content))) && !r.warning
    ensures r.change.Some? <==> SingboxDefaults(Split(content)) != Split(content)
    ensures r.change.Some? ==> r.change.value == SingboxDirectDefaults
  {
    var canonical := Canonical(Split(content));
    var strategyCanonicalized := canonical != Split(content);
    if Has(canonical, IsStrategy) && Has(canonical, IsTimeout) && Has(canonical, IsDelay) {
      return PhaseResult(Join(canonical),
                         if strategyCanonicalized then Some(SingboxDirectDefaults) else None, false);
    }
    var additions := ["", DEFAULTS_COMMENT];
    if !Has(canonical, IsStrategy) {
      additions := additions + ["SINGBOX_DIRECT_DOMAIN_STRATEGY=ipv4_only"];
    }
    if !Has(canonical, IsTimeout) {
      additions := additions + ["SINGBOX_DIRECT_CONNECT_TIMEOUT=2s"];
    }
    if !Has(canonical, IsDelay) {
      additions := additions + ["SINGBOX_DIRECT_FALLBACK_DELAY=100ms"];
    }
    assert additions == [""] + Additions(canonical);
    SplitClean(content);
    CanonicalClean(Split(content));
    var appended := AppendBlock(canonical, Join(additions));
    r := PhaseResult(appended, Some(SingboxDirectDefaults), false);
  }

  /** The last statement of `backfillSingboxDirectDefaults`. */
  method AppendBlock(canonical: seq<string>, block: string) returns (text: string)
    requires CleanLines(canonical) && block == Join([""] + Additions(canonical))
    ensures text == Join(Body(canonical) + Additions(canonical) + [""])
  {
    var content := Join(canonical);
    BlockText(canonical, Additions(canonical));
    text := if content != "" && content[|content| - 1] == '\n' then content + block[1..] + "\n"
            else content + block + "\n";
  }

  lemma {:induction false} ReplaceFirstShape(lines: seq<string>, test: string -> bool, edit: string -> string)
    ensures var r := ReplaceFirst(lines, test, edit);
            && |r| == |lines|
            && forall i :: 0 <= i < |r| ==> r[i] == lines[i] || (test(lines[i]) && r[i] == edit(lines[i]))
  {
    if lines == [] {
    } else {
      ReplaceFirstShape(lines[1..], test, edit);
    }
  }

  lemma CanonicalClean(lines: seq<string>)
    ensures |Canonical(lines)| == |lines|
    ensures CleanLines(lines) ==> CleanLines(Canonical(lines))
    ensures AppendDefaults(lines) != lines ==> |AppendDefaults(lines)| > |lines|
    ensures !HasDefaults(Canonical(lines)) ==> AppendDefaults(Canonical(lines)) != lines
  {
    ReplaceFirstShape(lines, IsPreferIpv4, ToIpv4Only);
    DefaultsClean();
    AppendGrows(lines);
    AppendGrows(Canonical(lines));
  }

  lemma AppendGrows(lines: seq<string>)
    ensures if HasDefaults(lines) then AppendDefaults(lines) == lines else |AppendDefaults(lines)| > |lines|
  {
  }

  // ---------- what appending text does to the lines ----------

  lemma {:induction false} JoinAppend(a: seq<string>, b: seq<string>)
    requires a != [] && b != []
    ensures Join(a + b) == Join(a) + "\n" + Join(b)
  {
    if |a| == 1 {
      assert (a + b)[1..] == b;
    } else {
      JoinAppend(a[1..], b);
      assert (a + b)[1..] == a[1..] + b;
    }
  }

  lemma LastCharacter(lines: seq<string>)
    requires CleanLines(lines)
    ensures var t := Join(lines); (t != "" && t[|t| - 1] == '\n') <==> EndsWithNewline(lines)
  {
    if |lines| > 1 {
      var init, last := lines[..|lines| - 1], lines[|lines| - 1];
      assert lines == init + [last];
      JoinAppend(init, [last]);
    }
  }

  /** The two string concatenations of the source append the same lines. */
  lemma BlockText(lines: seq<string>, additions: seq<string>)
    requires CleanLines(lines) && additions != []
    ensures var text, block := Join(lines), Join([""] + additions);
            |block| > 0 &&
            (if text != "" && text[|text| - 1] == '\n' then text + block[1..] + "\n" else text + block + "\n")
            == Join(Body(lines) + additions + [""])
  {
    var body, text, block := Body(lines), Join(lines), Join([""] + additions);
    LastCharacter(lines);
    BlockParts(body, additions);
    if EndsWithNewline(lines) {
      assert lines == body + [""];
      JoinAppend(body, [""]);
      assert block[1..] == Join(additions);
      assert text == Join(body) + "\n";
    }
  }

  lemma BlockParts(body: seq<string>, additions: seq<string>)
    requires body != [] && additions != []
    ensures Join([""] + additions) == "\n" + Join(additions)
    ensures Join(body + additions + [""]) == (Join(body) + "\n") + Join(additions) + "\n"
    ensures Join(body + additions + [""]) == Join(body) + ("\n" + Join(additions)) + "\n"
  {
    assert ([""] + additions)[1..] == additions;
    JoinAppend(body, additions);
    JoinAppend(body + additions, [""]);
  }

  // ---------- every phase yields lines again ----------

  ghost predicate AllClean(lines: seq<string>) {
    forall i :: 0 <= i < |lines| ==> Clean(lines[i])
  }

  lemma {:induction false} InsertClean(lines: seq<string>, extra: seq<string>)
    requires AllClean(lines) && AllClean(extra)
    ensures AllClean(InsertAfterDomain(lines, extra))
    ensures |InsertAfterDomain(lines, extra)| >= |lines|
  {
    if lines == [] {
    } else {
      InsertClean(lines[1..], extra);
    }
  }

  lemma {:induction false} StripClean(lines: seq<string>)
    requires AllClean(lines)
    ensures AllClean(StripPanel(lines))
    ensures DefinedAfterUse(lines) ==> |StripPanel(lines)| > 0
  {
    if lines == [] {
    } else {
      StripClean(lines[1..]);
    }
  }

  lemma {:induction false} FirstClean(lines: seq<string>, test: string -> bool)
    requires AllClean(lines)
    ensures First(lines, test).Some? ==> Clean(First(lines, test).value)
  {
    if lines == [] {
    } else {
      FirstClean(lines[1..], test);
    }
  }

  lemma UnquoteClean(s: string, quote: char)
    requires Clean(s)
    ensures Clean(Unquote(s, quote))
  {}

  lemma CommentsClean()
    ensures Clean(BACKFILL_COMMENT) && Clean(DEFAULTS_COMMENT)
  {
    assert Clean("# v0.0.54 auto-migration \U{2014} PANEL_DOMAIN");
    assert Clean(" added (was missing in pre-v0.0.33 .env)");
    assert Clean("# v0.4.17 auto-migration \U{2014} sing-box");
    assert Clean(" direct outbound IPv4-only policy");
  }

  lemma BackfillClean(lines: seq<string>)
    requires CleanLines(lines)
    ensures CleanLines(Backfill(lines))
  {
    FirstClean(lines, IsDomain);
    if !NoDomainValue(lines) {
      var d := ExtractDomain(lines).value;
      CommentsClean();
      var raw := First(lines, IsDomain).value;
      raw := raw[if |raw| < 7 then |raw| else 7..];
      UnquoteClean(raw, '"');
      UnquoteClean(Unquote(raw, '"'), '\'');
      assert Clean("PANEL_DOMAIN=panel.");
      assert AllClean(BackfillLines(d));
      InsertClean(lines, BackfillLines(d));
    }
  }

  lemma RelocateClean(lines: seq<string>)
    requires CleanLines(lines)
    ensures CleanLines(Relocate(lines))
  {
    FirstClean(lines, IsPanel);
    StripClean(lines);
    var d := First(lines, IsPanel);
    if d.Some? {
      InsertClean(StripPanel(lines), [d.value]);
    }
  }

  lemma FixUrlClean(line: string)
    requires Clean(line)
    ensures Clean(FixUrl(line))
  {
    assert Clean("APP_URL=http://${PANEL_DOMAIN}") && Clean("APP_URL=https://${PANEL_DOMAIN}");
  }

  lemma FixLegacyAppUrlClean(lines: seq<string>)
    requires CleanLines(lines)
    ensures CleanLines(FixLegacyAppUrl(lines))
  {
    var r := FixLegacyAppUrl(lines);
    ReplaceFirstShape(lines, IsLegacyUrl, FixUrl);
    forall i | 0 <= i < |r|
      ensures Clean(r[i])
    {
      FixUrlClean(lines[i]);
    }
  }

  lemma AdditionsClean(lines: seq<string>)
    ensures AllClean(Additions(lines))
  {
    CommentsClean();
    DefaultsClean();
  }

  lemma DefaultsClean()
    ensures Clean("SINGBOX_DIRECT_DOMAIN_STRATEGY=ipv4_only")
    ensures Clean("SINGBOX_DIRECT_CONNECT_TIMEOUT=2s")
    ensures Clean("SINGBOX_DIRECT_FALLBACK_DELAY=100ms")
  {
  }

  lemma SingboxDefaultsClean(lines: seq<string>)
    requires CleanLines(lines)
    ensures CleanLines(SingboxDefaults(lines))
  {
    CanonicalClean(lines);
    AdditionsClean(Canonical(lines));
  }

  lemma MigrateClean(lines: seq<string>)
    requires CleanLines(lines)
    ensures CleanLines(Migrate(lines))
  {
    BackfillClean(lines);
    RelocateClean(Backfill(lines));
    FixLegacyAppUrlClean(Relocate(Backfill(lines)));
    SingboxDefaultsClean(FixLegacyAppUrl(Relocate(Backfill(lines))));
  }

  lemma {:induction false} JoinIsText(lines: seq<string>)
    requires AllClean(lines)
    ensures IsText(Join(lines))
  {
    if |lines| > 1 {
      JoinIsText(lines[1..]);
    }
  }

  /** The changes a run reports. */
  function Changes(lines: seq<string>): seq<Phase> {
    var after1 := Backfill(lines);
    var after2 := Relocate(after1);
    var after3 := FixLegacyAppUrl(after2);
    var c1 := if Has(lines, IsPanel) || NoDomainValue(lines) then None else Some(PanelDomainBackfill);
    var c2 := if DefinedAfterUse(after1) then Some(PanelDomainRelocate) else None;
    var c3 := if Has(after2, IsLegacyUrl) then Some(AppUrlFix) else None;
    var c4 := if SingboxDefaults(after3) == after3 then None else Some(SingboxDirectDefaults);
    Note(Note(Note(Note([], c1), c2), c3), c4)
  }

  /** `if (p.change) changes.push(p.change)` */
  function Note(changes: seq<Phase>, change: Option<Phase>): seq<Phase> {
    if change.Some? then changes + [change.value] else changes
  }

  /** `migrateEnv`. */
  method MigrateEnv(content: Text) returns (r: MigrationResult)
    ensures r.content == Join(Migrate(Split(content)))
    ensures r.changes == Changes(Split(content))
    ensures r.warning <==> !Has(Split(content), IsPanel) && NoDomainValue(Split(content))
  {
    ghost var lines := Split(content);
    ghost var after1 := Backfill(lines);
    ghost var after2 := Relocate(after1);
    ghost var after3 := FixLegacyAppUrl(after2);
    PhasesClean(content);
    var changes := [];

    var p1 := BackfillPanelDomain(content);
    var cur := p1.content;
    changes := Note(changes, p1.change);
    var warning := p1.warning;

    var p2 := RelocatePanelDomain(cur);
    cur := p2.content;
    changes := Note(changes, p2.change);

    var p3 := FixLegacyAppUrlText(cur);
    cur := p3.content;
    changes := Note(changes, p3.change);

    var p4 := BackfillSingboxDirectDefaults(cur);
    cur := p4.content;
    changes := Note(changes, p4.change);
    r := MigrationResult(cur, changes, warning);
  }

  /** Between two phases the text splits into the lines the next one expects. */
  lemma PhasesClean(content: Text)
    ensures var after1 := Backfill(Split(content));
            var after2 := Relocate(after1);
            var after3 := FixLegacyAppUrl(after2);
            && Split(Join(after1)) == after1
            && Split(Join(after2)) == after2
            && FixLegacyAppUrlText(Join(after2))
               == PhaseResult(Join(after3), if Has(after2, IsLegacyUrl) then Some(AppUrlFix) else None, false)
            && Split(Join(after3)) == after3
            && IsText(Join(after3))
  {
    var lines := Split(content);
    SplitClean(content);
    BackfillClean(lines);
    RelocateClean(Backfill(lines));
    FixLegacyAppUrlClean(Relocate(Backfill(lines)));
    SplitJoin(Backfill(lines));
    SplitJoin(Relocate(Backfill(lines)));
    ReplaceFirstNone(Relocate(Backfill(lines)), IsLegacyUrl, FixUrl);
    SplitJoin(FixLegacyAppUrl(Relocate(Backfill(lines))));
    JoinIsText(FixLegacyAppUrl(Relocate(Backfill(lines))));
  }

  lemma {:induction false} ReplaceFirstNone(lines: seq<string>, test: string -> bool, edit: string -> string)
    ensures !Has(lines, test) ==> ReplaceFirst(lines, test, edit) == lines
  {
    if lines == [] {
    } else {
      ReplaceFirstNone(lines[1..], test, edit);
    }
  }
}
