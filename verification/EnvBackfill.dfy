/**
 The rewrites of the `.env` migrator on concrete lines: what a DOMAIN= line is
 taken to say, and where and with what text each phase acts.
 */
module EnvBackfill {
  import opened Wrappers
  import opened Dotenv
  import opened EnvMigrate
  import opened EnvMigrateLaws
  import opened EnvMigrateRuns
  import opened EnvMeaning
  import opened EnvManaged

  // ---------- the first line of a kind ----------

  lemma {:induction false} FirstAt(lines: seq<string>, test: string -> bool, i: nat)
    requires i < |lines| && test(lines[i]) && forall j :: 0 <= j < i ==> !test(lines[j])
    ensures First(lines, test) == Some(lines[i])
  {
    if i == 0 {
    } else {
      FirstAt(lines[1..], test, i - 1);
    }
  }

  lemma {:induction false} FirstIndex(lines: seq<string>, test: string -> bool) returns (i: nat)
    requires First(lines, test).Some?
    ensures i < |lines| && test(lines[i]) && First(lines, test) == Some(lines[i])
    ensures forall j :: 0 <= j < i ==> !test(lines[j])
  {
    if test(lines[0]) {
      i := 0;
    } else {
      i := FirstIndex(lines[1..], test);
      i := i + 1;
    }
  }

  lemma NoneOfThem(lines: seq<string>, test: string -> bool)
    ensures First(lines, test) == None <==> forall j :: 0 <= j < |lines| ==> !test(lines[j])
  {
    if First(lines, test).Some? {
      var i := FirstIndex(lines, test);
    } else if j :| 0 <= j < |lines| && test(lines[j]) {
      MemberHas(lines, lines[j], test);
    }
  }

  // ---------- what a DOMAIN= line says ----------

  ghost predicate QuoteOrNone(q: string) {
    q == "" || q == "\"" || q == "'"
  }

  lemma DomainText(line: string, raw: string)
    requires line == "DOMAIN=" + raw
    ensures IsDomain(line) && line[if |line| < 7 then |line| else 7..] == raw
  {}

  /** Matching quotes around the value are dropped. */
  lemma Unquoted(q: string, d: string)
    requires QuoteOrNone(q) && (d == "" || (d[0] != '"' && d[0] != '\''))
    ensures Unquote(Unquote(q + d + q, '"'), '\'') == d
  {
    var raw := q + d + q;
    if q == "" {
      assert raw == d;
    } else {
      assert raw[1..|raw| - 1] == d;
    }
  }

  lemma DomainSays(lines: seq<string>, i: nat, q: string, d: string)
    requires i < |lines| && lines[i] == "DOMAIN=" + (q + d + q)
    requires forall j :: 0 <= j < i ==> !("DOMAIN=" <= lines[j])
    requires QuoteOrNone(q) && (d == "" || (d[0] != '"' && d[0] != '\''))
    ensures ExtractDomain(lines) == Some(d)
  {
    DomainText(lines[i], q + d + q);
    FirstAt(lines, IsDomain, i);
    Unquoted(q, d);
  }

  /** The parser reads the same value from the line. */
  lemma DomainParses(line: string, q: string, d: string, key: string)
    requires key == "DOMAIN" && line == "DOMAIN=" + (q + d + q) && QuoteOrNone(q) && PlainFront(d)
    ensures ParseLine(line) == Some((key, d))
  {
    assert line == "" + key + "" + "=" + "" + (q + d + q) + "";
    ParseSplit("", key, "", "", q + d + q, "");
    if q == "" {
      ValueAfter(d, "");
      assert d + "" == d == q + d + q;
    } else {
      assert (q + d + q)[1..|d| + 1] == d;
    }
  }

  lemma PanelSays(d: string, key: string)
    requires key == "PANEL_DOMAIN" && PlainFront(d)
    ensures Definitions(["PANEL_DOMAIN=panel." + d], key) == ["panel." + d]
  {
    var line := "PANEL_DOMAIN=panel." + d;
    assert line == key + "=" + ("panel." + d) + "";
    PanelFront(d);
    PlainValueOf(line, key, "panel." + d, "");
    assert ("panel." + d) + "" == "panel." + d;
    DefinitionsOne(line, key);
  }

  lemma PanelFront(d: string)
    requires PlainFront(d)
    ensures PlainFront("panel." + d)
  {
    var front := "panel." + d;
    forall i | 0 < i < |front| && front[i] == '#'
      ensures !Space(front[i - 1])
    {
      assert front[i] == d[i - 6];
    }
  }

  /**
   A file without PANEL_DOMAIN whose first DOMAIN= line holds d, plain, in double or
   in single quotes: after any number of runs the parser finds `panel.` followed by d,
   and d is what it reads from the DOMAIN= line.
   */
  lemma PanelFromDomain(lines: seq<string>, i: nat, q: string, d: string, key: string, n: nat)
    requires key == "PANEL_DOMAIN" && Definitions(lines, key) == [] && n >= 1
    requires i < |lines| && lines[i] == "DOMAIN=" + (q + d + q)
    requires forall j :: 0 <= j < i ==> !("DOMAIN=" <= lines[j])
    requires QuoteOrNone(q) && PlainFront(d)
    ensures ParseLine(lines[i]) == Some(("DOMAIN", d))
    ensures Definitions(Run(lines, n), key) == ["panel." + d]
  {
    DomainSays(lines, i, q, d);
    DomainParses(lines[i], q, d, "DOMAIN");
    PanelBackfilled(lines, key, n);
    PanelSays(d, key);
  }

  /**
   The domain counts as missing, so that nothing is added and the run warns, exactly
   when no line starts with DOMAIN= or the first such line holds nothing but quotes.
   */
  lemma NoDomainIff(lines: seq<string>)
    ensures NoDomainValue(lines) <==>
         || (forall j :: 0 <= j < |lines| ==> !("DOMAIN=" <= lines[j]))
         || (exists i :: 0 <= i < |lines| && EmptyDomain(lines[i]) && forall j :: 0 <= j < i ==> !("DOMAIN=" <= lines[j]))
  {
    NoneOfThem(lines, IsDomain);
    if First(lines, IsDomain).Some? {
      var i := FirstIndex(lines, IsDomain);
      EmptyIff(lines[i]);
      if k :| 0 <= k < |lines| && EmptyDomain(lines[k]) && forall j :: 0 <= j < k ==> !("DOMAIN=" <= lines[j]) {
        assert IsDomain(lines[k]);
      }
    }
  }

  predicate EmptyDomain(line: string) {
    line == "DOMAIN=" || line == "DOMAIN=\"\"" || line == "DOMAIN=''" || line == "DOMAIN=\"''\""
  }

  lemma EmptyIff(line: string)
    requires IsDomain(line)
    ensures Unquote(Unquote(line[7..], '"'), '\'') == "" <==> EmptyDomain(line)
  {
    var raw := line[7..];
    assert line == "DOMAIN=" + raw;
    if Unquote(Unquote(raw, '"'), '\'') == "" {
      Wrapped(raw, '"');
      Wrapped(Unquote(raw, '"'), '\'');
    }
    if EmptyDomain(line) {
      assert raw == "" || raw == "\"\"" || raw == "''" || raw == "\"''\"";
    }
  }

  lemma Wrapped(s: string, quote: char)
    ensures s == Unquote(s, quote) || s == [quote] + Unquote(s, quote) + [quote]
  {}

  /** With nothing but quotes after DOMAIN= a file without a definition gains none and the run warns. */
  lemma EmptyDomainAddsNothing(lines: seq<string>, i: nat, key: string, n: nat)
    requires key == "PANEL_DOMAIN" && NoneStarts(lines, "PANEL_DOMAIN=")
    requires i < |lines| && EmptyDomain(lines[i]) && forall j :: 0 <= j < i ==> !("DOMAIN=" <= lines[j])
    ensures !Has(lines, IsPanel) && NoDomainValue(lines)
    ensures Definitions(Run(lines, n), key) == Definitions(lines, key)
  {
    NoneOfThem(lines, IsPanel);
    NoDomainIff(lines);
    PanelNeverAdded(lines, key, n);
  }

  ghost predicate NoneStarts(lines: seq<string>, prefix: string) {
    forall j :: 0 <= j < |lines| ==> !(prefix <= lines[j])
  }

  // ---------- where each phase acts ----------

  lemma {:induction false} InsertPlace(before: seq<string>, line: string, after: seq<string>, extra: seq<string>)
    requires NoneStarts(before, "DOMAIN=") && "DOMAIN=" <= line
    ensures InsertAfterDomain(before + ([line] + after), extra) == before + ([line] + extra + after)
  {
    var lines := before + ([line] + after);
    if before == [] {
      assert lines[0] == line && lines[1..] == after;
    } else {
      InsertPlace(before[1..], line, after, extra);
      assert lines[0] == before[0] && lines[1..] == before[1..] + ([line] + after);
    }
  }

  /** Phase 1 adds its comment and the definition right after the first DOMAIN= line. */
  lemma BackfillPlace(before: seq<string>, line: string, q: string, d: string, after: seq<string>, comment: string)
    requires comment == "# v0.0.54 auto-migration \U{2014} PANEL_DOMAIN" + " added (was missing in pre-v0.0.33 .env)"
    requires NoneStarts(before, "DOMAIN=") && line == "DOMAIN=" + (q + d + q)
    requires QuoteOrNone(q) && d != "" && d[0] != '"' && d[0] != '\''
    requires NoneStarts(before + ([line] + after), "PANEL_DOMAIN=")
    ensures Backfill(before + ([line] + after))
         == before + ([line] + [comment, "PANEL_DOMAIN=panel." + d] + after)
  {
    var lines := before + ([line] + after);
    NoneOfThem(lines, IsPanel);
    assert lines[|before|] == line;
    DomainSays(lines, |before|, q, d);
    DomainText(line, q + d + q);
    BackfillText(d, comment);
    InsertPlace(before, line, after, BackfillLines(d));
  }

  lemma BackfillText(d: string, comment: string)
    requires comment == "# v0.0.54 auto-migration \U{2014} PANEL_DOMAIN" + " added (was missing in pre-v0.0.33 .env)"
    ensures BackfillLines(d) == [comment, "PANEL_DOMAIN=panel." + d]
  {
    assert comment == BACKFILL_COMMENT;
  }

  lemma {:induction false} StripNone(lines: seq<string>)
    requires NoneStarts(lines, "PANEL_DOMAIN=")
    ensures StripPanel(lines) == lines
  {
    if lines == [] {
    } else {
      StripNone(lines[1..]);
    }
  }

  lemma {:induction false} StripMiddle(a: seq<string>, p: string, b: seq<string>)
    requires NoneStarts(a, "PANEL_DOMAIN=") && NoneStarts(b, "PANEL_DOMAIN=") && "PANEL_DOMAIN=" <= p
    ensures StripPanel(a + ([p] + b)) == a + b
  {
    var lines := a + ([p] + b);
    if a == [] {
      StripNone(b);
      assert lines[0] == p && lines[1..] == b;
    } else {
      StripMiddle(a[1..], p, b);
      assert lines[0] == a[0] && lines[1..] == a[1..] + ([p] + b);
      assert [a[0]] + (a[1..] + b) == a + b;
    }
  }

  lemma {:induction false} UsedBefore(a: seq<string>, p: string, b: seq<string>)
    requires NoneStarts(a, "PANEL_DOMAIN=") && "PANEL_DOMAIN=" <= p
    ensures DefinedAfterUse(a + ([p] + b)) <==> exists j :: 0 <= j < |a| && IsRef(a[j])
    ensures First(a + ([p] + b), IsPanel) == Some(p)
  {
    var lines := a + ([p] + b);
    if a == [] {
      assert lines[0] == p;
    } else {
      UsedBefore(a[1..], p, b);
      assert lines[0] == a[0] && lines[1..] == a[1..] + ([p] + b);
      assert (exists j :: 0 <= j < |a| && IsRef(a[j])) <==> IsRef(a[0]) || exists j :: 0 <= j < |a[1..]| && IsRef(a[1..][j]) by {
        if j :| 0 <= j < |a| && IsRef(a[j]) && j > 0 {
          assert IsRef(a[1..][j - 1]);
        }
        if j :| 0 <= j < |a[1..]| && IsRef(a[1..][j]) {
          assert IsRef(a[j + 1]);
        }
      }
    }
  }

  /**
   Phase 2 on a file with one definition p, below the first DOMAIN= line: the definition
   moves up to that line exactly when some line above it uses the variable.
   */
  lemma RelocateMoves(before: seq<string>, line: string, mid: seq<string>, p: string, after: seq<string>)
    requires NoneStarts(before, "DOMAIN=") && "DOMAIN=" <= line && "PANEL_DOMAIN=" <= p
    requires NoneStarts(before + ([line] + mid), "PANEL_DOMAIN=") && NoneStarts(after, "PANEL_DOMAIN=")
    ensures var head := before + ([line] + mid);
            Relocate(head + ([p] + after))
            == if exists j :: 0 <= j < |head| && IsRef(head[j]) then before + ([line] + [p] + (mid + after))
               else head + ([p] + after)
  {
    var head := before + ([line] + mid);
    UsedBefore(head, p, after);
    StripMiddle(head, p, after);
    InsertPlace(before, line, mid + after, [p]);
    assert head + after == before + ([line] + (mid + after));
  }

  /** A line uses the variable when it is not a comment and mentions it anywhere. */
  lemma UseForms(lead: string, a: string, b: string, line: string)
    requires Blanks(lead) && (a == "" || (!Space(a[0]) && a[0] != '#'))
    ensures IsRef(lead + (a + "${PANEL_DOMAIN}" + b))
    ensures !IsRef(lead + ("#" + b))
    ensures (forall k :: 0 <= k <= |line| ==> !("${PANEL_DOMAIN}" <= line[k..])) ==> !IsRef(line)
  {
    var v := "${PANEL_DOMAIN}";
    var body := a + v + b;
    assert body[0] == if a == "" then '$' else a[0];
    TrimStartAfter(lead, body);
    assert lead + body == (lead + a) + (v + b);
    ContainsAt(lead + a, v, b);
    TrimStartAfter(lead, "#" + b);
    if forall k :: 0 <= k <= |line| ==> !(v <= line[k..]) {
      ContainsNowhere(line, v);
    }
  }

  lemma {:induction false} ContainsAt(a: string, v: string, b: string)
    ensures Contains(a + (v + b), v)
  {
    if a == "" {
      assert a + (v + b) == v + b;
    } else {
      ContainsAt(a[1..], v, b);
      assert (a + (v + b))[1..] == a[1..] + (v + b);
    }
  }

  lemma {:induction false} ContainsNowhere(s: string, v: string)
    requires v != "" && forall k :: 0 <= k <= |s| ==> !(v <= s[k..])
    ensures !Contains(s, v)
  {
    assert s[0..] == s;
    if s != "" {
      forall k | 0 <= k <= |s[1..]|
        ensures !(v <= s[1..][k..])
      {
        assert s[1..][k..] == s[k + 1..];
      }
      ContainsNowhere(s[1..], v);
    }
  }

  lemma {:induction false} ReplacePlace(before: seq<string>, line: string, after: seq<string>,
                                        test: string -> bool, edit: string -> string)
    requires test(line) && forall j :: 0 <= j < |before| ==> !test(before[j])
    ensures ReplaceFirst(before + ([line] + after), test, edit) == before + ([edit(line)] + after)
  {
    var lines := before + ([line] + after);
    if before == [] {
      assert lines[0] == line && lines[1..] == after;
    } else {
      ReplacePlace(before[1..], line, after, test, edit);
      assert lines[0] == before[0] && lines[1..] == before[1..] + ([line] + after);
    }
  }

  /** Phase 4 rewrites the first line that is exactly the old strategy. */
  lemma CanonicalPlace(before: seq<string>, line: string, after: seq<string>)
    requires line == "SINGBOX_DIRECT_DOMAIN_STRATEGY=prefer_ipv4"
    requires line !in before
    ensures Canonical(before + ([line] + after))
         == before + (["SINGBOX_DIRECT_DOMAIN_STRATEGY=ipv4_only"] + after)
  {
    ReplacePlace(before, line, after, IsPreferIpv4, ToIpv4Only);
  }

  ghost predicate NoDirectKeys(lines: seq<string>) {
    && NoneStarts(lines, "SINGBOX_DIRECT_DOMAIN_STRATEGY=")
    && NoneStarts(lines, "SINGBOX_DIRECT_CONNECT_TIMEOUT=")
    && NoneStarts(lines, "SINGBOX_DIRECT_FALLBACK_DELAY=")
  }

  ghost predicate DirectDefaults(c: string, s: string, t: string, d: string) {
    && c == "# v0.4.17 auto-migration \U{2014} sing-box" + " direct outbound IPv4-only policy"
    && s == "SINGBOX_DIRECT_DOMAIN_STRATEGY=ipv4_only"
    && t == "SINGBOX_DIRECT_CONNECT_TIMEOUT=2s"
    && d == "SINGBOX_DIRECT_FALLBACK_DELAY=100ms"
  }

  /** The block phase 4 appends to a text without any of the three keys, after a line feed if one is missing. */
  lemma AppendedText(lines: seq<string>, text: string, c: string, s: string, t: string, d: string)
    requires CleanLines(lines) && text == Join(lines)
    requires NoDirectKeys(lines) && DirectDefaults(c, s, t, d)
    ensures var open := text == "" || text[|text| - 1] != '\n';
            Join(AppendDefaults(lines)) == (if open then text + "\n" else text) + FourLines(c, s, t, d)
  {
    FourAdditions(lines, c, s, t, d);
    AppendedBlock(lines, text, [c, s, t, d], c, s, t, d);
  }

  function FourLines(c: string, s: string, t: string, d: string): string {
    c + ("\n" + (s + ("\n" + (t + ("\n" + (d + "\n"))))))
  }

  lemma AppendedBlock(lines: seq<string>, text: string, extra: seq<string>, c: string, s: string, t: string, d: string)
    requires CleanLines(lines) && text == Join(lines) && extra == [c, s, t, d]
    ensures var open := text == "" || text[|text| - 1] != '\n';
            Join(Body(lines) + extra + [""]) == (if open then text + "\n" else text) + FourLines(c, s, t, d)
  {
    BlockText(lines, extra);
    JoinFour(extra, c, s, t, d);
    var block := Join([""] + extra);
    assert block + "\n" == "\n" + FourLines(c, s, t, d);
    EitherWay(text, block, FourLines(c, s, t, d));
  }

  lemma EitherWay(text: string, block: string, tail: string)
    requires block != "" && block + "\n" == "\n" + tail
    ensures text + block + "\n" == (text + "\n") + tail
    ensures text + block[1..] + "\n" == text + tail
  {
    assert text + block + "\n" == text + (block + "\n");
    assert text + block[1..] + "\n" == text + (block + "\n")[1..];
  }

  lemma FourAdditions(lines: seq<string>, c: string, s: string, t: string, d: string)
    requires NoDirectKeys(lines) && DirectDefaults(c, s, t, d)
    ensures AppendDefaults(lines) == Body(lines) + [c, s, t, d] + [""]
  {
    NoneOfThem(lines, IsStrategy);
    NoneOfThem(lines, IsTimeout);
    NoneOfThem(lines, IsDelay);
    assert Additions(lines) == [c, s, t, d];
  }

  lemma JoinFour(extra: seq<string>, c: string, s: string, t: string, d: string)
    requires extra == [c, s, t, d]
    ensures Join([""] + extra) + "\n" == "\n" + FourLines(c, s, t, d)
  {
    assert ([""] + extra)[1..] == extra && extra[1..] == [s, t, d];
    assert [s, t, d][1..] == [t, d] && [t, d][1..] == [d];
    assert Join([""] + extra) == "" + "\n" + Join(extra) == "\n" + Join(extra);
    assert ("\n" + Join(extra)) + "\n" == "\n" + (Join(extra) + "\n");
    assert Join([d]) == d && Join([t, d]) == t + "\n" + d;
    assert Join(extra) == c + "\n" + (s + "\n" + (t + "\n" + d));
    JoinedFour(c, s, t, d);
  }

  lemma JoinedFour(c: string, s: string, t: string, d: string)
    ensures (c + "\n" + (s + "\n" + (t + "\n" + d))) + "\n" == FourLines(c, s, t, d)
  {
    JoinTail(c, s + "\n" + (t + "\n" + d), "");
    JoinTail(s, t + "\n" + d, "");
    JoinTail(t, d, "");
  }

  lemma JoinTail(x: string, y: string, z: string)
    ensures (x + "\n" + y) + "\n" == x + ("\n" + (y + "\n"))
  {}

  // ---------- the reported changes ----------

  /** The reported phases, in their order: those that changed something, and phase 2 whenever the definition came after a use. */
  lemma ReportedPhases(lines: seq<string>)
    ensures var after1 := Backfill(lines);
            var after2 := Relocate(after1);
            var after3 := FixLegacyAppUrl(after2);
            Changes(lines) == (if after1 != lines then [PanelDomainBackfill] else [])
                            + (if DefinedAfterUse(after1) then [PanelDomainRelocate] else [])
                            + (if after3 != after2 then [AppUrlFix] else [])
                            + (if SingboxDefaults(after3) != after3 then [SingboxDirectDefaults] else [])
  {
    BackfillGrows(lines);
    FixChanges(Relocate(Backfill(lines)));
  }

  lemma BackfillGrows(lines: seq<string>)
    ensures Backfill(lines) == lines <==> Has(lines, IsPanel) || NoDomainValue(lines)
  {
    if !NoDomainValue(lines) {
      InsertGrows(lines, BackfillLines(ExtractDomain(lines).value));
    }
  }

  lemma {:induction false} InsertGrows(lines: seq<string>, extra: seq<string>)
    requires Has(lines, IsDomain)
    ensures |InsertAfterDomain(lines, extra)| == |lines| + |extra|
  {
    if !IsDomain(lines[0]) {
      InsertGrows(lines[1..], extra);
    }
  }

  lemma {:induction false} FixChanges(lines: seq<string>)
    ensures FixLegacyAppUrl(lines) == lines <==> !Has(lines, IsLegacyUrl)
  {
    if lines == [] {
    } else if IsLegacyUrl(lines[0]) {
      FixLengthens(lines[0]);
      assert FixLegacyAppUrl(lines)[0] == FixUrl(lines[0]);
    } else {
      FixChanges(lines[1..]);
      assert FixLegacyAppUrl(lines)[1..] == FixLegacyAppUrl(lines[1..]);
    }
  }

  lemma FixLengthens(line: string)
    requires IsLegacyUrl(line)
    ensures FixUrl(line) != line
  {
    assert |FixUrl(line)| == |line| + 6;
  }

  /**
   A run that reports no change makes none; one that makes none reports phase 2 all the
   same exactly when the definition still comes after a use.
   */
  lemma ReportsChanges(lines: seq<string>)
    ensures Changes(lines) == [] <==> Migrate(lines) == lines && !DefinedAfterUse(lines)
  {
    HasCount(lines, IsPanel);
    HasCount(lines, IsLegacyUrl);
    if Changes(lines) == [] {
      ReplaceFirstNone(lines, IsLegacyUrl, FixUrl);
    } else if Migrate(lines) == lines && !DefinedAfterUse(lines) {
      FixedIffSettled(lines);
      assert Relocate(lines) == lines;
      ReplaceFirstNone(lines, IsLegacyUrl, FixUrl);
      CountNone(lines, IsPreferIpv4, ToIpv4Only);
      assert false;
    }
  }

  /**
   Such files exist: with a use above the first DOMAIN= line and the only definition right
   below that line, phase 2 reports a move on every run and moves nothing.
   */
  lemma ReportedForNothing(before: seq<string>, line: string, p: string, after: seq<string>, j: nat)
    requires NoneStarts(before, "DOMAIN=") && "DOMAIN=" <= line && "PANEL_DOMAIN=" <= p
    requires NoneStarts(before + ([line] + []), "PANEL_DOMAIN=") && NoneStarts(after, "PANEL_DOMAIN=")
    requires j < |before| && IsRef(before[j])
    ensures var lines := before + ([line] + []) + ([p] + after);
            Relocate(lines) == lines && PanelDomainRelocate in Changes(lines)
  {
    var head, tail := before + ([line] + []), [p] + after;
    assert head[j] == before[j];
    RelocateMoves(before, line, [], p, after);
    UsedBefore(head, p, after);
    Regrouped(before, [line], [p], after);
    NoteReported(head + tail);
  }

  lemma Regrouped(before: seq<string>, line: seq<string>, p: seq<string>, after: seq<string>)
    ensures before + (line + p + ([] + after)) == (before + (line + [])) + (p + after)
  {}

  lemma NoteReported(lines: seq<string>)
    requires Has(lines, IsPanel) && DefinedAfterUse(lines)
    ensures PanelDomainRelocate in Changes(lines)
  {
    assert Backfill(lines) == lines;
  }
}
