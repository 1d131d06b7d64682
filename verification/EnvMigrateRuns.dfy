/**
 How many runs the `.env` migrator needs, exactly: when one phase alone and when
 one run is idempotent, and for every n whether n runs reach the fixed point.
 */
module EnvMigrateRuns {
  import opened Dotenv
  import opened EnvMigrate
  import opened EnvMigrateLaws

  // ---------- each phase on its own ----------

  /** Phase 1 is idempotent. */
  lemma BackfillIdempotent(lines: seq<string>)
    ensures Backfill(Backfill(lines)) == Backfill(lines)
  {
    BackfillTally(lines);
    BackfillSettled(Backfill(lines));
  }

  /** Phase 3 is idempotent exactly on files with at most one legacy URL. */
  lemma FixIdempotentIff(lines: seq<string>)
    ensures FixLegacyAppUrl(FixLegacyAppUrl(lines)) == FixLegacyAppUrl(lines) <==> LegacyUrls(lines) <= 1
  {
    FixTally(lines);
    FixTally(FixLegacyAppUrl(lines));
    assert TallyOf(FixLegacyAppUrl(lines)).legacy == Minus(TallyOf(lines).legacy, 1);
    if LegacyUrls(lines) <= 1 {
      CountNone(FixLegacyAppUrl(lines), IsLegacyUrl, FixUrl);
    }
  }

  /** Phase 4 is idempotent exactly on files with at most one prefer_ipv4 line. */
  lemma SingboxIdempotentIff(lines: seq<string>)
    ensures SingboxDefaults(SingboxDefaults(lines)) == SingboxDefaults(lines) <==> PreferLines(lines) <= 1
  {
    var once := SingboxDefaults(lines);
    SingboxTally(lines);
    SingboxTally(once);
    if PreferLines(lines) <= 1 {
      CountNone(once, IsPreferIpv4, ToIpv4Only);
    }
  }

  lemma SingboxTally(lines: seq<string>)
    ensures PreferLines(SingboxDefaults(lines)) == Minus(PreferLines(lines), 1) && HasDefaults(SingboxDefaults(lines))
  {
    CanonicalTally(lines);
    AppendTally(Canonical(lines));
    AppendHasDefaults(Canonical(lines));
    assert TallyOf(SingboxDefaults(lines)).prefer == Minus(TallyOf(lines).prefer, 1);
  }

  // ---------- order of lines ----------

  /** A line passing a comes before the first line passing b, which exists. */
  predicate Precedes(lines: seq<string>, a: string -> bool, b: string -> bool) {
    lines != [] && !b(lines[0]) && if a(lines[0]) then Has(lines[1..], b) else Precedes(lines[1..], a, b)
  }

  lemma {:induction false} PrecedesHas(lines: seq<string>, a: string -> bool, b: string -> bool)
    ensures Precedes(lines, a, b) ==> Has(lines, a) && Has(lines, b)
  {
    if lines == [] {
    } else {
      PrecedesHas(lines[1..], a, b);
    }
  }

  lemma {:induction false} PrecedesTrans(lines: seq<string>, a: string -> bool, b: string -> bool, c: string -> bool)
    requires Precedes(lines, a, b) && Precedes(lines, b, c)
    ensures Precedes(lines, a, c)
  {
    if a(lines[0]) {
      PrecedesHas(lines[1..], b, c);
    } else {
      PrecedesTrans(lines[1..], a, b, c);
    }
  }

  lemma {:induction false} DefinedAfterUsePrecedes(lines: seq<string>)
    ensures DefinedAfterUse(lines) == Precedes(lines, IsRef, IsPanel)
  {
    if lines == [] {
    } else {
      DefinedAfterUsePrecedes(lines[1..]);
    }
  }

  // ---------- what phase 3 leaves to phase 2 ----------

  /** The rewritten URL is a reference. */
  lemma FixedUrlIsRef(l: string)
    requires IsLegacyUrl(l)
    ensures IsRef(FixUrl(l)) && !IsPanel(FixUrl(l)) && !IsLegacyUrl(FixUrl(l))
  {
    AllKinds();
    FixedUrlKind(l);
    var fixed := FixUrl(l);
    if "APP_URL=http://${DOMAIN}" <= l {
      assert "APP_URL=http://${PANEL_DOMAIN}"[15..] == "${PANEL_DOMAIN}";
      assert fixed[..30] == "APP_URL=http://${PANEL_DOMAIN}";
      NameAt(fixed, "${PANEL_DOMAIN}", 15);
    } else {
      assert "APP_URL=https://${PANEL_DOMAIN}"[16..] == "${PANEL_DOMAIN}";
      assert fixed[..31] == "APP_URL=https://${PANEL_DOMAIN}";
      NameAt(fixed, "${PANEL_DOMAIN}", 16);
    }
    assert TrimStart(fixed) == fixed;
  }

  lemma NameAt(l: string, name: string, i: nat)
    requires i + |name| <= |l| && l[i..i + |name|] == name
    ensures Contains(l, name)
  {
    assert l[i..][..|name|] == l[i..i + |name|];
    ContainsAt(l, name, i);
  }

  lemma {:induction false} ContainsAt(s: string, part: string, i: nat)
    requires i <= |s| && part <= s[i..]
    ensures Contains(s, part)
  {
    if i == 0 {
    } else {
      ContainsAt(s[1..], part, i - 1);
    }
  }

  /** Phase 3 puts a reference where the first legacy URL was. */
  lemma {:induction false} FixCreatesUse(lines: seq<string>)
    ensures DefinedAfterUse(FixLegacyAppUrl(lines))
       <==> DefinedAfterUse(lines) || Precedes(lines, IsLegacyUrl, IsPanel)
  {
    if lines == [] {
    } else {
      var line, rest := lines[0], lines[1..];
      AllKinds();
      PrecedesHas(rest, IsLegacyUrl, IsPanel);
      if IsLegacyUrl(line) {
        FixedUrlIsRef(line);
        assert FixLegacyAppUrl(lines)[1..] == rest;
        DefinedNeedsPanel(rest);
        HasCount(rest, IsPanel);
      } else {
        FixCreatesUse(rest);
        assert FixLegacyAppUrl(lines)[1..] == FixLegacyAppUrl(rest);
        FirstReplace(rest, IsLegacyUrl, FixUrl, IsPanel);
      }
    }
  }

  lemma {:induction false} StripReplace(lines: seq<string>, hit: string -> bool, edit: string -> string)
    requires forall l :: hit(l) ==> !IsPanel(l) && !IsPanel(edit(l))
    ensures StripPanel(ReplaceFirst(lines, hit, edit)) == ReplaceFirst(StripPanel(lines), hit, edit)
  {
    if lines == [] {
    } else {
      var line, rest := lines[0], lines[1..];
      StripReplace(rest, hit, edit);
      if IsPanel(line) {
        assert ReplaceFirst(lines, hit, edit)[1..] == ReplaceFirst(rest, hit, edit);
        assert StripPanel(lines) == StripPanel(rest);
      } else if hit(line) {
        assert ReplaceFirst(lines, hit, edit)[1..] == rest;
        assert StripPanel(lines)[1..] == StripPanel(rest);
      } else {
        assert ReplaceFirst(lines, hit, edit)[1..] == ReplaceFirst(rest, hit, edit);
        assert StripPanel(lines)[1..] == StripPanel(rest);
      }
    }
  }

  lemma ReplaceSkip(line: string, rest: seq<string>, hit: string -> bool, edit: string -> string)
    requires !hit(line)
    ensures ReplaceFirst([line] + rest, hit, edit) == [line] + ReplaceFirst(rest, hit, edit)
  {
    assert ([line] + rest)[1..] == rest;
  }

  lemma {:induction false} InsertReplace(lines: seq<string>, d: string, hit: string -> bool, edit: string -> string)
    requires !hit(d) && forall l :: hit(l) ==> !IsDomain(l) && !IsDomain(edit(l))
    ensures InsertAfterDomain(ReplaceFirst(lines, hit, edit), [d]) == ReplaceFirst(InsertAfterDomain(lines, [d]), hit, edit)
  {
    if lines == [] {
    } else {
      var line, rest := lines[0], lines[1..];
      assert lines == [line] + rest;
      if IsDomain(line) {
        InsertHere(line, rest, d);
        InsertHere(line, ReplaceFirst(rest, hit, edit), d);
        ReplaceSkip(d, rest, hit, edit);
        ReplaceSkip(line, [d] + rest, hit, edit);
        ReplaceSkip(line, rest, hit, edit);
      } else if hit(line) {
        assert ReplaceFirst(lines, hit, edit)[1..] == rest;
        assert InsertAfterDomain(lines, [d])[1..] == InsertAfterDomain(rest, [d]);
      } else {
        InsertReplace(rest, d, hit, edit);
        assert ReplaceFirst(lines, hit, edit)[1..] == ReplaceFirst(rest, hit, edit);
        assert InsertAfterDomain(lines, [d])[1..] == InsertAfterDomain(rest, [d]);
      }
    }
  }

  /** A rewrite of lines other than definitions tells apart files that differ in their definitions only. */
  lemma {:induction false} ReplaceInjective(a: seq<string>, b: seq<string>, hit: string -> bool, edit: string -> string)
    requires forall l :: hit(l) ==> !IsPanel(l) && !IsPanel(edit(l))
    requires StripPanel(a) == StripPanel(b) && ReplaceFirst(a, hit, edit) == ReplaceFirst(b, hit, edit)
    ensures a == b
  {
    ReplaceFirstShape(a, hit, edit);
    ReplaceFirstShape(b, hit, edit);
    if a == [] {
    } else {
      var x, y := a[0], b[0];
      assert ReplaceFirst(a, hit, edit)[0] == ReplaceFirst(b, hit, edit)[0];
      assert IsPanel(x) == IsPanel(y);
      if IsPanel(x) {
        assert ReplaceFirst(a, hit, edit)[1..] == ReplaceFirst(a[1..], hit, edit);
        assert ReplaceFirst(b, hit, edit)[1..] == ReplaceFirst(b[1..], hit, edit);
        assert StripPanel(a) == StripPanel(a[1..]) && StripPanel(b) == StripPanel(b[1..]);
        ReplaceInjective(a[1..], b[1..], hit, edit);
      } else {
        assert StripPanel(a)[0] == x && StripPanel(b)[0] == y;
        assert StripPanel(a)[1..] == StripPanel(a[1..]) && StripPanel(b)[1..] == StripPanel(b[1..]);
        if hit(x) {
          assert ReplaceFirst(a, hit, edit)[1..] == a[1..] && ReplaceFirst(b, hit, edit)[1..] == b[1..];
        } else {
          assert ReplaceFirst(a, hit, edit)[1..] == ReplaceFirst(a[1..], hit, edit);
          assert ReplaceFirst(b, hit, edit)[1..] == ReplaceFirst(b[1..], hit, edit);
          ReplaceInjective(a[1..], b[1..], hit, edit);
        }
      }
      assert a == [x] + a[1..] && b == [y] + b[1..];
    }
  }

  // ---------- one run ----------

  /** Exactly one definition, on the line after the first DOMAIN= line: where phase 2 would put it. */
  predicate InPlace(lines: seq<string>) {
    lines != [] && !IsPanel(lines[0])
    && if IsDomain(lines[0]) then |lines| > 1 && IsPanel(lines[1]) && !Has(lines[2..], IsPanel)
       else InPlace(lines[1..])
  }

  lemma {:induction false} InPlaceIff(lines: seq<string>)
    requires Has(lines, IsPanel)
    ensures Relocated(lines, First(lines, IsPanel).value) == lines <==> InPlace(lines)
  {
    var line, rest, d := lines[0], lines[1..], First(lines, IsPanel).value;
    AllKinds();
    StripCount(lines);
    if IsPanel(line) {
      StripHead(lines);
    } else {
      assert StripPanel(lines)[1..] == StripPanel(rest);
      if IsDomain(line) {
        InsertHere(line, StripPanel(rest), d);
        assert StripPanel(lines) == [line] + StripPanel(rest);
        assert lines == [line] + rest;
        NextInPlace(rest, d);
      } else {
        InPlaceIff(rest);
        assert Relocated(lines, d)[1..] == Relocated(rest, d);
      }
    }
  }

  lemma StripHead(lines: seq<string>)
    requires lines != [] && IsPanel(lines[0])
    ensures forall d :: Relocated(lines, d) != lines
  {
    StripCount(lines);
    var stripped := StripPanel(lines);
    if stripped != [] {
      HasCount(stripped, IsPanel);
      forall d ensures Relocated(lines, d) != lines {
        assert Relocated(lines, d)[0] == stripped[0];
        assert !IsPanel(stripped[0]);
      }
    }
  }

  lemma NextInPlace(rest: seq<string>, d: string)
    requires Has(rest, IsPanel) && d == First(rest, IsPanel).value
    ensures [d] + StripPanel(rest) == rest <==> IsPanel(rest[0]) && !Has(rest[1..], IsPanel)
  {
    HasCount(rest, IsPanel);
    HasCount(rest[1..], IsPanel);
    StripCount(rest);
    StripCount(rest[1..]);
    if IsPanel(rest[0]) {
      assert StripPanel(rest) == StripPanel(rest[1..]);
      assert rest == [d] + rest[1..];
      assert ([d] + StripPanel(rest))[1..] == StripPanel(rest);
    }
  }

  /**
   Phase 3 will write a reference before the definition, where so far none is, and
   the definition is not where phase 2 would move it.
   */
  predicate Upset(b: seq<string>) {
    Precedes(b, IsLegacyUrl, IsPanel) && !DefinedAfterUse(b) && !InPlace(b)
  }

  /** The rewrites of the later phases keep phase 2 as idle as the file before them. */
  lemma RelocateReplace(lines: seq<string>, d: string, hit: string -> bool, edit: string -> string)
    requires IsPanel(d) && forall l :: hit(l) ==> !IsPanel(l) && !IsPanel(edit(l)) && !IsDomain(l) && !IsDomain(edit(l))
    ensures var after := ReplaceFirst(lines, hit, edit);
            Relocated(after, d) == after <==> Relocated(lines, d) == lines
  {
    var after, stripped := ReplaceFirst(lines, hit, edit), StripPanel(lines);
    StripReplace(lines, hit, edit);
    InsertReplace(stripped, d, hit, edit);
    assert Relocated(after, d) == ReplaceFirst(Relocated(lines, d), hit, edit);
    StripCount(lines);
    StripInsert(stripped, d);
    if Relocated(after, d) == after {
      ReplaceInjective(Relocated(lines, d), lines, hit, edit);
    }
  }

  lemma RelocateFix(r: seq<string>)
    ensures var f := FixLegacyAppUrl(r);
            Relocate(f) == f <==> Relocate(r) == r && (Precedes(r, IsLegacyUrl, IsPanel) ==> DefinedAfterUse(r) || InPlace(r))
  {
    var f := FixLegacyAppUrl(r);
    AllKinds();
    FixCreatesUse(r);
    FirstReplace(r, IsLegacyUrl, FixUrl, IsPanel);
    PrecedesHas(r, IsLegacyUrl, IsPanel);
    DefinedNeedsPanel(r);
    HasCount(r, IsPanel);
    if Has(r, IsPanel) {
      InPlaceIff(r);
      RelocateReplace(r, First(r, IsPanel).value, IsLegacyUrl, FixUrl);
    }
  }

  lemma RelocateCanonicalIff(f: seq<string>)
    ensures Relocate(Canonical(f)) == Canonical(f) <==> Relocate(f) == f
  {
    AllKinds();
    DefinedCanonical(f);
    FirstReplace(f, IsPreferIpv4, ToIpv4Only, IsPanel);
    HasCount(f, IsPanel);
    if Has(f, IsPanel) {
      RelocateReplace(f, First(f, IsPanel).value, IsPreferIpv4, ToIpv4Only);
    }
  }

  /** After phases 1 and 2, phase 3 brings work back exactly on an upset file. */
  lemma UpsetAfterRelocate(b: seq<string>)
    ensures var r := Relocate(b);
            (Precedes(r, IsLegacyUrl, IsPanel) ==> DefinedAfterUse(r) || InPlace(r)) <==> !Upset(b)
  {
    var r := Relocate(b);
    RelocateIdempotent(b);
    DefinedNeedsPanel(b);
    HasCount(b, IsPanel);
    if DefinedAfterUse(b) {
      var d := First(b, IsPanel).value;
      PrecedesHas(r, IsLegacyUrl, IsPanel);
      if Has(r, IsPanel) {
        RelocatedInPlace(b, d);
      }
    }
  }

  lemma RelocatedInPlace(b: seq<string>, d: string)
    requires IsPanel(d) && Has(Relocated(b, d), IsPanel)
    ensures InPlace(Relocated(b, d))
  {
    var r, stripped := Relocated(b, d), StripPanel(b);
    StripCount(b);
    HasCount(r, IsPanel);
    if Count(stripped, IsDomain) == 0 {
      InsertNowhere(stripped, [d]);
    } else {
      StripInsert(stripped, d);
      InPlaceIff(r);
    }
  }

  /** One run is enough for phase 2 exactly when phase 1 left a file that is not upset. */
  lemma RelocateAfterRun(lines: seq<string>)
    ensures Relocate(Migrate(lines)) == Migrate(lines) <==> !Upset(Backfill(lines))
  {
    var b := Backfill(lines);
    var r := Relocate(b);
    var f := FixLegacyAppUrl(r);
    RelocateIdempotent(b);
    UpsetAfterRelocate(b);
    RelocateFix(r);
    RelocateCanonicalIff(f);
    RelocateDefaults(Canonical(f));
  }

  // ---------- read off the input ----------

  /** Some reference stands before the first DOMAIN= line or in it. */
  predicate UsedByDomain(lines: seq<string>) {
    lines != [] && (IsRef(lines[0]) || (!IsDomain(lines[0]) && UsedByDomain(lines[1..])))
  }

  /**
   The files one run does not settle although no line kind occurs twice: a legacy URL
   comes before the definition (or, where phase 1 adds one, before the DOMAIN= line),
   no reference does, and the definition is not in the one place phase 2 leaves it.
   */
  predicate NeedsSecondRun(lines: seq<string>) {
    if Has(lines, IsPanel) then Precedes(lines, IsLegacyUrl, IsPanel) && !DefinedAfterUse(lines) && !InPlace(lines)
    else !NoDomainValue(lines) && Precedes(lines, IsLegacyUrl, IsDomain) && !UsedByDomain(lines)
  }

  lemma {:induction false} UpsetInsert(lines: seq<string>, comment: string, d: string)
    requires IsPanel(d) && Inert(comment) && !Has(lines, IsPanel)
    ensures var b := InsertAfterDomain(lines, [comment, d]);
            && (Has(lines, IsDomain) ==> !InPlace(b) && Has(b, IsPanel))
            && Precedes(b, IsLegacyUrl, IsPanel) == Precedes(lines, IsLegacyUrl, IsDomain)
            && DefinedAfterUse(b) == (UsedByDomain(lines) && Has(lines, IsDomain))
  {
    if lines == [] {
    } else {
      var line, rest := lines[0], lines[1..];
      var b := InsertAfterDomain(lines, [comment, d]);
      AllKinds();
      if IsDomain(line) {
        assert b[1..] == [comment] + ([d] + rest);
        BackfilledTail(comment, d, rest);
      } else {
        UpsetInsert(rest, comment, d);
        assert b[1..] == InsertAfterDomain(rest, [comment, d]);
        InsertedPanel(rest, comment, d);
      }
    }
  }

  lemma BackfilledTail(comment: string, d: string, rest: seq<string>)
    requires IsPanel(d) && Inert(comment)
    ensures var tail := [comment] + ([d] + rest);
            !IsPanel(tail[0]) && Has(tail, IsPanel) && !Precedes(tail, IsLegacyUrl, IsPanel) && !DefinedAfterUse(tail)
  {
    var tail := [d] + rest;
    assert Has(tail, IsPanel) && !Precedes(tail, IsLegacyUrl, IsPanel) && !DefinedAfterUse(tail);
    assert ([comment] + tail)[1..] == tail;
  }

  lemma {:induction false} InsertedPanel(lines: seq<string>, comment: string, d: string)
    requires IsPanel(d) && Inert(comment) && !Has(lines, IsPanel)
    ensures Has(InsertAfterDomain(lines, [comment, d]), IsPanel) == Has(lines, IsDomain)
  {
    if lines == [] {
    } else {
      var b := InsertAfterDomain(lines, [comment, d]);
      AllKinds();
      if IsDomain(lines[0]) {
        assert b[1..] == [comment] + ([d] + lines[1..]);
        BackfilledTail(comment, d, lines[1..]);
      } else {
        InsertedPanel(lines[1..], comment, d);
        assert b[1..] == InsertAfterDomain(lines[1..], [comment, d]);
      }
    }
  }

  lemma UpsetReadOff(lines: seq<string>)
    ensures Upset(Backfill(lines)) == NeedsSecondRun(lines)
  {
    if !Has(lines, IsPanel) {
      if NoDomainValue(lines) {
        PrecedesHas(lines, IsLegacyUrl, IsPanel);
      } else {
        var domain := ExtractDomain(lines).value;
        BackfillKinds(domain);
        UpsetBackfilled(lines, BackfillLines(domain)[0], BackfillLines(domain)[1]);
      }
    }
  }

  lemma UpsetBackfilled(lines: seq<string>, comment: string, d: string)
    requires IsPanel(d) && Inert(comment) && !Has(lines, IsPanel) && Has(lines, IsDomain)
    ensures Upset(InsertAfterDomain(lines, [comment, d])) <==> Precedes(lines, IsLegacyUrl, IsDomain) && !UsedByDomain(lines)
  {
    UpsetInsert(lines, comment, d);
  }

  lemma BackfillKinds(domain: string)
    ensures Inert(BackfillLines(domain)[0]) && IsPanel(BackfillLines(domain)[1])
    ensures BackfillLines(domain) == [BackfillLines(domain)[0], BackfillLines(domain)[1]]
  {
    PanelLine(domain);
    InertComment(BACKFILL_COMMENT);
  }

  lemma PanelLine(d: string)
    ensures IsPanel("PANEL_DOMAIN=panel." + d)
  {
    var line := "PANEL_DOMAIN=panel." + d;
    assert line[..13] == "PANEL_DOMAIN=panel."[..13] == "PANEL_DOMAIN=";
  }

  /**
   One run is idempotent exactly on files with at most one legacy URL, at most one
   prefer_ipv4 line, and no need for a second run.
   */
  lemma OneRunIff(lines: seq<string>)
    ensures Migrate(Migrate(lines)) == Migrate(lines)
       <==> LegacyUrls(lines) <= 1 && PreferLines(lines) <= 1 && !NeedsSecondRun(lines)
  {
    MigrateTally(lines);
    MigrateCounts(lines);
    RelocateAfterRun(lines);
    UpsetReadOff(lines);
    FixedIffSettled(Migrate(lines));
  }

  // ---------- every number of runs ----------

  /** Where a run leaves a legacy URL, it has put a reference before it. */
  lemma {:induction false} FixLeavesUse(lines: seq<string>)
    requires Has(FixLegacyAppUrl(lines), IsLegacyUrl)
    ensures Precedes(FixLegacyAppUrl(lines), IsRef, IsLegacyUrl)
  {
    var line, rest := lines[0], lines[1..];
    if IsLegacyUrl(line) {
      FixedUrlIsRef(line);
      assert FixLegacyAppUrl(lines)[1..] == rest;
    } else {
      assert FixLegacyAppUrl(lines)[1..] == FixLegacyAppUrl(rest);
      FixLeavesUse(rest);
    }
  }

  lemma {:induction false} PrecedesCanonical(lines: seq<string>)
    ensures Precedes(Canonical(lines), IsRef, IsLegacyUrl) == Precedes(lines, IsRef, IsLegacyUrl)
  {
    if lines == [] {
    } else {
      var line, rest := lines[0], lines[1..];
      AllKinds();
      PreferIsInert(line);
      if IsPreferIpv4(line) {
        assert Canonical(lines)[1..] == rest;
      } else {
        PrecedesCanonical(rest);
        assert Canonical(lines)[1..] == Canonical(rest);
        FirstReplace(rest, IsPreferIpv4, ToIpv4Only, IsLegacyUrl);
      }
    }
  }

  lemma {:induction false} PrecedesAppend(a: seq<string>, b: seq<string>)
    requires AllInert(b)
    ensures Precedes(a + b, IsRef, IsLegacyUrl) == Precedes(a, IsRef, IsLegacyUrl)
  {
    InertCount(b);
    HasCount(b, IsLegacyUrl);
    if a == [] {
      assert a + b == b;
      PrecedesHas(b, IsRef, IsLegacyUrl);
    } else {
      assert (a + b)[1..] == a[1..] + b;
      PrecedesAppend(a[1..], b);
      FirstAppend(a[1..], b, IsLegacyUrl);
    }
  }

  lemma PrecedesDefaults(c: seq<string>)
    ensures Precedes(AppendDefaults(c), IsRef, IsLegacyUrl) == Precedes(c, IsRef, IsLegacyUrl)
  {
    if !HasDefaults(c) {
      TailInert(c);
      if EndsWithNewline(c) {
        assert c == Body(c) + [""];
        PrecedesAppend(Body(c), [""]);
      }
      PrecedesAppend(Body(c), Tail(c));
      assert AppendDefaults(c) == Body(c) + Tail(c);
    }
  }

  lemma MigratedUse(lines: seq<string>)
    requires Has(Migrate(lines), IsLegacyUrl)
    ensures Precedes(Migrate(lines), IsRef, IsLegacyUrl)
  {
    var f := FixLegacyAppUrl(Relocate(Backfill(lines)));
    CanonicalTally(f);
    AppendTally(Canonical(f));
    HasCount(Migrate(lines), IsLegacyUrl);
    HasCount(f, IsLegacyUrl);
    assert TallyOf(Migrate(lines)).legacy == TallyOf(f).legacy;
    FixLeavesUse(Relocate(Backfill(lines)));
    PrecedesCanonical(f);
    PrecedesDefaults(Canonical(f));
  }

  lemma {:induction false} UseBeforeDomain(lines: seq<string>)
    requires Precedes(lines, IsRef, IsLegacyUrl) && Precedes(lines, IsLegacyUrl, IsDomain)
    ensures UsedByDomain(lines)
  {
    if !IsRef(lines[0]) {
      UseBeforeDomain(lines[1..]);
    }
  }

  /** No file that has been through a run needs a second run in this sense. */
  lemma NeverAfterRun(lines: seq<string>)
    ensures !NeedsSecondRun(Migrate(lines))
  {
    var x := Migrate(lines);
    if Has(x, IsPanel) {
      PrecedesHas(x, IsLegacyUrl, IsPanel);
      if Precedes(x, IsLegacyUrl, IsPanel) {
        MigratedUse(lines);
        PrecedesTrans(x, IsRef, IsLegacyUrl, IsPanel);
        DefinedAfterUsePrecedes(x);
      }
    } else {
      PrecedesHas(x, IsLegacyUrl, IsDomain);
      if Precedes(x, IsLegacyUrl, IsDomain) {
        MigratedUse(lines);
        UseBeforeDomain(x);
      }
    }
  }

  /** When n runs, one at least, reach the fixed point. */
  predicate Enough(lines: seq<string>, n: nat) {
    LegacyUrls(lines) <= n && PreferLines(lines) <= n && (n >= 2 || !NeedsSecondRun(lines))
  }

  /** The number of runs a file needs, exactly: n >= 1 runs are enough if and only if this holds. */
  lemma RunsExact(lines: seq<string>, n: nat)
    requires n >= 1
    ensures Migrate(Run(lines, n)) == Run(lines, n) <==> Enough(lines, n)
  {
    var before, earlier := LastRuns(lines, n);
    OneRunIff(before);
    if n >= 2 {
      NeverAfterRun(earlier);
    }
    FixedAfterLast(before, Run(lines, n));
  }

  lemma FixedAfterLast(before: seq<string>, after: seq<string>)
    requires after == Migrate(before)
    ensures Migrate(after) == after <==> Migrate(Migrate(before)) == Migrate(before)
  {
  }

  lemma LastRuns(lines: seq<string>, n: nat) returns (before: seq<string>, earlier: seq<string>)
    requires n >= 1
    ensures Migrate(before) == Run(lines, n)
    ensures LegacyUrls(before) == Minus(LegacyUrls(lines), n - 1) && PreferLines(before) == Minus(PreferLines(lines), n - 1)
    ensures if n == 1 then before == lines else before == Migrate(earlier)
  {
    forall y
      ensures LegacyUrls(Migrate(y)) == Minus(LegacyUrls(y), 1)
      ensures PreferLines(Migrate(y)) == Minus(PreferLines(y), 1)
    {
      MigrateCounts(y);
    }
    before, earlier := LastSteps(Migrate, LegacyUrls, PreferLines, lines, n);
  }

  lemma LastSteps<T(!new)>(step: T -> T, a: T -> nat, b: T -> nat, x: T, n: nat) returns (before: T, earlier: T)
    requires n >= 1 && forall y :: a(step(y)) == Minus(a(y), 1) && b(step(y)) == Minus(b(y), 1)
    ensures step(before) == Iterate(step, x, n)
    ensures a(before) == Minus(a(x), n - 1) && b(before) == Minus(b(x), n - 1)
    ensures if n == 1 then before == x else before == step(earlier)
  {
    Countdown(step, a, x, n - 1);
    Countdown(step, b, x, n - 1);
    before := Iterate(step, x, n - 1);
    earlier := if n == 1 then x else Iterate(step, x, n - 2);
  }

  // ---------- the source's claim fails ----------

  lemma CountTriple(a: string, b: string, c: string, test: string -> bool)
    ensures Count([a, b, c], test)
         == (if test(a) then 1 else 0) + (if test(b) then 1 else 0) + (if test(c) then 1 else 0)
  {
    assert [a, b, c] == [a] + [b, c];
    CountAppend([a], [b, c], test);
    CountPair(b, c, test);
    assert [a][1..] == [];
  }

  /**
   The source calls every phase idempotent, but phase 3 writes the reference that phase 2
   of the next run reacts to: a DOMAIN line, a legacy URL and a PANEL_DOMAIN line, in
   this order, settle after two runs and not after one.
   */
  lemma OneRunIsNotEnough(a: string, b: string, c: string)
    requires IsDomain(a) && !IsRef(a) && IsLegacyUrl(b) && !IsRef(b) && IsPanel(c)
    ensures LegacyUrls([a, b, c]) == 1 && PreferLines([a, b, c]) == 0
    ensures Migrate(Migrate([a, b, c])) != Migrate([a, b, c])
    ensures Migrate(Run([a, b, c], 2)) == Run([a, b, c], 2)
  {
    var lines := [a, b, c];
    AllKinds();
    Kinds(a);
    CountTriple(a, b, c, IsLegacyUrl);
    CountTriple(a, b, c, IsPreferIpv4);
    assert lines[1..] == [b, c] && [b, c][1..] == [c] && [c][1..] == [];
    assert Has([c], IsPanel) && Has([b, c], IsPanel) && Has(lines, IsPanel);
    assert Precedes([b, c], IsLegacyUrl, IsPanel) && !DefinedAfterUse([c]) && !DefinedAfterUse([b, c]);
    assert NeedsSecondRun(lines);
    OneRunIff(lines);
    RunsExact(lines, 2);
  }

  /** A concrete file of that kind. */
  lemma OneRunWitness()
    ensures var lines := ["DOMAIN=x", "APP_URL=https://${DOMAIN}/admin", "PANEL_DOMAIN=y"];
            Migrate(Migrate(lines)) != Migrate(lines)
  {
    WitnessKinds("DOMAIN=x", "APP_URL=https://${DOMAIN}/admin");
    OneRunIsNotEnough("DOMAIN=x", "APP_URL=https://${DOMAIN}/admin", "PANEL_DOMAIN=y");
  }

  lemma WitnessKinds(a: string, b: string)
    requires a == "DOMAIN=x" && b == "APP_URL=https://${DOMAIN}/admin"
    ensures !IsRef(a) && !IsRef(b)
  {
    NoDollar(a);
    WitnessLegacy(b);
  }

  lemma WitnessLegacy(b: string)
    requires b == "APP_URL=https://${DOMAIN}/admin"
    ensures !IsRef(b)
  {
    OneDollar(b);
    NoPanelName(b);
  }

  lemma OneDollar(b: string)
    requires b == "APP_URL=https://${DOMAIN}/admin"
    ensures forall i :: 0 <= i < |b| - 2 && b[i] == '$' ==> b[i + 2] != 'P'
  {
    assert b[18] == 'D';
    assert forall i :: 0 <= i < |b| && i != 16 ==> b[i] != '$';
  }

  lemma {:induction false} NoPanelName(l: string)
    requires forall i :: 0 <= i < |l| - 2 && l[i] == '$' ==> l[i + 2] != 'P'
    ensures !Contains(l, "${PANEL_DOMAIN}")
  {
    var name := "${PANEL_DOMAIN}";
    assert name[0] == '$' && name[2] == 'P';
    if l == "" {
    } else {
      NoPanelName(l[1..]);
    }
  }

  // ---------- definition before use ----------

  /**
   When the first DOMAIN= line has a value and precedes every legacy URL and
   every reference, the migrated file defines PANEL_DOMAIN no later than its
   first reference.
   */
  lemma DefinitionBeforeUse(lines: seq<string>, n: nat)
    requires DomainFirst(lines) && !NoDomainValue(lines)
    requires n >= 1 && Enough(lines, n)
    ensures var def, ref := LineNumber(Run(lines, n), IsPanel), LineNumber(Run(lines, n), IsRef);
            def != 0 && (ref == 0 || def <= ref)
  {
    RunsExact(lines, n);
    KeepsDomain(lines, n);
    FixedBeforeUse(Run(lines, n));
  }

  lemma FixedBeforeUse(last: seq<string>)
    requires Migrate(last) == last && DomainFirst(last) && !NoDomainValue(last)
    ensures var def, ref := LineNumber(last, IsPanel), LineNumber(last, IsRef);
            def != 0 && (ref == 0 || def <= ref)
  {
    FixedIffSettled(last);
    RelocatedBeforeUse(last);
    DefinedAfterUseByNumber(last);
    LineNumberHas(last, IsPanel);
    HasCount(last, IsPanel);
  }
}
