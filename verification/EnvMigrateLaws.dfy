/**
 What one run of the `.env` migrator does to the kinds of lines its phases look
 for, when it changes nothing, and what orders the definition of PANEL_DOMAIN
 before its use.
 */
module EnvMigrateLaws {
  import opened Wrappers
  import opened Dotenv
  import opened EnvMigrate

  function Count(lines: seq<string>, test: string -> bool): nat {
    if lines == [] then 0
    else (if test(lines[0]) then 1 else 0) + Count(lines[1..], test)
  }

  /** L: lines phase 3 still has to rewrite. */
  function LegacyUrls(lines: seq<string>): nat { Count(lines, IsLegacyUrl) }

  /** S: lines phase 4 still has to rewrite. */
  function PreferLines(lines: seq<string>): nat { Count(lines, IsPreferIpv4) }

  function Iterate<T>(step: T -> T, x: T, n: nat): T {
    if n == 0 then x else step(Iterate(step, x, n - 1))
  }

  /** The file after n runs of the migrator. */
  function Run(lines: seq<string>, n: nat): seq<string> {
    Iterate(Migrate, lines, n)
  }

  // ---------- counting through the edits ----------

  lemma {:induction false} HasCount(lines: seq<string>, test: string -> bool)
    ensures Has(lines, test) <==> Count(lines, test) > 0
    ensures Has(lines, test) ==> test(First(lines, test).value)
  {
    if lines == [] {
    } else {
      HasCount(lines[1..], test);
    }
  }

  lemma {:induction false} CountAppend(a: seq<string>, b: seq<string>, test: string -> bool)
    ensures Count(a + b, test) == Count(a, test) + Count(b, test)
  {
    if a == [] {
      assert a + b == b;
    } else {
      CountAppend(a[1..], b, test);
      assert (a + b)[1..] == a[1..] + b;
    }
  }

  lemma {:induction false} CountInsert(lines: seq<string>, extra: seq<string>, test: string -> bool)
    ensures Count(InsertAfterDomain(lines, extra), test)
         == Count(lines, test) + if Count(lines, IsDomain) > 0 then Count(extra, test) else 0
  {
    if lines == [] {
    } else {
      if IsDomain(lines[0]) {
        CountAppend(extra, lines[1..], test);
        assert InsertAfterDomain(lines, extra) == [lines[0]] + (extra + lines[1..]);
        assert InsertAfterDomain(lines, extra)[1..] == extra + lines[1..];
      } else {
        CountInsert(lines[1..], extra, test);
      }
    }
  }

  lemma {:induction false} CountStrip(lines: seq<string>, test: string -> bool)
    requires forall l :: IsPanel(l) ==> !test(l)
    ensures Count(StripPanel(lines), test) == Count(lines, test)
  {
    if lines == [] {
    } else {
      CountStrip(lines[1..], test);
      if !IsPanel(lines[0]) {
        assert StripPanel(lines)[1..] == StripPanel(lines[1..]);
      } else {
        assert StripPanel(lines) == StripPanel(lines[1..]);
      }
    }
  }

  lemma {:induction false} StripCount(lines: seq<string>)
    ensures Count(StripPanel(lines), IsPanel) == 0
    ensures |StripPanel(lines)| == |lines| - Count(lines, IsPanel)
    ensures Count(lines, IsPanel) == 0 ==> StripPanel(lines) == lines
  {
    if lines == [] {
    } else {
      StripCount(lines[1..]);
      if !IsPanel(lines[0]) {
        assert StripPanel(lines)[1..] == StripPanel(lines[1..]);
      } else {
        assert StripPanel(lines) == StripPanel(lines[1..]);
      }
    }
  }

  /** An edit that only touches lines of one kind leaves the count of another kind alone. */
  lemma {:induction false} CountReplaceOther(
      lines: seq<string>, hit: string -> bool, edit: string -> string, test: string -> bool)
    requires forall l :: hit(l) ==> !test(l) && !test(edit(l))
    ensures Count(ReplaceFirst(lines, hit, edit), test) == Count(lines, test)
  {
    if lines != [] && !hit(lines[0]) {
      CountReplaceOther(lines[1..], hit, edit, test);
    }
  }

  /** An edit that turns a match into a non-match removes exactly one match. */
  lemma {:induction false} CountReplaceSame(lines: seq<string>, hit: string -> bool, edit: string -> string)
    requires forall l :: hit(l) ==> !hit(edit(l))
    ensures var c := Count(lines, hit);
            Count(ReplaceFirst(lines, hit, edit), hit) == if c == 0 then 0 else c - 1
  {
    if lines != [] && !hit(lines[0]) {
      CountReplaceSame(lines[1..], hit, edit);
    }
  }

  // ---------- the kinds of line exclude each other ----------

  lemma Kinds(l: string)
    ensures IsDomain(l) ==> l[0] == 'D'
    ensures IsPanel(l) ==> l[0] == 'P'
    ensures IsLegacyUrl(l) ==> l[0] == 'A' && FixUrl(l)[0] == 'A' && !IsLegacyUrl(FixUrl(l))
    ensures IsStrategy(l) || IsTimeout(l) || IsDelay(l) ==> l[0] == 'S'
    ensures IsPreferIpv4(l) ==> IsStrategy(l)
    ensures IsStrategy(ToIpv4Only(l)) && !IsPreferIpv4(ToIpv4Only(l))
  {
    if IsLegacyUrl(l) {
      FixedUrlKind(l);
    }
  }

  lemma FixedUrlKind(l: string)
    requires IsLegacyUrl(l)
    ensures l[0] == 'A' && FixUrl(l)[0] == 'A' && !IsLegacyUrl(FixUrl(l))
  {
    if "APP_URL=http://${DOMAIN}" <= l {
      assert FixUrl(l)[17] == 'P';
    } else if "APP_URL=https://${DOMAIN}" <= l {
      assert FixUrl(l)[18] == 'P';
    }
  }

  lemma AllKinds()
    ensures forall l :: IsPanel(l) ==> !IsDomain(l) && !IsLegacyUrl(l) && !IsPreferIpv4(l)
    ensures forall l :: IsLegacyUrl(l) ==> !IsDomain(l) && !IsPanel(l) && !IsPreferIpv4(l)
    ensures forall l :: IsLegacyUrl(l) ==>
              var m := FixUrl(l); !IsDomain(m) && !IsPanel(m) && !IsPreferIpv4(m) && !IsLegacyUrl(m)
    ensures forall l :: IsPreferIpv4(l) ==> !IsDomain(l) && !IsPanel(l) && !IsLegacyUrl(l)
    ensures forall l ::
              var m := ToIpv4Only(l); !IsDomain(m) && !IsPanel(m) && !IsPreferIpv4(m) && !IsLegacyUrl(m)
  {
    forall l
      ensures IsPanel(l) ==> !IsDomain(l) && !IsLegacyUrl(l) && !IsPreferIpv4(l)
      ensures IsLegacyUrl(l) ==> !IsDomain(l) && !IsPanel(l) && !IsPreferIpv4(l)
      ensures IsLegacyUrl(l) ==>
                var m := FixUrl(l); !IsDomain(m) && !IsPanel(m) && !IsPreferIpv4(m) && !IsLegacyUrl(m)
      ensures IsPreferIpv4(l) ==> !IsDomain(l) && !IsPanel(l) && !IsLegacyUrl(l)
      ensures var m := ToIpv4Only(l); !IsDomain(m) && !IsPanel(m) && !IsPreferIpv4(m) && !IsLegacyUrl(m)
    {
      Kinds(l);
      Kinds(FixUrl(l));
      Kinds(ToIpv4Only(l));
    }
  }

  // ---------- what each phase does to the counts ----------

  /** The line kinds the later phases look for. */
  datatype Tally = Tally(domains: nat, legacy: nat, prefer: nat)

  function TallyOf(lines: seq<string>): Tally {
    Tally(Count(lines, IsDomain), LegacyUrls(lines), PreferLines(lines))
  }

  lemma BackfillTally(lines: seq<string>)
    ensures TallyOf(Backfill(lines)) == TallyOf(lines)
    ensures First(Backfill(lines), IsDomain) == First(lines, IsDomain)
    ensures Count(Backfill(lines), IsPanel) > 0 || NoDomainValue(Backfill(lines))
  {
    HasCount(lines, IsPanel);
    if !(Has(lines, IsPanel) || NoDomainValue(lines)) {
      var extra := BackfillLines(ExtractDomain(lines).value);
      HasCount(lines, IsDomain);
      CountInsert(lines, extra, IsDomain);
      CountInsert(lines, extra, IsLegacyUrl);
      CountInsert(lines, extra, IsPreferIpv4);
      CountInsert(lines, extra, IsPanel);
      FirstInsert(lines, extra);
      BackfillLinesCount(ExtractDomain(lines).value);
    }
  }

  lemma BackfillLinesCount(domain: string)
    ensures TallyOf(BackfillLines(domain)) == Tally(0, 0, 0)
    ensures Count(BackfillLines(domain), IsPanel) == 1
  {
    var c, p := BACKFILL_COMMENT, "PANEL_DOMAIN=panel." + domain;
    Kinds(c);
    Kinds(p);
    assert c[0] == '#' && IsPanel(p);
    CountPair(c, p, IsDomain);
    CountPair(c, p, IsLegacyUrl);
    CountPair(c, p, IsPreferIpv4);
    CountPair(c, p, IsPanel);
  }

  lemma CountPair(a: string, b: string, test: string -> bool)
    ensures Count([a, b], test) == (if test(a) then 1 else 0) + (if test(b) then 1 else 0)
  {
    assert [a, b] == [a] + [b];
    CountAppend([a], [b], test);
    assert [a][1..] == [] && [b][1..] == [];
  }

  lemma {:induction false} FirstInsert(lines: seq<string>, extra: seq<string>)
    ensures First(InsertAfterDomain(lines, extra), IsDomain) == First(lines, IsDomain)
  {
    if lines != [] && !IsDomain(lines[0]) {
      FirstInsert(lines[1..], extra);
    }
  }

  lemma {:induction false} FirstStrip(lines: seq<string>)
    ensures First(StripPanel(lines), IsDomain) == First(lines, IsDomain)
  {
    if lines == [] {
    } else {
      FirstStrip(lines[1..]);
      Kinds(lines[0]);
      if IsPanel(lines[0]) {
        assert StripPanel(lines) == StripPanel(lines[1..]);
      }
    }
  }

  lemma {:induction false} FirstReplace(
      lines: seq<string>, hit: string -> bool, edit: string -> string, test: string -> bool)
    requires forall l :: hit(l) ==> !test(l) && !test(edit(l))
    ensures First(ReplaceFirst(lines, hit, edit), test) == First(lines, test)
  {
    if lines != [] && !hit(lines[0]) {
      FirstReplace(lines[1..], hit, edit, test);
    }
  }

  lemma {:induction false} FirstAppend(a: seq<string>, b: seq<string>, test: string -> bool)
    ensures First(a + b, test) == if First(a, test).Some? then First(a, test) else First(b, test)
  {
    if a == [] {
      assert a + b == b;
    } else {
      FirstAppend(a[1..], b, test);
      assert (a + b)[1..] == a[1..] + b;
    }
  }

  lemma RelocatedTally(lines: seq<string>, definition: string)
    requires IsPanel(definition)
    ensures TallyOf(Relocated(lines, definition)) == TallyOf(lines)
    ensures First(Relocated(lines, definition), IsDomain) == First(lines, IsDomain)
    ensures Count(Relocated(lines, definition), IsPanel) == if Count(lines, IsDomain) > 0 then 1 else 0
  {
    AllKinds();
    CountStrip(lines, IsDomain);
    CountStrip(lines, IsLegacyUrl);
    CountStrip(lines, IsPreferIpv4);
    StripCount(lines);
    FirstStrip(lines);
    FirstInsert(StripPanel(lines), [definition]);
    var extra := [definition];
    assert extra[1..] == [];
    CountInsert(StripPanel(lines), extra, IsDomain);
    CountInsert(StripPanel(lines), extra, IsLegacyUrl);
    CountInsert(StripPanel(lines), extra, IsPreferIpv4);
    CountInsert(StripPanel(lines), extra, IsPanel);
  }

  lemma RelocateTally(lines: seq<string>)
    ensures TallyOf(Relocate(lines)) == TallyOf(lines)
    ensures First(Relocate(lines), IsDomain) == First(lines, IsDomain)
    ensures Count(lines, IsPanel) > 0 || NoDomainValue(lines)
            ==> Count(Relocate(lines), IsPanel) > 0 || NoDomainValue(Relocate(lines))
  {
    HasCount(lines, IsPanel);
    HasCount(lines, IsDomain);
    var d := First(lines, IsPanel);
    if d.Some? {
      RelocatedTally(lines, d.value);
    }
  }

  lemma FixTally(lines: seq<string>)
    ensures var t := TallyOf(lines);
            TallyOf(FixLegacyAppUrl(lines)) == t.(legacy := if t.legacy == 0 then 0 else t.legacy - 1)
    ensures First(FixLegacyAppUrl(lines), IsDomain) == First(lines, IsDomain)
    ensures Count(FixLegacyAppUrl(lines), IsPanel) == Count(lines, IsPanel)
  {
    AllKinds();
    CountReplaceOther(lines, IsLegacyUrl, FixUrl, IsDomain);
    CountReplaceOther(lines, IsLegacyUrl, FixUrl, IsPanel);
    CountReplaceOther(lines, IsLegacyUrl, FixUrl, IsPreferIpv4);
    CountReplaceSame(lines, IsLegacyUrl, FixUrl);
    FirstReplace(lines, IsLegacyUrl, FixUrl, IsDomain);
  }

  lemma CanonicalTally(lines: seq<string>)
    ensures var t := TallyOf(lines);
            TallyOf(Canonical(lines)) == t.(prefer := if t.prefer == 0 then 0 else t.prefer - 1)
    ensures First(Canonical(lines), IsDomain) == First(lines, IsDomain)
    ensures Count(Canonical(lines), IsPanel) == Count(lines, IsPanel)
  {
    AllKinds();
    CountReplaceOther(lines, IsPreferIpv4, ToIpv4Only, IsDomain);
    CountReplaceOther(lines, IsPreferIpv4, ToIpv4Only, IsPanel);
    CountReplaceOther(lines, IsPreferIpv4, ToIpv4Only, IsLegacyUrl);
    CountReplaceSame(lines, IsPreferIpv4, ToIpv4Only);
    FirstReplace(lines, IsPreferIpv4, ToIpv4Only, IsDomain);
  }

  // ---------- appended lines are of no interest to the other phases ----------

  /** A line none of the searches for domains, panels, URLs, references or old strategies finds. */
  predicate Inert(l: string) {
    !IsDomain(l) && !IsPanel(l) && !IsLegacyUrl(l) && !IsPreferIpv4(l) && !IsRef(l)
  }

  predicate AllInert(lines: seq<string>) {
    forall i :: 0 <= i < |lines| ==> Inert(lines[i])
  }

  lemma {:induction false} InertCount(lines: seq<string>)
    requires AllInert(lines)
    ensures TallyOf(lines) == Tally(0, 0, 0) && Count(lines, IsPanel) == 0
    ensures First(lines, IsDomain).None?
  {
    if lines == [] {
    } else {
      InertCount(lines[1..]);
    }
  }

  /** What `AppendDefaults` puts after the body. */
  function Tail(lines: seq<string>): seq<string> { Additions(lines) + [""] }

  lemma {:induction false} NoDollar(l: string)
    requires forall i :: 0 <= i < |l| ==> l[i] != '$'
    ensures !Contains(l, "${PANEL_DOMAIN}")
  {
    if l == "" {
    } else {
      NoDollar(l[1..]);
      assert "${PANEL_DOMAIN}"[0] == '$';
    }
  }

  lemma TailInert(lines: seq<string>)
    ensures AllInert(Tail(lines)) && Inert("")
  {
    var s := if Has(lines, IsStrategy) then [] else ["SINGBOX_DIRECT_DOMAIN_STRATEGY=ipv4_only"];
    var t := if Has(lines, IsTimeout) then [] else ["SINGBOX_DIRECT_CONNECT_TIMEOUT=2s"];
    var d := if Has(lines, IsDelay) then [] else ["SINGBOX_DIRECT_FALLBACK_DELAY=100ms"];
    assert Tail(lines) == [DEFAULTS_COMMENT] + s + t + d + [""];
    PlainIsInert("");
    CommentIsInert();
    StrategyInert(lines);
    TimeoutInert(lines);
    DelayInert(lines);
    InertConcat([DEFAULTS_COMMENT], s);
    InertConcat([DEFAULTS_COMMENT] + s, t);
    InertConcat([DEFAULTS_COMMENT] + s + t, d);
    InertConcat([DEFAULTS_COMMENT] + s + t + d, [""]);
  }

  lemma InertConcat(a: seq<string>, b: seq<string>)
    requires AllInert(a) && AllInert(b)
    ensures AllInert(a + b)
  {}

  lemma StrategyInert(lines: seq<string>)
    ensures AllInert(if Has(lines, IsStrategy) then [] else ["SINGBOX_DIRECT_DOMAIN_STRATEGY=ipv4_only"])
  {
    PlainIsInert("SINGBOX_DIRECT_DOMAIN_STRATEGY=ipv4_only");
  }

  lemma TimeoutInert(lines: seq<string>)
    ensures AllInert(if Has(lines, IsTimeout) then [] else ["SINGBOX_DIRECT_CONNECT_TIMEOUT=2s"])
  {
    PlainIsInert("SINGBOX_DIRECT_CONNECT_TIMEOUT=2s");
  }

  lemma DelayInert(lines: seq<string>)
    ensures AllInert(if Has(lines, IsDelay) then [] else ["SINGBOX_DIRECT_FALLBACK_DELAY=100ms"])
  {
    PlainIsInert("SINGBOX_DIRECT_FALLBACK_DELAY=100ms");
  }

  lemma CommentIsInert()
    ensures Inert(DEFAULTS_COMMENT)
  {
    InertComment(DEFAULTS_COMMENT);
  }

  lemma InertComment(comment: string)
    requires comment != "" && comment[0] == '#'
    ensures Inert(comment)
  {
    Kinds(comment);
    assert TrimStart(comment) == comment;
  }

  lemma PlainIsInert(l: string)
    requires l == "" || l[0] == 'S'
    requires !IsPreferIpv4(l) && forall i :: 0 <= i < |l| ==> l[i] != '$'
    ensures Inert(l)
  {
    Kinds(l);
    NoDollar(l);
  }

  lemma AppendTally(lines: seq<string>)
    ensures TallyOf(AppendDefaults(lines)) == TallyOf(lines)
    ensures First(AppendDefaults(lines), IsDomain) == First(lines, IsDomain)
    ensures Count(AppendDefaults(lines), IsPanel) == Count(lines, IsPanel)
  {
    if !HasDefaults(lines) {
      TailInert(lines);
      BodyTally(lines);
      assert AppendDefaults(lines) == Body(lines) + Tail(lines);
      InertTail(Body(lines), Tail(lines));
    }
  }

  lemma BodyTally(lines: seq<string>)
    ensures TallyOf(Body(lines)) == TallyOf(lines)
    ensures First(Body(lines), IsDomain) == First(lines, IsDomain)
    ensures Count(Body(lines), IsPanel) == Count(lines, IsPanel)
  {
    if EndsWithNewline(lines) {
      assert lines == Body(lines) + [""];
      PlainIsInert("");
      InertTail(Body(lines), [""]);
    }
  }

  lemma InertTail(a: seq<string>, b: seq<string>)
    requires AllInert(b)
    ensures TallyOf(a + b) == TallyOf(a)
    ensures First(a + b, IsDomain) == First(a, IsDomain)
    ensures Count(a + b, IsPanel) == Count(a, IsPanel)
  {
    InertCount(b);
    CountAppend(a, b, IsDomain);
    CountAppend(a, b, IsLegacyUrl);
    CountAppend(a, b, IsPreferIpv4);
    CountAppend(a, b, IsPanel);
    FirstAppend(a, b, IsDomain);
  }

  lemma AppendHasDefaults(lines: seq<string>)
    ensures HasDefaults(AppendDefaults(lines))
  {
    if !HasDefaults(lines) {
      KeepOrAdd(lines, IsStrategy, "SINGBOX_DIRECT_DOMAIN_STRATEGY=ipv4_only");
      KeepOrAdd(lines, IsTimeout, "SINGBOX_DIRECT_CONNECT_TIMEOUT=2s");
      KeepOrAdd(lines, IsDelay, "SINGBOX_DIRECT_FALLBACK_DELAY=100ms");
    }
  }

  lemma KeepOrAdd(lines: seq<string>, test: string -> bool, addition: string)
    requires !test("") && test(addition)
    requires !Has(lines, test) ==> addition in Additions(lines)
    ensures Has(Body(lines) + Additions(lines) + [""], test)
  {
    FirstAppend(Body(lines), Additions(lines) + [""], test);
    assert Body(lines) + (Additions(lines) + [""]) == Body(lines) + Additions(lines) + [""];
    if Has(lines, test) {
      if EndsWithNewline(lines) {
        assert lines == Body(lines) + [""];
        FirstAppend(Body(lines), [""], test);
        assert [""][1..] == [];
      }
    } else {
      FirstAppend(Additions(lines), [""], test);
      MemberHas(Additions(lines), addition, test);
    }
  }

  lemma {:induction false} MemberHas(lines: seq<string>, l: string, test: string -> bool)
    requires l in lines && test(l)
    ensures Has(lines, test)
  {
    if !test(lines[0]) {
      MemberHas(lines[1..], l, test);
    }
  }

  // ---------- one run ----------

  /** Phase 1 has nothing to do. */
  predicate PanelSettled(lines: seq<string>) {
    Count(lines, IsPanel) > 0 || NoDomainValue(lines)
  }

  /** One run removes exactly one legacy URL and one old strategy line, if there are any. */
  lemma PhasesTally(lines: seq<string>)
    ensures var t := TallyOf(lines);
            var after := FixLegacyAppUrl(Relocate(Backfill(lines)));
            && TallyOf(after) == t.(legacy := if t.legacy == 0 then 0 else t.legacy - 1)
            && First(after, IsDomain) == First(lines, IsDomain) && PanelSettled(after)
  {
    var after1 := Backfill(lines);
    var after2 := Relocate(after1);
    BackfillTally(lines);
    RelocateTally(after1);
    FixTally(after2);
  }

  lemma MigrateTally(lines: seq<string>)
    ensures var t := TallyOf(lines);
            TallyOf(Migrate(lines)) == Tally(t.domains,
              if t.legacy == 0 then 0 else t.legacy - 1,
              if t.prefer == 0 then 0 else t.prefer - 1)
    ensures First(Migrate(lines), IsDomain) == First(lines, IsDomain)
    ensures PanelSettled(Migrate(lines)) && HasDefaults(Migrate(lines))
  {
    var after3 := FixLegacyAppUrl(Relocate(Backfill(lines)));
    PhasesTally(lines);
    CanonicalTally(after3);
    AppendTally(Canonical(after3));
    AppendHasDefaults(Canonical(after3));
  }

  // ---------- phase 2 is stable under itself and under phase 4 ----------

  lemma {:induction false} DefinedNeedsPanel(lines: seq<string>)
    ensures DefinedAfterUse(lines) ==> Count(lines, IsPanel) > 0
  {
    if lines == [] {
    } else {
      DefinedNeedsPanel(lines[1..]);
      HasCount(lines[1..], IsPanel);
    }
  }

  lemma {:induction false} InsertNowhere(lines: seq<string>, extra: seq<string>)
    requires Count(lines, IsDomain) == 0
    ensures InsertAfterDomain(lines, extra) == lines
  {
    if lines == [] {
    } else {
      InsertNowhere(lines[1..], extra);
    }
  }

  lemma {:induction false} StripInsert(lines: seq<string>, d: string)
    requires IsPanel(d) && Count(lines, IsPanel) == 0
    ensures StripPanel(InsertAfterDomain(lines, [d])) == lines
    ensures Count(lines, IsDomain) > 0 ==> First(InsertAfterDomain(lines, [d]), IsPanel) == Some(d)
  {
    if lines == [] {
    } else {
      var line, rest := lines[0], lines[1..];
      if IsDomain(line) {
        StripCount(rest);
        assert InsertAfterDomain(lines, [d]) == [line] + ([d] + rest);
        assert ([d] + rest)[1..] == rest && ([line] + ([d] + rest))[1..] == [d] + rest;
        assert StripPanel([d] + rest) == rest;
      } else {
        StripInsert(rest, d);
        var tail := InsertAfterDomain(rest, [d]);
        assert ([line] + tail)[1..] == tail;
      }
    }
  }

  /** Relocating twice gives the same lines as relocating once. */
  lemma RelocateIdempotent(lines: seq<string>)
    ensures Relocate(Relocate(lines)) == Relocate(lines)
  {
    HasCount(lines, IsPanel);
    var definition := First(lines, IsPanel);
    if DefinedAfterUse(lines) && definition.Some? {
      var d, stripped := definition.value, StripPanel(lines);
      StripCount(lines);
      if Count(stripped, IsDomain) == 0 {
        InsertNowhere(stripped, [d]);
        DefinedNeedsPanel(stripped);
      } else {
        StripInsert(stripped, d);
      }
    }
  }

  lemma PreferIsInert(l: string)
    ensures IsPreferIpv4(l) ==> !IsRef(l)
    ensures !IsRef(ToIpv4Only(l))
  {
    if IsPreferIpv4(l) {
      NoDollar(l);
    }
    PlainIsInert(ToIpv4Only(l));
  }

  lemma {:induction false} DefinedCanonical(lines: seq<string>)
    ensures DefinedAfterUse(Canonical(lines)) == DefinedAfterUse(lines)
  {
    if lines == [] {
    } else {
      AllKinds();
      PreferIsInert(lines[0]);
      if IsPreferIpv4(lines[0]) {
        assert Canonical(lines)[1..] == lines[1..];
      } else {
        DefinedCanonical(lines[1..]);
        CanonicalTally(lines[1..]);
        HasCount(lines[1..], IsPanel);
        HasCount(Canonical(lines[1..]), IsPanel);
      }
    }
  }

  lemma InsertHere(line: string, rest: seq<string>, d: string)
    requires IsDomain(line)
    ensures InsertAfterDomain([line] + rest, [d]) == [line] + ([d] + rest)
  {
    assert ([line] + rest)[1..] == rest;
  }

  lemma {:induction false} DefinedAppend(a: seq<string>, b: seq<string>)
    requires AllInert(b)
    ensures DefinedAfterUse(a + b) == DefinedAfterUse(a)
  {
    if a == [] {
      assert a + b == b;
      DefinedNeedsPanel(b);
      InertCount(b);
    } else {
      DefinedAppend(a[1..], b);
      assert (a + b)[1..] == a[1..] + b;
      HasCount(a[1..], IsPanel);
      HasCount(a[1..] + b, IsPanel);
      InertTail(a[1..], b);
    }
  }

  lemma {:induction false} StripAppend(a: seq<string>, b: seq<string>)
    requires AllInert(b)
    ensures StripPanel(a + b) == StripPanel(a) + b
  {
    if a == [] {
      InertCount(b);
      StripCount(b);
      assert a + b == b;
    } else {
      StripAppend(a[1..], b);
      assert (a + b)[0] == a[0] && (a + b)[1..] == a[1..] + b;
      Regroup(if IsPanel(a[0]) then [] else [a[0]], StripPanel(a[1..]), b);
    }
  }

  lemma {:induction false} InsertAppend(a: seq<string>, b: seq<string>, extra: seq<string>)
    requires Count(a, IsDomain) > 0
    ensures InsertAfterDomain(a + b, extra) == InsertAfterDomain(a, extra) + b
  {
    assert (a + b)[1..] == a[1..] + b;
    if !IsDomain(a[0]) {
      InsertAppend(a[1..], b, extra);
    }
  }

  /** Appending inert lines neither creates nor removes work for phase 2. */
  lemma RelocateAppend(a: seq<string>, b: seq<string>)
    requires AllInert(b)
    ensures Relocate(a + b) == a + b <==> Relocate(a) == a
  {
    DefinedAppend(a, b);
    DefinedNeedsPanel(a);
    FirstAppend(a, b, IsPanel);
    HasCount(a, IsPanel);
    if DefinedAfterUse(a) {
      var d := First(a, IsPanel).value;
      StripAppend(a, b);
      AllKinds();
      CountStrip(a, IsDomain);
      StripCount(a);
      if Count(a, IsDomain) > 0 {
        InsertAppend(StripPanel(a), b, [d]);
        assert Relocate(a + b) == Relocate(a) + b;
        AppendInjective(Relocate(a), a, b);
      } else {
        InertTail(StripPanel(a), b);
        InsertNowhere(StripPanel(a), [d]);
        InsertNowhere(StripPanel(a) + b, [d]);
        assert |Relocate(a + b)| < |a + b| && |Relocate(a)| < |a|;
      }
    }
  }

  lemma AppendInjective(a: seq<string>, a': seq<string>, b: seq<string>)
    ensures a + b == a' + b <==> a == a'
  {
    if a + b == a' + b {
      assert |a| == |a'|;
      assert (a + b)[..|a|] == a && (a' + b)[..|a'|] == a';
    }
  }

  /** Appending the defaults neither creates nor removes work for phase 2. */
  lemma RelocateDefaults(c: seq<string>)
    ensures Relocate(AppendDefaults(c)) == AppendDefaults(c) <==> Relocate(c) == c
  {
    if !HasDefaults(c) {
      TailInert(c);
      if EndsWithNewline(c) {
        assert c == Body(c) + [""];
        RelocateAppend(Body(c), [""]);
      }
      RelocateAppend(Body(c), Tail(c));
      assert AppendDefaults(c) == Body(c) + Tail(c);
    }
  }

  // ---------- the fixed point ----------

  /** Nothing is left to do for any phase. */
  predicate Settled(lines: seq<string>) {
    && PanelSettled(lines)
    && Relocate(lines) == lines
    && LegacyUrls(lines) == 0
    && PreferLines(lines) == 0
    && HasDefaults(lines)
  }

  lemma CountNone(lines: seq<string>, test: string -> bool, edit: string -> string)
    requires Count(lines, test) == 0
    ensures ReplaceFirst(lines, test, edit) == lines
  {
    HasCount(lines, test);
    ReplaceFirstNone(lines, test, edit);
  }

  lemma BackfillSettled(lines: seq<string>)
    requires PanelSettled(lines)
    ensures Backfill(lines) == lines
  {
    HasCount(lines, IsPanel);
  }

  /** A file is a fixed point of the migration exactly when no phase has anything left to do. */
  lemma FixedIffSettled(lines: seq<string>)
    ensures Migrate(lines) == lines <==> Settled(lines)
  {
    MigrateTally(lines);
    if Settled(lines) || Migrate(lines) == lines {
      BackfillSettled(lines);
      RelocateTally(lines);
      CountNone(Relocate(lines), IsLegacyUrl, FixUrl);
      CountNone(Relocate(lines), IsPreferIpv4, ToIpv4Only);
      if Migrate(lines) == lines {
        var after2 := Relocate(lines);
        assert Migrate(lines) == AppendDefaults(after2);
        RelocateOnlyChange(lines);
      }
    }
  }

  lemma RelocateOnlyChange(lines: seq<string>)
    requires HasDefaults(lines)
    ensures HasDefaults(Relocate(lines))
  {
    HasCount(lines, IsPanel);
    var definition := First(lines, IsPanel);
    if definition.Some? {
      KeepsDefault(lines, definition.value, IsStrategy);
      KeepsDefault(lines, definition.value, IsTimeout);
      KeepsDefault(lines, definition.value, IsDelay);
    }
  }

  lemma KeepsDefault(lines: seq<string>, d: string, test: string -> bool)
    requires Has(lines, test) && forall l :: test(l) ==> IsStrategy(l) || IsTimeout(l) || IsDelay(l)
    ensures Has(Relocated(lines, d), test)
  {
    forall l | IsPanel(l)
      ensures !test(l)
    {
      Kinds(l);
    }
    HasCount(lines, test);
    CountStrip(lines, test);
    CountInsert(StripPanel(lines), [d], test);
    HasCount(Relocated(lines, d), test);
  }

  function Minus(a: nat, b: nat): nat { if a <= b then 0 else a - b }

  lemma MigrateCounts(lines: seq<string>)
    ensures LegacyUrls(Migrate(lines)) == Minus(LegacyUrls(lines), 1)
    ensures PreferLines(Migrate(lines)) == Minus(PreferLines(lines), 1)
  {
    MigrateTally(lines);
    var t, u := TallyOf(lines), TallyOf(Migrate(lines));
    assert u.legacy == Minus(t.legacy, 1) && u.prefer == Minus(t.prefer, 1);
  }

  lemma {:induction false} Countdown<T(!new)>(step: T -> T, count: T -> nat, x: T, n: nat)
    requires forall y :: count(step(y)) == Minus(count(y), 1)
    ensures count(Iterate(step, x, n)) == Minus(count(x), n)
  {
    if n == 0 {
    } else {
      Countdown(step, count, x, n - 1);
    }
  }

  /** Each run takes one off each count until it is zero. */
  lemma RunCounts(lines: seq<string>, n: nat)
    ensures LegacyUrls(Run(lines, n)) == Minus(LegacyUrls(lines), n)
    ensures PreferLines(Run(lines, n)) == Minus(PreferLines(lines), n)
  {
    forall y
      ensures LegacyUrls(Migrate(y)) == Minus(LegacyUrls(y), 1)
      ensures PreferLines(Migrate(y)) == Minus(PreferLines(y), 1)
    {
      MigrateCounts(y);
    }
    Countdown(Migrate, LegacyUrls, lines, n);
    Countdown(Migrate, PreferLines, lines, n);
  }

  // ---------- what phase 3 writes ----------

  /**
   Phase 3 replaces the variable in the first legacy URL, keeps its scheme and
   everything after the variable, and touches no other line.
   */
  lemma {:induction false} FixRewritesFirst(before: seq<string>, scheme: string, rest: string, after: seq<string>)
    requires !Has(before, IsLegacyUrl)
    requires scheme == "APP_URL=http://" || scheme == "APP_URL=https://"
    ensures FixLegacyAppUrl(before + [scheme + "${DOMAIN}" + rest] + after)
         == before + [scheme + "${PANEL_DOMAIN}" + rest] + after
  {
    var old0, new0 := scheme + "${DOMAIN}" + rest, scheme + "${PANEL_DOMAIN}" + rest;
    var lines, fixed := before + [old0] + after, before + [new0] + after;
    if before == [] {
      FixOne(scheme, rest);
      assert lines[0] == old0 && lines[1..] == after;
      assert fixed == [new0] + after;
    } else {
      assert lines[0] == before[0] && lines[1..] == before[1..] + [old0] + after;
      FixRewritesFirst(before[1..], scheme, rest, after);
      assert fixed == [before[0]] + (before[1..] + [new0] + after);
    }
  }

  lemma FixOne(scheme: string, rest: string)
    requires scheme == "APP_URL=http://" || scheme == "APP_URL=https://"
    ensures IsLegacyUrl(scheme + "${DOMAIN}" + rest)
    ensures FixUrl(scheme + "${DOMAIN}" + rest) == scheme + "${PANEL_DOMAIN}" + rest
  {
    var line := scheme + "${DOMAIN}" + rest;
    if scheme == "APP_URL=http://" {
      assert line[..24] == "APP_URL=http://${DOMAIN}" && line[24..] == rest;
      assert scheme + "${PANEL_DOMAIN}" == "APP_URL=http://${PANEL_DOMAIN}";
    } else {
      assert line[..25] == "APP_URL=https://${DOMAIN}" && line[25..] == rest;
      assert line[12] == 's';
      assert scheme + "${PANEL_DOMAIN}" == "APP_URL=https://${PANEL_DOMAIN}";
    }
  }

  // ---------- definition before use ----------

  /** A DOMAIN= line exists and no legacy URL and no reference stands before or in the first one. */
  predicate DomainFirst(lines: seq<string>) {
    lines != [] && !IsRef(lines[0]) && !IsLegacyUrl(lines[0])
    && (IsDomain(lines[0]) || DomainFirst(lines[1..]))
  }

  lemma {:induction false} DomainFirstInsert(lines: seq<string>, extra: seq<string>)
    requires DomainFirst(lines)
    ensures DomainFirst(InsertAfterDomain(lines, extra))
  {
    if !IsDomain(lines[0]) {
      DomainFirstInsert(lines[1..], extra);
      assert InsertAfterDomain(lines, extra)[1..] == InsertAfterDomain(lines[1..], extra);
    }
  }

  lemma {:induction false} DomainFirstStrip(lines: seq<string>)
    requires DomainFirst(lines)
    ensures DomainFirst(StripPanel(lines))
  {
    Kinds(lines[0]);
    if !IsDomain(lines[0]) {
      DomainFirstStrip(lines[1..]);
      if IsPanel(lines[0]) {
        assert StripPanel(lines) == StripPanel(lines[1..]);
      } else {
        assert StripPanel(lines)[1..] == StripPanel(lines[1..]);
      }
    }
  }

  lemma {:induction false} DomainFirstFix(lines: seq<string>)
    requires DomainFirst(lines)
    ensures DomainFirst(FixLegacyAppUrl(lines))
  {
    if !IsDomain(lines[0]) {
      DomainFirstFix(lines[1..]);
      assert FixLegacyAppUrl(lines)[1..] == FixLegacyAppUrl(lines[1..]);
    }
  }

  lemma {:induction false} DomainFirstCanonical(lines: seq<string>)
    requires DomainFirst(lines)
    ensures DomainFirst(Canonical(lines))
  {
    AllKinds();
    PreferIsInert(lines[0]);
    if IsPreferIpv4(lines[0]) {
      assert Canonical(lines)[1..] == lines[1..];
    } else if !IsDomain(lines[0]) {
      DomainFirstCanonical(lines[1..]);
      assert Canonical(lines)[1..] == Canonical(lines[1..]);
    }
  }

  lemma {:induction false} DomainFirstAppend(a: seq<string>, b: seq<string>)
    requires AllInert(b)
    ensures DomainFirst(a + b) == DomainFirst(a)
  {
    if a == [] {
      assert a + b == b;
      InertHasNoDomain(b);
    } else {
      DomainFirstAppend(a[1..], b);
      assert (a + b)[1..] == a[1..] + b;
    }
  }

  lemma {:induction false} InertHasNoDomain(b: seq<string>)
    requires AllInert(b)
    ensures !DomainFirst(b)
  {
    if b == [] {
    } else {
      InertHasNoDomain(b[1..]);
    }
  }

  lemma DomainFirstDefaults(lines: seq<string>)
    requires DomainFirst(lines)
    ensures DomainFirst(AppendDefaults(lines))
  {
    if !HasDefaults(lines) {
      TailInert(lines);
      if EndsWithNewline(lines) {
        assert lines == Body(lines) + [""];
        DomainFirstAppend(Body(lines), [""]);
      }
      DomainFirstAppend(Body(lines), Tail(lines));
      assert AppendDefaults(lines) == Body(lines) + Tail(lines);
    }
  }

  lemma DomainFirstMigrate(lines: seq<string>)
    requires DomainFirst(lines)
    ensures DomainFirst(Migrate(lines))
  {
    var after1 := Backfill(lines);
    assert DomainFirst(after1) by {
      if ExtractDomain(lines).Some? {
        DomainFirstInsert(lines, BackfillLines(ExtractDomain(lines).value));
      }
    }
    var after2 := Relocate(after1);
    assert DomainFirst(after2) by {
      DomainFirstStrip(after1);
      if First(after1, IsPanel).Some? {
        DomainFirstInsert(StripPanel(after1), [First(after1, IsPanel).value]);
      }
    }
    DomainFirstFix(after2);
    DomainFirstCanonical(FixLegacyAppUrl(after2));
    DomainFirstDefaults(Canonical(FixLegacyAppUrl(after2)));
  }

  lemma {:induction false} InsertedBeforeUse(lines: seq<string>, d: string)
    requires DomainFirst(lines) && Count(lines, IsPanel) == 0 && IsPanel(d)
    ensures !DefinedAfterUse(InsertAfterDomain(lines, [d]))
  {
    var line, rest := lines[0], lines[1..];
    if IsDomain(line) {
      Kinds(line);
      assert InsertAfterDomain(lines, [d]) == [line] + ([d] + rest);
      assert ([line] + ([d] + rest))[1..] == [d] + rest;
    } else {
      InsertedBeforeUse(rest, d);
      assert InsertAfterDomain(lines, [d])[1..] == InsertAfterDomain(rest, [d]);
    }
  }

  lemma RelocatedBeforeUse(lines: seq<string>)
    requires DomainFirst(lines) && Relocate(lines) == lines
    ensures !DefinedAfterUse(lines)
  {
    DefinedNeedsPanel(lines);
    HasCount(lines, IsPanel);
    if DefinedAfterUse(lines) {
      DomainFirstStrip(lines);
      StripCount(lines);
      InsertedBeforeUse(StripPanel(lines), First(lines, IsPanel).value);
    }
  }

  lemma {:induction false} Simulates<T(!new), U(!new)>(f: T -> T, g: U -> U, rel: (T, U) -> bool, x: T, y: U, n: nat)
    requires rel(x, y) && forall a, b :: rel(a, b) ==> rel(f(a), g(b))
    ensures rel(Iterate(f, x, n), Iterate(g, y, n))
  {
    if n == 0 {
    } else {
      Simulates(f, g, rel, x, y, n - 1);
    }
  }

  lemma {:induction false} Invariant<T(!new)>(step: T -> T, inv: T -> bool, x: T, n: nat)
    requires inv(x) && forall y :: inv(y) ==> inv(step(y))
    ensures inv(Iterate(step, x, n))
  {
    if n == 0 {
    } else {
      Invariant(step, inv, x, n - 1);
    }
  }

  lemma KeepsDomain(lines: seq<string>, n: nat)
    requires DomainFirst(lines) && !NoDomainValue(lines)
    ensures DomainFirst(Run(lines, n)) && !NoDomainValue(Run(lines, n))
  {
    var inv := (y: seq<string>) => DomainFirst(y) && !NoDomainValue(y);
    forall y | inv(y)
      ensures inv(Migrate(y))
    {
      DomainFirstMigrate(y);
      MigrateTally(y);
    }
    Invariant(Migrate, inv, lines, n);
  }
}
