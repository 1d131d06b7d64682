/**
 `migrateLegacyDomainStrategyConfig` of singbox-core/src/subcommands/supervise.ts:
 the in-place rewrite of a parsed sing-box config before it is run. The document
 is the object that changes; its content is a tree, as `JSON.parse` returns it.
 Beside it stand the consumer of the rewritten field, `checkDirectDialOutbound`
 of operator/src/tasks/doctor.ts, and the producer of new configs,
 `renderServerConfig` of singbox-core/src/config/render.ts.
 */
module ConfigMigration {
  import opened Wrappers

  datatype Json =
    | Null
    | Bool(b: bool)
    | Number(n: int)
    | Str(s: string)
    | Arr(items: seq<Json>)
    | Obj(fields: map<string, Json>)

  /** `value[key]` is present and is the given value. */
  predicate Field(value: Json, key: string, expected: Json) {
    value.Obj? && key in value.fields && value.fields[key] == expected
  }

  predicate IsDirect(outbound: Json) {
    Field(outbound, "type", Str("direct"))
  }

  predicate HasRecord(value: Json, key: string) {
    value.Obj? && key in value.fields && value.fields[key].Obj?
  }

  predicate HasArray(value: Json, key: string) {
    value.Obj? && key in value.fields && value.fields[key].Arr?
  }

  function DefaultResolver(): Json {
    Obj(map["server" := Str("local-dns"), "strategy" := Str("ipv4_only")])
  }

  function LocalDns(): Json {
    Obj(map["type" := Str("local"), "tag" := Str("local-dns")])
  }

  predicate IsLocalDns(server: Json) {
    Field(server, "tag", Str("local-dns"))
  }

  predicate HasLocalDns(servers: seq<Json>) {
    exists i :: 0 <= i < |servers| && IsLocalDns(servers[i])
  }

  // ---------- specification ----------

  /** A direct outbound the runtime accepts as it is. */
  predicate Modern(outbound: Json) {
    IsDirect(outbound) ==>
      && "domain_strategy" !in outbound.fields
      && HasRecord(outbound, "domain_resolver")
      && Field(outbound.fields["domain_resolver"], "strategy", Str("ipv4_only"))
  }

  /** The same outbound with `domain_strategy` gone and an ipv4_only resolver. */
  function Modernised(outbound: Json): Json {
    if !IsDirect(outbound) then outbound
    else
      var resolver := if HasRecord(outbound, "domain_resolver")
                      then Obj(outbound.fields["domain_resolver"].fields["strategy" := Str("ipv4_only")])
                      else DefaultResolver();
      Obj((outbound.fields - {"domain_strategy"})["domain_resolver" := resolver])
  }

  function ModernisedAll(outbounds: seq<Json>): seq<Json> {
    seq(|outbounds|, i requires 0 <= i < |outbounds| => Modernised(outbounds[i]))
  }

  predicate AllModern(outbounds: seq<Json>) {
    forall i :: 0 <= i < |outbounds| ==> Modern(outbounds[i])
  }

  function DnsWithLocal(config: Json): Json
    requires config.Obj?
  {
    var dns := if HasRecord(config, "dns") then config.fields["dns"].fields else map[];
    var servers := if "servers" in dns && dns["servers"].Arr? then dns["servers"].items else [];
    var extended := if HasLocalDns(servers) then servers else servers + [LocalDns()];
    Obj(dns["servers" := Arr(extended)])
  }

  predicate NeedsMigration(config: Json) {
    HasArray(config, "outbounds") && !AllModern(config.fields["outbounds"].items)
  }

  function Migrated(config: Json): Json {
    if !NeedsMigration(config) then config
    else Obj(config.fields["outbounds" := Arr(ModernisedAll(config.fields["outbounds"].items))]
                          ["dns" := DnsWithLocal(config)])
  }

  // ---------- the code ----------

  class ConfigDocument {
    var config: Json

    constructor (config: Json)
      ensures this.config == config
    {
      this.config := config;
    }

    /** `migrateLegacyDomainStrategyConfig`. */
    method MigrateLegacyDomainStrategy() returns (changed: bool)
      modifies this
      ensures config == Migrated(old(config))
      ensures changed <==> NeedsMigration(old(config))
    {
      changed := false;
      if !HasArray(config, "outbounds") {
        return;
      }
      ghost var before := config;
      ghost var original := config.fields["outbounds"].items;
      var outbounds := config.fields["outbounds"].items;
      for i := 0 to |outbounds|
        invariant |outbounds| == |original|
        invariant forall j :: 0 <= j < i ==> outbounds[j] == Modernised(original[j])
        invariant forall j :: i <= j < |outbounds| ==> outbounds[j] == original[j]
        invariant changed <==> exists j :: 0 <= j < i && !Modern(original[j])
        invariant config == before
      {
        if !IsDirect(outbounds[i]) {
          continue;
        }
        var fields := outbounds[i].fields;
        if "domain_strategy" in fields {
          fields := fields - {"domain_strategy"};
          changed := true;
        }
        if !("domain_resolver" in fields && fields["domain_resolver"].Obj?) {
          fields := fields["domain_resolver" := DefaultResolver()];
          changed := true;
        } else {
          var resolver := fields["domain_resolver"].fields;
          if !("strategy" in resolver && resolver["strategy"] == Str("ipv4_only")) {
            fields := fields["domain_resolver" := Obj(resolver["strategy" := Str("ipv4_only")])];
            changed := true;
          }
        }
        OutboundStep(original[i], fields);
        outbounds := outbounds[i := Obj(fields)];
      }
      assert outbounds == ModernisedAll(original);
      config := Obj(config.fields["outbounds" := Arr(outbounds)]);
      if !changed {
        ModernIsFixed(original);
        assert config == before;
        return;
      }
      var dns := if HasRecord(config, "dns") then config.fields["dns"].fields else map[];
      var servers := if "servers" in dns && dns["servers"].Arr? then dns["servers"].items else [];
      if !HasLocalDns(servers) {
        servers := servers + [LocalDns()];
      }
      dns := dns["servers" := Arr(servers)];
      assert Obj(dns) == DnsWithLocal(before);
      config := Obj(config.fields["dns" := Obj(dns)]);
    }
  }

  lemma OutboundStep(outbound: Json, fields: map<string, Json>)
    requires IsDirect(outbound)
    requires var kept := outbound.fields - {"domain_strategy"};
             fields == if !HasRecord(outbound, "domain_resolver") then kept["domain_resolver" := DefaultResolver()]
                       else if Field(outbound.fields["domain_resolver"], "strategy", Str("ipv4_only")) then kept
                       else kept["domain_resolver" :=
                              Obj(outbound.fields["domain_resolver"].fields["strategy" := Str("ipv4_only")])]
    ensures Obj(fields) == Modernised(outbound)
  {
    if HasRecord(outbound, "domain_resolver") {
      var r := outbound.fields["domain_resolver"];
      if Field(r, "strategy", Str("ipv4_only")) {
        assert r.fields["strategy" := Str("ipv4_only")] == r.fields;
        assert Obj(r.fields) == r;
      }
    }
  }

  // ---------- laws ----------

  /** An outbound is left as it is exactly when it is modern. */
  lemma ModernIffFixed(outbound: Json)
    ensures Modern(outbound) <==> Modernised(outbound) == outbound
    ensures Modern(Modernised(outbound))
  {
    if IsDirect(outbound) {
      if Modern(outbound) {
        var r := outbound.fields["domain_resolver"];
        assert r.fields["strategy" := Str("ipv4_only")] == r.fields;
        assert outbound.fields - {"domain_strategy"} == outbound.fields;
        assert Modernised(outbound).fields == outbound.fields;
      } else if Modernised(outbound) == outbound {
        assert "domain_strategy" !in Modernised(outbound).fields;
        assert HasRecord(Modernised(outbound), "domain_resolver");
      }
    }
  }

  lemma ModernIsFixed(outbounds: seq<Json>)
    ensures AllModern(outbounds) <==> ModernisedAll(outbounds) == outbounds
    ensures AllModern(ModernisedAll(outbounds))
  {
    forall i | 0 <= i < |outbounds|
      ensures Modern(outbounds[i]) <==> ModernisedAll(outbounds)[i] == outbounds[i]
      ensures Modern(ModernisedAll(outbounds)[i])
    {
      ModernIffFixed(outbounds[i]);
    }
  }

  /** The returned flag says whether the document changed; a second call changes nothing. */
  lemma MigrationFixedPoint(config: Json)
    ensures NeedsMigration(config) <==> Migrated(config) != config
    ensures !NeedsMigration(Migrated(config)) && Migrated(Migrated(config)) == Migrated(config)
  {
    if NeedsMigration(config) {
      ModernIsFixed(config.fields["outbounds"].items);
    }
  }

  /** `stringFromPath` with one key. */
  function StringField(record: Json, key: string): string {
    if record.Obj? && key in record.fields && record.fields[key].Str? then record.fields[key].s else ""
  }

  /** The verdict of `checkDirectDialOutbound`. */
  predicate CheckDirectDialOutbound(direct: Json) {
    var legacyStrategy := StringField(direct, "domain_strategy");
    var resolverStrategy :=
      if HasRecord(direct, "domain_resolver") then StringField(direct.fields["domain_resolver"], "strategy") else "";
    var strategy := if resolverStrategy != "" then resolverStrategy else legacyStrategy;
    strategy == "ipv4_only"
  }

  /** After the migration every direct outbound passes the doctor's check. */
  lemma MigratedPassesDoctor(config: Json, i: nat)
    requires HasArray(config, "outbounds")
    requires i < |Migrated(config).fields["outbounds"].items|
    requires IsDirect(Migrated(config).fields["outbounds"].items[i])
    ensures CheckDirectDialOutbound(Migrated(config).fields["outbounds"].items[i])
  {
    MigrationFixedPoint(config);
    assert AllModern(Migrated(config).fields["outbounds"].items);
    assert Modern(Migrated(config).fields["outbounds"].items[i]);
  }

  /**
   The doctor's check and the migration's test, exactly: a direct outbound is left alone
   by the migration if and only if it passes the check and has no legacy field.
   */
  lemma DoctorExactly(direct: Json)
    requires IsDirect(direct)
    ensures Modern(direct) <==> CheckDirectDialOutbound(direct) && "domain_strategy" !in direct.fields
  {
  }

  /** A direct outbound that fails the check or still has the legacy field. */
  predicate Outdated(outbound: Json) {
    IsDirect(outbound) && (!CheckDirectDialOutbound(outbound) || "domain_strategy" in outbound.fields)
  }

  predicate SomeOutdated(outbounds: seq<Json>) {
    exists i :: 0 <= i < |outbounds| && Outdated(outbounds[i])
  }

  /** So a document is rewritten exactly when it has such an outbound. */
  lemma MigratesIff(config: Json)
    ensures NeedsMigration(config) <==> HasArray(config, "outbounds") && SomeOutdated(config.fields["outbounds"].items)
  {
    if HasArray(config, "outbounds") {
      var items := config.fields["outbounds"].items;
      forall i | 0 <= i < |items|
        ensures Modern(items[i]) <==> !Outdated(items[i])
      {
        if IsDirect(items[i]) {
          DoctorExactly(items[i]);
        }
      }
    }
  }

  /** The converse of `MigratedPassesDoctor` fails: the legacy field alone satisfies the check. */
  lemma DoctorAcceptsLegacy()
    ensures var legacy := Obj(map["type" := Str("direct"), "domain_strategy" := Str("ipv4_only")]);
            CheckDirectDialOutbound(legacy) && !Modern(legacy)
  {
    DoctorExactly(Obj(map["type" := Str("direct"), "domain_strategy" := Str("ipv4_only")]));
  }

  /**
   The frame: outbounds keep their number and order, those that are not direct
   are untouched, a direct one keeps every other field and its resolver keeps
   everything but the strategy.
   */
  lemma OutboundFrame(config: Json)
    requires HasArray(config, "outbounds")
    ensures HasArray(Migrated(config), "outbounds")
    ensures var a, b := config.fields["outbounds"].items, Migrated(config).fields["outbounds"].items;
            && |a| == |b|
            && forall i :: 0 <= i < |a| ==> SameButDial(a[i], b[i])
  {
    var a := config.fields["outbounds"].items;
    forall i | 0 <= i < |a|
      ensures SameButDial(a[i], a[i]) && SameButDial(a[i], Modernised(a[i]))
    {
    }
  }

  predicate SameButDial(a: Json, b: Json) {
    if !IsDirect(a) then a == b
    else
      && b.Obj?
      && (forall k :: k in a.fields && k != "domain_strategy" && k != "domain_resolver" ==>
            k in b.fields && b.fields[k] == a.fields[k])
      && (forall k :: k in b.fields ==> k in a.fields || k == "domain_resolver")
      && (HasRecord(a, "domain_resolver") ==>
            && HasRecord(b, "domain_resolver")
            && var r, t := a.fields["domain_resolver"].fields, b.fields["domain_resolver"].fields;
               && (forall k :: k in r && k != "strategy" ==> k in t && t[k] == r[k])
               && (forall k :: k in t ==> k in r || k == "strategy"))
  }

  /** Outside outbounds only dns changes, and there only by appending the local server when none exists. */
  lemma DnsFrame(config: Json)
    requires NeedsMigration(config)
    ensures var c, m := config.fields, Migrated(config).fields;
            && (forall k :: k in c && k != "outbounds" && k != "dns" ==> k in m && m[k] == c[k])
            && (forall k :: k in m ==> k in c || k == "dns")
            && HasRecord(Migrated(config), "dns") && HasArray(m["dns"], "servers")
            && var after := m["dns"].fields["servers"].items;
               var before := if HasRecord(config, "dns") && HasArray(c["dns"], "servers")
                             then c["dns"].fields["servers"].items else [];
               && (after == before || after == before + [Obj(map["type" := Str("local"), "tag" := Str("local-dns")])])
               && HasLocalDns(after)
               && (HasLocalDns(before) ==> after == before)
               && (HasRecord(config, "dns") ==>
                     forall k :: k in c["dns"].fields && k != "servers" ==>
                       k in m["dns"].fields && m["dns"].fields[k] == c["dns"].fields[k])
  {
    var dns := if HasRecord(config, "dns") then config.fields["dns"].fields else map[];
    var before := if "servers" in dns && dns["servers"].Arr? then dns["servers"].items else [];
    var after := Migrated(config).fields["dns"].fields["servers"].items;
    if !HasLocalDns(before) {
      assert after == before + [LocalDns()] && IsLocalDns(after[|before|]);
    }
  }

  /**
   The resolver of a rewritten direct outbound: its own with the strategy set, or a new one
   with exactly these two fields. A new one names a server the document then has.
   */
  lemma ResolverWritten(config: Json, i: nat)
    requires NeedsMigration(config) && i < |config.fields["outbounds"].items|
    requires IsDirect(config.fields["outbounds"].items[i])
    ensures HasArray(Migrated(config), "outbounds") && i < |Migrated(config).fields["outbounds"].items|
    ensures var a, b := config.fields["outbounds"].items[i], Migrated(config).fields["outbounds"].items[i];
            && HasRecord(b, "domain_resolver")
            && var r := b.fields["domain_resolver"].fields;
               && r.Keys == (if HasRecord(a, "domain_resolver") then a.fields["domain_resolver"].fields.Keys else {"server"}) + {"strategy"}
               && r["strategy"] == Str("ipv4_only")
               && (!HasRecord(a, "domain_resolver") ==> r["server"] == Str("local-dns"))
    ensures HasServer(Migrated(config), "local-dns")
  {
    DnsFrame(config);
    var servers := Migrated(config).fields["dns"].fields["servers"].items;
    var k :| 0 <= k < |servers| && IsLocalDns(servers[k]);
    assert Field(servers[k], "tag", Str("local-dns"));
  }

  /** Some entry of dns.servers carries the tag. */
  predicate HasServer(config: Json, tag: string) {
    HasRecord(config, "dns") && HasArray(config.fields["dns"], "servers")
    && exists k :: 0 <= k < |config.fields["dns"].fields["servers"].items|
        && Field(config.fields["dns"].fields["servers"].items[k], "tag", Str(tag))
  }

  // ---------- what the renderer writes needs no migration ----------

  datatype Account = Account(username: string, uuid: string)

  /** `direct_domain_strategy` is typed as the empty string or "ipv4_only". */
  datatype Strategy = Unset | Ipv4Only

  datatype ServerRenderInput = ServerRenderInput(
    listenPort: int, realityPrivateKey: string, realityShortIds: seq<string>,
    realityDestHost: string, realityDestPort: int, accounts: seq<Account>, logLevel: Option<string>,
    directDomainStrategy: Strategy, directConnectTimeout: string, directFallbackDelay: string)

  function OrElse(s: string, default: string): string {
    if s == "" then default else s
  }

  /** `renderServerConfig`; None where the source throws. */
  function RenderServerConfig(input: ServerRenderInput): Option<Json> {
    if input.realityPrivateKey == "" || input.realityDestHost == "" || input.accounts == [] then None
    else
      var users := seq(|input.accounts|, i requires 0 <= i < |input.accounts| =>
        Obj(map["name" := Str(input.accounts[i].username), "uuid" := Str(input.accounts[i].uuid),
                "flow" := Str("xtls-rprx-vision")]));
      var shortIds := if input.realityShortIds == [] then [""] else input.realityShortIds;
      var reality := Obj(map[
        "enabled" := Bool(true),
        "handshake" := Obj(map["server" := Str(input.realityDestHost),
                               "server_port" := Number(input.realityDestPort)]),
        "private_key" := Str(input.realityPrivateKey),
        "short_id" := Arr(seq(|shortIds|, i requires 0 <= i < |shortIds| => Str(shortIds[i]))),
        "max_time_difference" := Str("1m")]);
      var inbound := Obj(map[
        "type" := Str("vless"), "tag" := Str("vless-in"), "listen" := Str("0.0.0.0"),
        "listen_port" := Number(input.listenPort), "users" := Arr(users),
        "tls" := Obj(map["enabled" := Bool(true), "server_name" := Str(input.realityDestHost),
                         "reality" := reality])]);
      var strategy := match input.directDomainStrategy case Unset => "ipv4_only" case Ipv4Only => "ipv4_only";
      var directOut := Obj(map[
        "type" := Str("direct"), "tag" := Str("direct"),
        "domain_resolver" := Obj(map["server" := Str("local-dns"), "strategy" := Str(strategy)]),
        "connect_timeout" := Str(OrElse(input.directConnectTimeout, "2s")),
        "fallback_delay" := Str(OrElse(input.directFallbackDelay, "100ms"))]);
      var blockOut := Obj(map["type" := Str("block"), "tag" := Str("block")]);
      var level := if input.logLevel.Some? then input.logLevel.value else "info";
      Some(Obj(map[
        "log" := Obj(map["level" := Str(level), "timestamp" := Bool(true)]),
        "dns" := Obj(map["servers" := Arr([LocalDns()])]),
        "inbounds" := Arr([inbound]),
        "outbounds" := Arr([directOut, blockOut])]))
  }

  /** A rendered server config passes the supervisor unchanged and the doctor's check. */
  lemma RenderedIsFixedPoint(input: ServerRenderInput)
    requires RenderServerConfig(input).Some?
    ensures var c := RenderServerConfig(input).value;
            && Migrated(c) == c
            && HasArray(c, "outbounds")
            && forall i :: 0 <= i < |c.fields["outbounds"].items| && IsDirect(c.fields["outbounds"].items[i]) ==>
                 CheckDirectDialOutbound(c.fields["outbounds"].items[i])
  {
    var c := RenderServerConfig(input).value;
    var outbounds := c.fields["outbounds"].items;
    assert |outbounds| == 2 && Modern(outbounds[0]) && !IsDirect(outbounds[1]);
    assert CheckDirectDialOutbound(outbounds[0]);
  }

  /** What the direct outbound dials with: the given timings, or two seconds and 100 milliseconds. */
  lemma RenderedDial(input: ServerRenderInput)
    requires RenderServerConfig(input).Some?
    ensures var c := RenderServerConfig(input).value;
            && HasArray(c, "outbounds") && |c.fields["outbounds"].items| == 2 && HasServer(c, "local-dns")
            && var direct := c.fields["outbounds"].items[0];
               && IsDirect(direct)
               && Field(direct, "connect_timeout", Str(if input.directConnectTimeout != "" then input.directConnectTimeout else "2s"))
               && Field(direct, "fallback_delay", Str(if input.directFallbackDelay != "" then input.directFallbackDelay else "100ms"))
               && HasRecord(direct, "domain_resolver")
               && Field(direct.fields["domain_resolver"], "server", Str("local-dns"))
               && Field(direct.fields["domain_resolver"], "strategy", Str("ipv4_only"))
  {
    var dns := RenderServerConfig(input).value.fields["dns"];
    assert Field(dns.fields["servers"].items[0], "tag", Str("local-dns"));
  }
}
